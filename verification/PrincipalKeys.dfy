/** The registry of principal keys, read from its JSON text. */
module PrincipalKeys {
  import opened CodeUnits
  import opened Json
  import opened JsonParser
  import opened CompactJws
  import opened Grants

  const KTY: Text := ['k' as int, 't' as int, 'y' as int]
  const EC: Text := ['E' as int, 'C' as int]
  const CRV: Text := ['c' as int, 'r' as int, 'v' as int]
  const P256: Text := ['P' as int, '-' as int, '2' as int, '5' as int, '6' as int]
  const USE: Text := ['u' as int, 's' as int, 'e' as int]
  const SIG: Text := ['s' as int, 'i' as int, 'g' as int]
  const COORDINATE_X: Text := ['x' as int]
  const COORDINATE_Y: Text := ['y' as int]
  const PRIVATE_PART: Text := ['d' as int]

  /** The key pair with these public coordinates. */
  type Pairs = (Text, Text) -> nat

  predicate NonEmptyString(v: Value) { v.Str? && v.text != [] }

  predicate IsEcPublicJwk(v: Value) {
    v.Obj? &&
    var ms := v.members;
    && Get(ms, KTY) == Str(EC) && Get(ms, CRV) == Str(P256) && Get(ms, ALG) == Str(ES256) && Get(ms, USE) == Str(SIG)
    && NonEmptyString(Get(ms, KID)) && NonEmptyString(Get(ms, COORDINATE_X)) && NonEmptyString(Get(ms, COORDINATE_Y))
    && Get(ms, PRIVATE_PART) == Undefined
  }

  /** How a candidate is read: the key, when it is a P-256 public key with a kid. */
  type Reader = Value -> Option<PublicKey>

  function JwkReader(pairs: Pairs): Reader {
    (v: Value) =>
      if IsEcPublicJwk(v) then
        Some(PublicKey(Get(v.members, KID).text, pairs(Get(v.members, COORDINATE_X).text, Get(v.members, COORDINATE_Y).text)))
      else None
  }

  /** A usable JWK: a P-256 signing key in its public form, with a key id. */
  predicate UsableJwk(v: Value) {
    v.Obj? &&
    var ms := v.members;
    && Get(ms, Units("kty")) == Str(Units("EC")) && Get(ms, Units("crv")) == Str(Units("P-256"))
    && Get(ms, Units("alg")) == Str(Units("ES256")) && Get(ms, Units("use")) == Str(Units("sig"))
    && Get(ms, Units("kid")).Str? && Get(ms, Units("kid")).text != []
    && Get(ms, Units("x")).Str? && Get(ms, Units("x")).text != [] && Get(ms, Units("y")).Str? && Get(ms, Units("y")).text != []
    && Get(ms, Units("d")) == Undefined
  }

  lemma JwkNames()
    ensures KTY == Units("kty") && EC == Units("EC") && CRV == Units("crv") && P256 == Units("P-256") && USE == Units("use")
    ensures SIG == Units("sig") && COORDINATE_X == Units("x") && COORDINATE_Y == Units("y") && PRIVATE_PART == Units("d")
    ensures ALG == Units("alg") && ES256 == Units("ES256") && KID == Units("kid")
  {
  }

  /** Exactly the usable JWKs are read, each as the key of its id and coordinates. */
  lemma JwkReadExactly(v: Value, pairs: Pairs)
    ensures var r := JwkReader(pairs)(v);
            && (r.Some? <==> UsableJwk(v))
            && (r.Some? ==> var ms := v.members;
                  r.value == PublicKey(Get(ms, Units("kid")).text, pairs(Get(ms, Units("x")).text, Get(ms, Units("y")).text)))
  {
    hide Units, Get;
    JwkNames();
    assert IsEcPublicJwk(v) <==> UsableJwk(v);
  }

  function Candidates(v: Value): seq<Value> { if v.Arr? then v.items else [v] }

  function ReadAll(candidates: seq<Value>, read: Reader): Option<seq<PublicKey>> {
    if candidates == [] then Some([])
    else match (read(candidates[0]), ReadAll(candidates[1..], read))
      case (Some(key), Some(keys)) => Some([key] + keys)
      case _ => None
  }

  function Kids(keys: seq<PublicKey>): (r: seq<Text>)
    ensures |r| == |keys| && forall i :: 0 <= i < |r| ==> r[i] == keys[i].kid
  {
    seq(|keys|, i requires 0 <= i < |keys| => keys[i].kid)
  }

  /** The keys of one principal: at least one, each well formed, with distinct ids. */
  function EntryKeys(m: Member, read: Reader): Option<seq<PublicKey>> {
    if Identifier(Str(m.key)).None? || Candidates(m.value) == [] then None
    else match ReadAll(Candidates(m.value), read)
      case None => None
      case Some(keys) => if Distinct(Kids(keys)) then Some(keys) else None
  }

  /** registry.set for one entry after another, until one is refused. */
  function SetEntries(ms: seq<Member>, read: Reader, registry: Registry): Option<Registry> {
    if ms == [] then Some(registry)
    else match EntryKeys(ms[0], read)
      case None => None
      case Some(keys) => SetEntries(ms[1..], read, registry[ms[0].key := keys])
  }

  /** new Set(keys.map(key => key.kid)). */
  function KidSet(keys: seq<PublicKey>): set<Text> {
    if keys == [] then {} else KidSet(keys[1..]) + {keys[0].kid}
  }

  lemma {:induction false} KidSetMembers(keys: seq<PublicKey>, kid: Text)
    ensures kid in KidSet(keys) <==> exists i :: 0 <= i < |keys| && keys[i].kid == kid
  {
    if keys != [] {
      KidSetMembers(keys[1..], kid);
      assert forall i :: 1 <= i < |keys| ==> keys[i] == keys[1..][i - 1];
      assert forall i :: 0 <= i < |keys[1..]| ==> keys[1..][i] == keys[i + 1];
    }
  }

  /** The set has as many ids as there are keys exactly when the ids are distinct. */
  lemma {:induction false} FullKidSetIsDistinct(keys: seq<PublicKey>)
    ensures |KidSet(keys)| <= |keys| && (|KidSet(keys)| == |keys| <==> Distinct(Kids(keys)))
  {
    if keys != [] {
      FullKidSetIsDistinct(keys[1..]);
      KidSetMembers(keys[1..], keys[0].kid);
      assert Kids(keys)[1..] == Kids(keys[1..]);
      DistinctCons(Kids(keys));
      assert keys[0].kid in KidSet(keys[1..]) ==> KidSet(keys) == KidSet(keys[1..]);
      assert forall i :: 1 <= i < |keys| ==> Kids(keys)[i] == keys[1..][i - 1].kid;
    }
  }

  lemma DistinctCons(s: seq<Text>)
    requires s != []
    ensures Distinct(s) <==> Distinct(s[1..]) && forall i :: 1 <= i < |s| ==> s[i] != s[0]
  {
    assert forall i :: 1 <= i < |s| ==> s[i] == s[1..][i - 1];
    if Distinct(s) {
      forall i, j | 0 <= i < j < |s[1..]| ensures s[1..][i] != s[1..][j] { assert s[i + 1] != s[j + 1]; }
    }
  }

  /** for (const candidate of candidates) keys.push(candidate). */
  method ReadKeys(candidates: seq<Value>, read: Reader) returns (ok: bool, keys: seq<PublicKey>)
    ensures if ok then ReadAll(candidates, read) == Some(keys) else ReadAll(candidates, read) == None
  {
    keys := [];
    assert candidates[0..] == candidates;
    assert ReadAll(candidates, read).Some? ==> [] + ReadAll(candidates, read).value == ReadAll(candidates, read).value;
    for n := 0 to |candidates|
      invariant ReadAll(candidates, read) ==
                match ReadAll(candidates[n..], read) case None => None case Some(rest) => Some(keys + rest)
    {
      assert candidates[n..][0] == candidates[n] && candidates[n..][1..] == candidates[n + 1..];
      var key := read(candidates[n]);
      if key.None? { return false, keys; }
      if ReadAll(candidates[n + 1..], read).Some? {
        assert keys + ([key.value] + ReadAll(candidates[n + 1..], read).value) == keys + [key.value] + ReadAll(candidates[n + 1..], read).value;
      }
      keys := keys + [key.value];
    }
    assert candidates[|candidates|..] == [] && keys + [] == keys;
    ok := true;
  }

  /** The loop over Object.entries(parsed). */
  method ReadEntries(ms: seq<Member>, read: Reader) returns (r: Option<Registry>)
    ensures r == SetEntries(ms, read, map[])
  {
    var registry: Registry := map[];
    for n := 0 to |ms|
      invariant SetEntries(ms, read, map[]) == SetEntries(ms[n..], read, registry)
    {
      var entry := ms[n];
      assert ms[n..][0] == entry && ms[n..][1..] == ms[n + 1..];
      if Identifier(Str(entry.key)).None? || Candidates(entry.value) == [] { return None; }
      var ok, keys := ReadKeys(Candidates(entry.value), read);
      if !ok { return None; }
      FullKidSetIsDistinct(keys);
      if |KidSet(keys)| != |keys| { return None; }
      registry := registry[entry.key := keys];
    }
    assert ms[|ms|..] == [];
    r := Some(registry);
  }

  function RegistryOf(source: Option<Text>, pairs: Pairs): Option<Registry> {
    if source.None? || Trim(source.value) == [] then Some(map[])
    else match Parse(source.value)
      case Some(Obj(ms)) => SetEntries(ms, JwkReader(pairs), map[])
      case _ => None
  }

  /** parsePrincipalKeyRegistry; None stands for a thrown error. */
  method ParsePrincipalKeyRegistry(source: Option<Text>, pairs: Pairs) returns (r: Option<Registry>)
    ensures r == RegistryOf(source, pairs)
  {
    if source.None? || Trim(source.value) == [] { return Some(map[]); }
    var parsed := Parse(source.value);
    if parsed.None? || !parsed.value.Obj? { return None; }
    r := ReadEntries(parsed.value.members, JwkReader(pairs));
  }

  // ---- what the registry holds -----------------------------------------------------------

  lemma {:induction false} OthersKept(ms: seq<Member>, read: Reader, registry: Registry, p: Text)
    requires SetEntries(ms, read, registry).Some? && p !in KeysOf(ms)
    ensures var r := SetEntries(ms, read, registry).value;
            (p in r <==> p in registry) && (p in r ==> r[p] == registry[p])
  {
    if ms != [] {
      assert KeysOf(ms)[0] == ms[0].key && KeysOf(ms[1..]) == KeysOf(ms)[1..];
      OthersKept(ms[1..], read, registry[ms[0].key := EntryKeys(ms[0], read).value], p);
    }
  }

  /** The registry holds, for each principal of the object, exactly the keys listed for it. */
  lemma {:induction false} RegistryHolds(ms: seq<Member>, read: Reader, registry: Registry, i: nat)
    requires SetEntries(ms, read, registry).Some? && Distinct(KeysOf(ms)) && i < |ms|
    ensures ms[i].key in SetEntries(ms, read, registry).value
    ensures EntryKeys(ms[i], read) == Some(SetEntries(ms, read, registry).value[ms[i].key])
  {
    var keys := EntryKeys(ms[0], read).value;
    var next := registry[ms[0].key := keys];
    assert KeysOf(ms[1..]) == KeysOf(ms)[1..] && KeysOf(ms)[0] == ms[0].key;
    DistinctCons(KeysOf(ms));
    if i == 0 {
      OthersKept(ms[1..], read, next, ms[0].key);
    } else {
      RegistryHolds(ms[1..], read, next, i - 1);
    }
  }

  /** Among keys with distinct ids, each is the one found by its id. */
  lemma {:induction false} DistinctKeysAreFound(keys: seq<PublicKey>, i: nat)
    requires Distinct(Kids(keys)) && i < |keys|
    ensures FindKey(keys, keys[i].kid) == Some(keys[i])
  {
    if i > 0 {
      var ids := Kids(keys);
      assert ids[0] != ids[i];
      assert Kids(keys[1..]) == ids[1..];
      DistinctCons(ids);
      DistinctKeysAreFound(keys[1..], i - 1);
    }
  }

  /** In a parsed registry, a minting key is registered exactly when its public half is among its principal's keys. */
  lemma RegisteredExactlyWhenListed(ms: seq<Member>, read: Reader, i: nat, key: PrivateKey)
    requires SetEntries(ms, read, map[]).Some? && Distinct(KeysOf(ms)) && i < |ms|
    ensures EntryKeys(ms[i], read).Some?
    ensures Registered(SetEntries(ms, read, map[]).value, ms[i].key, key) <==>
            PublicKey(key.kid, key.pair) in EntryKeys(ms[i], read).value
  {
    RegistryHolds(ms, read, map[], i);
    var keys := EntryKeys(ms[i], read).value;
    if PublicKey(key.kid, key.pair) in keys {
      var j :| 0 <= j < |keys| && keys[j] == PublicKey(key.kid, key.pair);
      DistinctKeysAreFound(keys, j);
    }
  }

  lemma SignedWithout(parts: JwsParts, c: Claims, kid: Text, v: VerifyInput, padded: Text, suite: Suite)
    requires c.iss != padded
    ensures CheckSigned(parts, c, kid, v, suite) == CheckSigned(parts, c, kid, v.(registry := v.registry - {padded}), suite)
  {
    var u := v.(registry := v.registry - {padded});
    assert CheckScope(c, u) == CheckScope(c, v);
    assert CheckClaims(c, kid, u) == CheckClaims(c, kid, v);
  }

  lemma PartsWithout(parts: JwsParts, v: VerifyInput, padded: Text, schema: Schema, suite: Suite)
    requires !Trimmed(padded)
    ensures CheckParts(parts, v, schema, suite) == CheckParts(parts, v.(registry := v.registry - {padded}), schema, suite)
  {
    if SafeParse(parts.payload, schema).Some? && Get(parts.header, KID).Str? {
      var c := SafeParse(parts.payload, schema).value;
      assert Identifier(Str(c.iss)) == Some(c.iss);
      SignedWithout(parts, c, Get(parts.header, KID).text, v, padded, suite);
    }
  }

  /**
   The registry accepts a principal id with surrounding spaces and keeps it as written, while the issuer of a
   grant is trimmed: no grant is verified or refused differently for such an entry.
   */
  lemma PaddedPrincipalIsUnreachable(v: VerifyInput, padded: Text, schema: Schema, suite: Suite)
    requires !Trimmed(padded)
    ensures Verify(v, schema, suite) == Verify(v.(registry := v.registry - {padded}), schema, suite)
  {
    if DecodeCompactJws(v.token).Some? {
      PartsWithout(DecodeCompactJws(v.token).value, v, padded, schema, suite);
    }
  }
}
