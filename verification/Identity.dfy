/** Content-addressed identities and the registry of identifier sets and aliases. */
module Identity {
  import opened Basics

  type Identifiers = map<string, string>

  /** The hash of a byte stream, printed. UTF-8 is injective and writes NUL for `\0` only, so the stream is
      modelled by its characters. */
  type Digest = string -> string

  // ---------------------------------------------------------------- canonical identities

  /** Identifiers without the empty ones. */
  function Clean(ids: Identifiers): Identifiers { map k | k in ids && ids[k] != "" :: ids[k] }

  function Field(k: string, v: string): string { "\0" + k + "=" + v }

  /** What the hash is fed after the type: for every key `\0`, the key, `=` and the value. */
  function Parts(keys: seq<string>, ids: Identifiers): string
    requires forall k :: k in keys ==> k in ids
  {
    if keys == [] then "" else Field(keys[0], ids[keys[0]]) + Parts(keys[1..], ids)
  }

  ghost function Stream(objectType: string, ids: Identifiers): string {
    objectType + Parts(SortedKeys(ids.Keys), ids)
  }

  ghost function CanonicalIdentity(digest: Digest, objectType: string, ids: Identifiers): Result<string> {
    if objectType == "" || Clean(ids) == map[] then Raise("IdentityError")
    else Ok("id:" + digest(Stream(objectType, Clean(ids))))
  }

  lemma {:induction false} PartsSnoc(keys: seq<string>, key: string, ids: Identifiers)
    requires (forall k :: k in keys ==> k in ids) && key in ids
    ensures Parts(keys + [key], ids) == Parts(keys, ids) + Field(key, ids[key])
  {
    if keys == [] {
      assert keys + [key] == [key] && [key][1..] == [];
      assert Parts([], ids) == "";
    } else {
      assert (keys + [key])[1..] == keys[1..] + [key];
      PartsSnoc(keys[1..], key, ids);
    }
  }

  method FeedParts(objectType: string, keys: seq<string>, clean: Identifiers) returns (stream: string)
    requires forall k :: k in keys ==> k in clean
    ensures stream == objectType + Parts(keys, clean)
  {
    hide Field;
    stream := objectType;
    assert Parts(keys[..0], clean) == "";
    for i := 0 to |keys|
      invariant stream == objectType + Parts(keys[..i], clean)
    {
      PartsSnoc(keys[..i], keys[i], clean);
      assert keys[..i + 1] == keys[..i] + [keys[i]];
      stream := stream + Field(keys[i], clean[keys[i]]);
    }
    assert keys[..|keys|] == keys;
  }

  method FeedHash(objectType: string, clean: Identifiers) returns (stream: string)
    ensures stream == Stream(objectType, clean)
  {
    var keys := Sorted(clean.Keys);
    SortedListingUnique(keys, SortedKeys(clean.Keys), clean.Keys);
    stream := FeedParts(objectType, keys, clean);
  }

  method ComputeIdentity(digest: Digest, objectType: string, ids: Identifiers) returns (r: Result<string>)
    ensures r == CanonicalIdentity(digest, objectType, ids)
  {
    if objectType == "" { return Raise("IdentityError"); }
    var clean := Clean(ids);
    if clean == map[] { return Raise("IdentityError"); }
    var stream := FeedHash(objectType, clean);
    r := Ok("id:" + digest(stream));
  }

  // ---------------------------------------------------------------- injectivity of the stream

  /** No part of the input contains a separator that would make it run into the next part. */
  ghost predicate Separable(objectType: string, ids: Identifiers) {
    && '\0' !in objectType
    && forall k :: k in ids ==> '\0' !in k && '=' !in k && '\0' !in ids[k]
  }

  lemma NothingBefore(c: char, b: string, y: string, x: string)
    requires c !in b && (x == "" || x[0] == c) && x == b + y
    ensures b == ""
  {
    assert b <= x;
  }

  /** Text up to the first separator is recovered from the whole. */
  lemma {:induction false} SplitAtSeparator(c: char, a: string, x: string, b: string, y: string)
    requires c !in a && c !in b && (x == "" || x[0] == c) && (y == "" || y[0] == c)
    requires a + x == b + y
    ensures a == b && x == y
  {
    if a == "" {
      assert a + x == x;
      NothingBefore(c, b, y, x);
    }
    if b == "" {
      assert b + y == y;
      NothingBefore(c, a, x, y);
    }
    if a != "" && b != "" {
      assert (a + x)[0] == a[0] && (b + y)[0] == b[0];
      assert (a + x)[1..] == a[1..] + x && (b + y)[1..] == b[1..] + y;
      SplitAtSeparator(c, a[1..], x, b[1..], y);
      assert a == [a[0]] + a[1..] && b == [b[0]] + b[1..];
    }
  }

  lemma {:induction false} PartsInjective(keysA: seq<string>, a: Identifiers, keysB: seq<string>, b: Identifiers)
    requires (forall k :: k in keysA ==> k in a) && (forall k :: k in keysB ==> k in b)
    requires Separable("", a) && Separable("", b)
    requires Parts(keysA, a) == Parts(keysB, b)
    ensures keysA == keysB && forall k :: k in keysA ==> a[k] == b[k]
  {
    if keysA != [] && keysB != [] {
      var k, l, restA, restB := keysA[0], keysB[0], Parts(keysA[1..], a), Parts(keysB[1..], b);
      var fieldA, fieldB := k + ("=" + a[k]), l + ("=" + b[l]);
      assert Field(k, a[k]) == "\0" + fieldA && Field(l, b[l]) == "\0" + fieldB;
      assert Parts(keysA, a)[1..] == fieldA + restA && Parts(keysB, b)[1..] == fieldB + restB;
      SplitAtSeparator('\0', fieldA, restA, fieldB, restB);
      SplitAtSeparator('=', k, "=" + a[k], l, "=" + b[l]);
      assert ("=" + a[k])[1..] == a[k] && ("=" + b[l])[1..] == b[l];
      PartsInjective(keysA[1..], a, keysB[1..], b);
      assert keysA == [k] + keysA[1..] && keysB == [l] + keysB[1..];
    }
  }

  lemma SameEntries(keys: seq<string>, a: Identifiers, b: Identifiers)
    requires SortedListing(keys, a.Keys) && SortedListing(keys, b.Keys) && forall k :: k in keys ==> k in a && k in b && a[k] == b[k]
    ensures a == b
  {
    assert a.Keys == b.Keys;
  }

  /** With separable input, equal streams mean the same type and the same identifiers, whatever the order
      in which the identifiers were given. */
  lemma StreamInjective(s: string, a: Identifiers, t: string, b: Identifiers)
    requires Separable(s, a) && Separable(t, b)
    ensures Stream(s, a) == Stream(t, b) <==> s == t && a == b
  {
    if Stream(s, a) == Stream(t, b) {
      var keysA, keysB := SortedKeys(a.Keys), SortedKeys(b.Keys);
      SplitAtSeparator('\0', s, Parts(keysA, a), t, Parts(keysB, b));
      PartsInjective(keysA, a, keysB, b);
      SameEntries(keysA, a, b);
    }
  }

  lemma OneKey(k: string, v: string)
    ensures Stream("T", map[k := v]) == "T" + Field(k, v)
  {
    hide Field;
    var m := map[k := v];
    SortedListingUnique(SortedKeys(m.Keys), [k], m.Keys);
    assert [k][1..] == [];
    assert Parts([], m) == "";
  }

  /** A key with `=` in it makes two different identifier sets collide. */
  lemma EqualsInKeyCollides()
    ensures Stream("T", map["a=b" := "c"]) == Stream("T", map["a" := "b=c"])
  {
    OneKey("a=b", "c");
    OneKey("a", "b=c");
    assert Field("a=b", "c") == "\0a=b=c" && Field("a", "b=c") == "\0a=b=c";
  }

  lemma TwoKeys(m: Identifiers, k: string, l: string)
    requires m.Keys == {k, l} && Before(k, l)
    ensures Stream("T", m) == "T" + (Field(k, m[k]) + Field(l, m[l]))
  {
    hide Field;
    SortedListingUnique(SortedKeys(m.Keys), [k, l], m.Keys);
    assert [k, l][1..] == [l] && [l][1..] == [];
    assert Parts([], m) == "";
    assert Parts([l], m) == Field(l, m[l]) + Parts([], m);
  }

  lemma FieldSplits()
    ensures Field("a", "1\0b=2") == Field("a", "1") + Field("b", "2")
  {
    assert Field("a", "1\0b=2") == "\0a=1\0b=2";
    assert Field("a", "1") + Field("b", "2") == "\0a=1\0b=2";
  }

  /** So does a value with NUL in it. */
  lemma NulInValueCollides()
    ensures Stream("T", map["a" := "1\0b=2"]) == Stream("T", map["a" := "1", "b" := "2"])
  {
    OneKey("a", "1\0b=2");
    TwoKeys(map["a" := "1", "b" := "2"], "a", "b");
    FieldSplits();
  }

  // ---------------------------------------------------------------- bindings

  datatype Kind = DIRECT | ALIAS | NEW

  datatype Resolution = Resolution(identity: string, kind: Kind)

  datatype Bindings = Bindings(byKeys: map<set<string>, string>, aliases: map<string, string>)

  function Token(k: string, v: string): string { k + "=" + v }

  /** The tokens of an identifier set; the type is one of them. */
  function KeySet(objectType: string, ids: Identifiers): set<string> {
    {Token("type", objectType)} + set k | k in ids && ids[k] != "" :: Token(k, ids[k])
  }

  function Hits(b: Bindings, keySet: set<string>): set<string> {
    set token | token in keySet && token in b.aliases :: b.aliases[token]
  }

  ghost predicate Only(hits: set<string>, identity: string) { hits == {identity} }

  /** `resolve`: an exact set of identifiers first, then aliases, then a new identity. */
  ghost predicate Resolves(digest: Digest, b: Bindings, objectType: string, ids: Identifiers,
                           r: Result<Resolution>, after: Bindings)
  {
    var keySet := KeySet(objectType, ids);
    var hits := Hits(b, keySet);
    if keySet in b.byKeys then
      r == Ok(Resolution(b.byKeys[keySet], DIRECT)) && after == b
    else if hits != {} then
      if exists identity :: Only(hits, identity) then
        r.Ok? && r.value.kind == ALIAS && Only(hits, r.value.identity)
        && after == b.(byKeys := b.byKeys[keySet := r.value.identity])
      else
        r == Raise("IdentityConflict") && after == b
    else
      var identity := CanonicalIdentity(digest, objectType, ids);
      if identity.Ok? then
        r == Ok(Resolution(identity.value, NEW)) && after == b.(byKeys := b.byKeys[keySet := identity.value])
      else
        r == Raise("IdentityError") && after == b
  }

  /** Nothing known about the set contradicts the identity. */
  ghost predicate Accepts(b: Bindings, keySet: set<string>, identity: string) {
    && (keySet in b.byKeys ==> b.byKeys[keySet] == identity)
    && (forall token :: token in keySet && token in b.aliases ==> b.aliases[token] == identity)
  }

  function Bound(b: Bindings, keySet: set<string>, identity: string): Bindings {
    Bindings(b.byKeys[keySet := identity], b.aliases + map token | token in keySet :: identity)
  }

  class IdentityRegistry {
    const digest: Digest
    var byKeys: map<set<string>, string>
    var aliases: map<string, string>

    constructor (digest: Digest)
      ensures this.digest == digest && Contents() == Bindings(map[], map[])
    {
      this.digest := digest;
      byKeys, aliases := map[], map[];
    }

    function Contents(): Bindings
      reads this
    {
      Bindings(byKeys, aliases)
    }

    method Resolve(objectType: string, ids: Identifiers) returns (r: Result<Resolution>)
      modifies this
      ensures Resolves(digest, old(Contents()), objectType, ids, r, Contents())
    {
      var keySet := KeySet(objectType, ids);
      if keySet in byKeys { return Ok(Resolution(byKeys[keySet], DIRECT)); }
      var hits := Hits(Contents(), keySet);
      if hits != {} {
        var identity :| identity in hits;
        if |hits| > 1 {
          NotOnly(hits);
          return Raise("IdentityConflict");
        }
        SingleHit(hits, identity);
        byKeys := byKeys[keySet := identity];
        return Ok(Resolution(identity, ALIAS));
      }
      var identity := ComputeIdentity(digest, objectType, ids);
      if identity.Raise? { return Raise(identity.error); }
      byKeys := byKeys[keySet := identity.value];
      r := Ok(Resolution(identity.value, NEW));
    }

    /** An alias is refused exactly when something known about it contradicts the identity, and then
        nothing changes. */
    method RegisterAlias(identity: string, objectType: string, alias: Identifiers) returns (r: Result<()>)
      modifies this
      ensures r == if Accepts(old(Contents()), KeySet(objectType, alias), identity) then Ok(()) else Raise("IdentityConflict")
      ensures Contents() == if r.Ok? then Bound(old(Contents()), KeySet(objectType, alias), identity) else old(Contents())
    {
      var keySet := KeySet(objectType, alias);
      var existing := IdentityFor(keySet);
      KnownContradicts(Contents(), keySet, identity);
      if existing.Raise? { return Raise(existing.error); }
      if existing.value.Some? && existing.value.value != identity { return Raise("IdentityConflict"); }
      var free := TokensFree(keySet, identity);
      if !free { return Raise("IdentityConflict"); }
      BindTokens(keySet, identity);
      byKeys := byKeys[keySet := identity];
      r := Ok(());
    }

    method TokensFree(keySet: set<string>, identity: string) returns (free: bool)
      ensures free <==> forall token :: token in keySet && token in aliases ==> aliases[token] == identity
    {
      var todo := keySet;
      while todo != {}
        invariant todo <= keySet
        invariant forall token :: token in keySet - todo && token in aliases ==> aliases[token] == identity
      {
        var token :| token in todo;
        todo := todo - {token};
        if token in aliases && aliases[token] != identity { return false; }
      }
      free := true;
    }

    method BindTokens(keySet: set<string>, identity: string)
      modifies this`aliases
      ensures aliases == old(aliases) + map token | token in keySet :: identity
    {
      var todo := keySet;
      while todo != {}
        invariant todo <= keySet
        invariant aliases == old(aliases) + map token | token in keySet - todo :: identity
      {
        var token :| token in todo;
        todo := todo - {token};
        aliases := aliases[token := identity];
      }
    }

    method IdentityFor(keySet: set<string>) returns (r: Result<Option<string>>)
      ensures keySet in byKeys ==> r == Ok(Some(byKeys[keySet]))
      ensures keySet !in byKeys && Hits(Contents(), keySet) == {} ==> r == Ok(None)
      ensures keySet !in byKeys && Hits(Contents(), keySet) != {} ==>
                (r.Raise? && r.error == "IdentityConflict" && forall i :: !Only(Hits(Contents(), keySet), i))
                || (r.Ok? && r.value.Some? && Only(Hits(Contents(), keySet), r.value.value))
    {
      if keySet in byKeys { return Ok(Some(byKeys[keySet])); }
      var hits := Hits(Contents(), keySet);
      if hits == {} { return Ok(None); }
      var identity :| identity in hits;
      if |hits| > 1 {
        NotOnly(hits);
        return Raise("IdentityConflict");
      }
      SingleHit(hits, identity);
      r := Ok(Some(identity));
    }
  }

  lemma SingleHit(hits: set<string>, identity: string)
    requires |hits| <= 1 && identity in hits
    ensures Only(hits, identity)
  {
    assert |hits - {identity}| == 0;
    assert hits - {identity} == {};
  }

  /** Two different alias identities, or a single other one, contradict `identity`. */
  lemma KnownContradicts(b: Bindings, keySet: set<string>, identity: string)
    ensures Hits(b, keySet) != {} && !Only(Hits(b, keySet), identity) ==> !Accepts(b, keySet, identity)
  {
    if Accepts(b, keySet, identity) {
      assert forall x :: x in Hits(b, keySet) ==> x == identity;
      if Hits(b, keySet) != {} { assert Hits(b, keySet) == {identity}; }
    }
  }

  lemma NotOnly(hits: set<string>)
    requires |hits| > 1
    ensures forall identity :: !Only(hits, identity)
  {}

  // ---------------------------------------------------------------- runs

  /** One completed call: what was asked, and what it returned. */
  datatype Call =
    | Resolved(objectType: string, ids: Identifiers, resolution: Result<Resolution>)
    | Registered(identity: string, objectType: string, ids: Identifiers, outcome: Result<()>)

  ghost predicate Step(digest: Digest, before: Bindings, call: Call, after: Bindings) {
    match call
    case Resolved(objectType, ids, r) => Resolves(digest, before, objectType, ids, r, after)
    case Registered(identity, objectType, ids, r) =>
      && r == (if Accepts(before, KeySet(objectType, ids), identity) then Ok(()) else Raise("IdentityConflict"))
      && after == if r.Ok? then Bound(before, KeySet(objectType, ids), identity) else before
  }

  /** Any number of calls, one after the other; `states[i]` is the registry before call `i`. */
  ghost predicate Run(digest: Digest, states: seq<Bindings>, calls: seq<Call>) {
    && |states| == |calls| + 1
    && forall i :: 0 <= i < |calls| ==> Step(digest, states[i], calls[i], states[i + 1])
  }

  /** Everything the earlier registry knows, the later one knows with the same identity. */
  ghost predicate Extends(earlier: Bindings, later: Bindings) {
    && (forall keySet :: keySet in earlier.byKeys ==> keySet in later.byKeys && later.byKeys[keySet] == earlier.byKeys[keySet])
    && (forall token :: token in earlier.aliases ==> token in later.aliases && later.aliases[token] == earlier.aliases[token])
  }

  lemma ExtendsTransitive(a: Bindings, b: Bindings, c: Bindings)
    requires Extends(a, b) && Extends(b, c)
    ensures Extends(a, c)
  {}

  lemma StepExtends(digest: Digest, before: Bindings, call: Call, after: Bindings)
    requires Step(digest, before, call, after)
    ensures Extends(before, after)
  {
    hide KeySet, CanonicalIdentity, Hits, Only;
  }

  /** A known identifier set or alias token never changes its identity. */
  lemma {:induction false} RunExtends(digest: Digest, states: seq<Bindings>, calls: seq<Call>, i: nat, j: nat)
    requires Run(digest, states, calls) && i <= j < |states|
    ensures Extends(states[i], states[j])
  {
    if i < j {
      hide Step, Extends;
      RunExtends(digest, states, calls, i, j - 1);
      StepExtends(digest, states[j - 1], calls[j - 1], states[j]);
      ExtendsTransitive(states[i], states[j - 1], states[j]);
    }
  }

  /** A call that raises leaves both tables as they were. */
  lemma RaisingChangesNothing(digest: Digest, before: Bindings, call: Call, after: Bindings)
    requires Step(digest, before, call, after)
    requires if call.Resolved? then call.resolution.Raise? else call.outcome.Raise?
    ensures after == before
  {}

  /** The identity a call settled for its identifier set, if it succeeded. */
  ghost function Settled(call: Call): Option<string> {
    match call
    case Resolved(_, _, r) => if r.Ok? then Some(r.value.identity) else None
    case Registered(identity, _, _, r) => if r.Ok? then Some(identity) else None
  }

  lemma SettledIsKnown(digest: Digest, before: Bindings, call: Call, after: Bindings)
    requires Step(digest, before, call, after) && Settled(call).Some?
    ensures KeySet(call.objectType, call.ids) in after.byKeys
    ensures after.byKeys[KeySet(call.objectType, call.ids)] == Settled(call).value
  {
    hide KeySet, Hits, CanonicalIdentity;
  }

  /** A set that was resolved or registered once resolves directly, to the same identity, forever after. */
  lemma OnceSettledAlwaysDirect(digest: Digest, states: seq<Bindings>, calls: seq<Call>, i: nat, j: nat)
    requires Run(digest, states, calls) && i < j < |calls|
    requires Settled(calls[i]).Some? && calls[j].Resolved?
    requires KeySet(calls[j].objectType, calls[j].ids) == KeySet(calls[i].objectType, calls[i].ids)
    ensures calls[j].resolution == Ok(Resolution(Settled(calls[i]).value, DIRECT))
  {
    SettledIsKnown(digest, states[i], calls[i], states[i + 1]);
    RunExtends(digest, states, calls, i + 1, j);
    hide KeySet;
    assert Step(digest, states[j], calls[j], states[j + 1]);
  }

  // ---------------------------------------------------------------- exactly when a set keeps its own identity

  function SetOf(call: Call): set<string> { KeySet(call.objectType, call.ids) }

  predicate RegistersAlias(call: Call) { call.Registered? && call.outcome.Ok? }

  ghost predicate AliasedBefore(calls: seq<Call>, n: nat, token: string)
    requires n <= |calls|
  {
    exists i :: 0 <= i < n && RegistersAlias(calls[i]) && token in SetOf(calls[i])
  }

  ghost predicate SettledBefore(calls: seq<Call>, n: nat, keySet: set<string>)
    requires n <= |calls|
  {
    exists i :: 0 <= i < n && Settled(calls[i]).Some? && SetOf(calls[i]) == keySet
  }

  lemma StepTables(digest: Digest, before: Bindings, call: Call, after: Bindings, token: string, keySet: set<string>)
    requires Step(digest, before, call, after)
    ensures token in after.aliases <==> token in before.aliases || (RegistersAlias(call) && token in SetOf(call))
    ensures keySet in after.byKeys <==> keySet in before.byKeys || (Settled(call).Some? && SetOf(call) == keySet)
  {
    hide KeySet, Hits, CanonicalIdentity, Only, Accepts;
  }

  lemma OneCallMore(calls: seq<Call>, n: nat, token: string, keySet: set<string>)
    requires 0 < n <= |calls|
    ensures AliasedBefore(calls, n, token) <==>
              AliasedBefore(calls, n - 1, token) || (RegistersAlias(calls[n - 1]) && token in SetOf(calls[n - 1]))
    ensures SettledBefore(calls, n, keySet) <==>
              SettledBefore(calls, n - 1, keySet) || (Settled(calls[n - 1]).Some? && SetOf(calls[n - 1]) == keySet)
  {
    hide Settled, SetOf, RegistersAlias;
  }

  /** From an empty registry, the aliased tokens are those of the registered aliases, and the known sets are
      those of the calls that succeeded. */
  lemma {:induction false} TablesAre(digest: Digest, states: seq<Bindings>, calls: seq<Call>, n: nat, token: string, keySet: set<string>)
    requires Run(digest, states, calls) && states[0] == Bindings(map[], map[]) && n <= |calls|
    ensures token in states[n].aliases <==> AliasedBefore(calls, n, token)
    ensures keySet in states[n].byKeys <==> SettledBefore(calls, n, keySet)
  {
    if n > 0 {
      hide Step, Settled, SetOf, RegistersAlias, AliasedBefore, SettledBefore;
      TablesAre(digest, states, calls, n - 1, token, keySet);
      StepTables(digest, states[n - 1], calls[n - 1], states[n], token, keySet);
      OneCallMore(calls, n, token, keySet);
    }
  }

  lemma AliasHits(b: Bindings, keySet: set<string>, token: string)
    ensures token in keySet && token in b.aliases ==> Hits(b, keySet) != {}
  {
    if token in keySet && token in b.aliases { assert b.aliases[token] in Hits(b, keySet); }
  }

  /** "Never a silent merge", exactly: an object with a valid identity of its own gets it when it is first
      resolved if and only if no call settled its set before and no alias registered before, for whatever
      type, shares a token with it. Both can be checked before the call. */
  lemma OwnIdentityExactlyWhen(digest: Digest, states: seq<Bindings>, calls: seq<Call>, j: nat)
    requires Run(digest, states, calls) && states[0] == Bindings(map[], map[]) && j < |calls| && calls[j].Resolved?
    requires CanonicalIdentity(digest, calls[j].objectType, calls[j].ids).Ok?
    ensures calls[j].resolution == Ok(Resolution(CanonicalIdentity(digest, calls[j].objectType, calls[j].ids).value, NEW)) <==>
            && !SettledBefore(calls, j, SetOf(calls[j]))
            && forall i :: 0 <= i < j && RegistersAlias(calls[i]) ==> SetOf(calls[i]) !! SetOf(calls[j])
  {
    hide KeySet, CanonicalIdentity, Settled;
    var b, keySet := states[j], SetOf(calls[j]);
    assert Step(digest, b, calls[j], states[j + 1]);
    TablesAre(digest, states, calls, j, "", keySet);
    forall token ensures token in b.aliases <==> AliasedBefore(calls, j, token) {
      TablesAre(digest, states, calls, j, token, keySet);
    }
    if Hits(b, keySet) != {} {
      var identity :| identity in Hits(b, keySet);
      var token :| token in keySet && token in b.aliases && b.aliases[token] == identity;
      var i :| 0 <= i < j && RegistersAlias(calls[i]) && token in SetOf(calls[i]);
    } else {
      forall i | 0 <= i < j && RegistersAlias(calls[i]) ensures SetOf(calls[i]) !! keySet {
        forall token | token in SetOf(calls[i]) ensures token !in keySet {
          assert AliasedBefore(calls, j, token);
          AliasHits(b, keySet, token);
        }
      }
    }
  }

  /** An alias registered before call `j`, for whatever type, that shares a token with it. */
  ghost predicate Shares(calls: seq<Call>, j: nat, i: nat) {
    i < j < |calls| && RegistersAlias(calls[i]) && !(SetOf(calls[i]) !! SetOf(calls[j]))
  }

  lemma AliasIs(digest: Digest, states: seq<Bindings>, calls: seq<Call>, i: nat, n: nat, token: string)
    requires Run(digest, states, calls) && i < n < |states| && RegistersAlias(calls[i]) && token in SetOf(calls[i])
    ensures Lookup(states[n].aliases, token) == Some(calls[i].identity)
  {
    hide KeySet;
    assert Step(digest, states[i], calls[i], states[i + 1]);
    RunExtends(digest, states, calls, i + 1, n);
  }

  /** What the aliases say of a set: the identities of the registered aliases that share a token with it. */
  lemma HitsAre(digest: Digest, states: seq<Bindings>, calls: seq<Call>, j: nat, identity: string)
    requires Run(digest, states, calls) && states[0] == Bindings(map[], map[]) && j < |calls|
    ensures identity in Hits(states[j], SetOf(calls[j])) <==> exists i: nat :: Shares(calls, j, i) && calls[i].identity == identity
  {
    hide KeySet, SetOf, Step;
    var b, keySet := states[j], SetOf(calls[j]);
    if identity in Hits(b, keySet) {
      var token :| token in keySet && token in b.aliases && b.aliases[token] == identity;
      TablesAre(digest, states, calls, j, token, keySet);
      var i: nat :| i < j && RegistersAlias(calls[i]) && token in SetOf(calls[i]);
      AliasIs(digest, states, calls, i, j, token);
      assert Shares(calls, j, i);
    }
    if i: nat :| Shares(calls, j, i) && calls[i].identity == identity {
      var token :| token in SetOf(calls[i]) && token in keySet;
      AliasIs(digest, states, calls, i, j, token);
    }
  }

  /** Every outcome of a resolution exactly when it is returned, told from the calls before: direct when the set
      was settled, the identity the sharing aliases agree on, a conflict when they do not, and without any a
      new identity, or an error when there is no type or no nonempty identifier. */
  lemma ResolutionExactly(digest: Digest, states: seq<Bindings>, calls: seq<Call>, j: nat)
    requires Run(digest, states, calls) && states[0] == Bindings(map[], map[]) && j < |calls| && calls[j].Resolved?
    ensures var settled := SettledBefore(calls, j, SetOf(calls[j]));
            var r := calls[j].resolution;
            && (settled <==> r.Ok? && r.value.kind == DIRECT)
            && (forall x :: r == Ok(Resolution(x, ALIAS)) <==>
                  && !settled && (exists i: nat :: Shares(calls, j, i))
                  && forall i: nat :: Shares(calls, j, i) ==> calls[i].identity == x)
            && (r == Raise("IdentityConflict") <==>
                  !settled && exists i: nat, k: nat :: Shares(calls, j, i) && Shares(calls, j, k) && calls[i].identity != calls[k].identity)
            && (r == Raise("IdentityError") <==>
                  && !settled && (forall i: nat :: !Shares(calls, j, i))
                  && (calls[j].objectType == "" || forall k :: k in calls[j].ids ==> calls[j].ids[k] == ""))
  {
    var b, keySet := states[j], SetOf(calls[j]);
    assert Step(digest, b, calls[j], states[j + 1]);
    TablesAre(digest, states, calls, j, "", keySet);
    forall x ensures x in Hits(b, keySet) <==> exists i: nat :: Shares(calls, j, i) && calls[i].identity == x { HitsAre(digest, states, calls, j, x); }
    NothingToIdentify(digest, calls[j].objectType, calls[j].ids);
    hide KeySet, Hits, Settled, Shares, CanonicalIdentity, SettledBefore;
    AgreedHits(b, keySet, calls, j);
  }

  lemma NothingToIdentify(digest: Digest, objectType: string, ids: Identifiers)
    ensures CanonicalIdentity(digest, objectType, ids).Raise? <==> objectType == "" || forall k :: k in ids ==> ids[k] == ""
    ensures CanonicalIdentity(digest, objectType, ids).Raise? ==> CanonicalIdentity(digest, objectType, ids).error == "IdentityError"
  {
    if k :| k in ids && ids[k] != "" { assert k in Clean(ids); }
    if Clean(ids) != map[] { var k :| k in Clean(ids); assert ids[k] != ""; }
  }

  lemma AgreedHits(b: Bindings, keySet: set<string>, calls: seq<Call>, j: nat)
    requires j < |calls|
    requires forall x :: x in Hits(b, keySet) <==> exists i: nat :: Shares(calls, j, i) && calls[i].identity == x
    ensures Hits(b, keySet) != {} <==> exists i: nat :: Shares(calls, j, i)
    ensures forall x :: Only(Hits(b, keySet), x) <==>
              (exists i: nat :: Shares(calls, j, i)) && forall i: nat :: Shares(calls, j, i) ==> calls[i].identity == x
    ensures (Hits(b, keySet) != {} && forall x :: !Only(Hits(b, keySet), x)) <==>
              exists i: nat, k: nat :: Shares(calls, j, i) && Shares(calls, j, k) && calls[i].identity != calls[k].identity
  {
    hide SetOf, Hits;
    var hits := Hits(b, keySet);
    if i: nat :| Shares(calls, j, i) { assert calls[i].identity in hits; }
    forall x ensures Only(hits, x) <==>
              (exists i: nat :: Shares(calls, j, i)) && forall i: nat :: Shares(calls, j, i) ==> calls[i].identity == x
    {
      if (exists i: nat :: Shares(calls, j, i)) && forall i: nat :: Shares(calls, j, i) ==> calls[i].identity == x {
        assert forall y :: y in hits ==> y == x;
        assert hits == {x};
      }
      if Only(hits, x) {
        forall i: nat | Shares(calls, j, i) ensures calls[i].identity == x { assert calls[i].identity in hits; }
      }
    }
    if hits != {} && forall x :: !Only(hits, x) {
      var x :| x in hits;
      var i: nat :| Shares(calls, j, i) && calls[i].identity == x;
      assert !Only(hits, x);
    }
  }

  /** Call `i` settled the set of call `j` before. */
  ghost predicate Settles(calls: seq<Call>, j: nat, i: nat) {
    i < j < |calls| && Settled(calls[i]).Some? && SetOf(calls[i]) == SetOf(calls[j])
  }

  /** A registration is refused exactly when an earlier call settled the set for another identity, or an alias
      registered for another identity shares a token with it. */
  lemma RegistrationExactly(digest: Digest, states: seq<Bindings>, calls: seq<Call>, j: nat)
    requires Run(digest, states, calls) && states[0] == Bindings(map[], map[]) && j < |calls| && calls[j].Registered?
    ensures calls[j].outcome.Raise? <==>
            || (exists i: nat :: Settles(calls, j, i) && Settled(calls[i]).value != calls[j].identity)
            || (exists i: nat :: Shares(calls, j, i) && calls[i].identity != calls[j].identity)
    ensures calls[j].outcome.Raise? ==> calls[j].outcome.error == "IdentityConflict"
  {
    RegistrationAccepts(digest, states[j], calls[j], states[j + 1]);
    hide KeySet, Step, Accepts, Hits, Settled;
    SettledOtherwise(digest, states, calls, j, calls[j].identity);
    SharedOtherwise(digest, states, calls, j, calls[j].identity);
    hide Settles, Shares, SetOf;
  }

  lemma SettledOtherwise(digest: Digest, states: seq<Bindings>, calls: seq<Call>, j: nat, identity: string)
    requires Run(digest, states, calls) && states[0] == Bindings(map[], map[]) && j < |calls|
    ensures (SetOf(calls[j]) in states[j].byKeys && states[j].byKeys[SetOf(calls[j])] != identity) <==>
            exists i: nat :: Settles(calls, j, i) && Settled(calls[i]).value != identity
  {
    hide Settled, SetOf, Step;
    var keySet := SetOf(calls[j]);
    TablesAre(digest, states, calls, j, "", keySet);
    if keySet in states[j].byKeys {
      var i: nat :| i < j && Settled(calls[i]).Some? && SetOf(calls[i]) == keySet;
      SettledStays(digest, states, calls, i, j);
      assert Settles(calls, j, i);
    }
    if i: nat :| Settles(calls, j, i) && Settled(calls[i]).value != identity { SettledStays(digest, states, calls, i, j); }
  }

  lemma SharedOtherwise(digest: Digest, states: seq<Bindings>, calls: seq<Call>, j: nat, identity: string)
    requires Run(digest, states, calls) && states[0] == Bindings(map[], map[]) && j < |calls|
    ensures (exists x :: x in Hits(states[j], SetOf(calls[j])) && x != identity) <==>
            exists i: nat :: Shares(calls, j, i) && calls[i].identity != identity
  {
    hide Hits, SetOf, Step;
    if x :| x in Hits(states[j], SetOf(calls[j])) && x != identity { HitsAre(digest, states, calls, j, x); }
    if i: nat :| Shares(calls, j, i) && calls[i].identity != identity { HitsAre(digest, states, calls, j, calls[i].identity); }
  }

  lemma SettledStays(digest: Digest, states: seq<Bindings>, calls: seq<Call>, i: nat, j: nat)
    requires Run(digest, states, calls) && i < j < |states| && Settled(calls[i]).Some?
    ensures Lookup(states[j].byKeys, SetOf(calls[i])) == Settled(calls[i])
  {
    hide KeySet, Step, Settled;
    assert Step(digest, states[i], calls[i], states[i + 1]);
    SettledIsKnown(digest, states[i], calls[i], states[i + 1]);
    RunExtends(digest, states, calls, i + 1, j);
  }

  lemma RegistrationAccepts(digest: Digest, b: Bindings, call: Call, after: Bindings)
    requires call.Registered? && Step(digest, b, call, after)
    ensures call.outcome.Raise? <==>
            || (SetOf(call) in b.byKeys && b.byKeys[SetOf(call)] != call.identity)
            || exists x :: x in Hits(b, SetOf(call)) && x != call.identity
    ensures call.outcome.Raise? ==> call.outcome.error == "IdentityConflict"
  {
    hide KeySet;
    forall token | token in SetOf(call) && token in b.aliases ensures b.aliases[token] in Hits(b, SetOf(call)) {}
  }

  // ---------------------------------------------------------------- what one alias does to its type

  lemma RegisteredTypeToken(digest: Digest, states: seq<Bindings>, calls: seq<Call>, i: nat, j: nat)
    requires Run(digest, states, calls) && i < j < |states|
    requires calls[i].Registered? && calls[i].outcome.Ok?
    ensures Lookup(states[j].aliases, Token("type", calls[i].objectType)) == Some(calls[i].identity)
  {
    assert Step(digest, states[i], calls[i], states[i + 1]);
    assert Token("type", calls[i].objectType) in KeySet(calls[i].objectType, calls[i].ids);
    RunExtends(digest, states, calls, i + 1, j);
  }

  /** Because the type is itself a token of every set, the first alias of a type binds the type: no alias of
      the same type can be registered for any other identity afterwards. */
  lemma OneAliasedIdentityPerType(digest: Digest, states: seq<Bindings>, calls: seq<Call>, i: nat, j: nat)
    requires Run(digest, states, calls) && i < j < |calls|
    requires calls[i].Registered? && calls[i].outcome.Ok?
    requires calls[j].Registered? && calls[j].objectType == calls[i].objectType
    requires calls[j].identity != calls[i].identity
    ensures calls[j].outcome == Raise("IdentityConflict")
  {
    RegisteredTypeToken(digest, states, calls, i, j);
    var token := Token("type", calls[i].objectType);
    assert Step(digest, states[j], calls[j], states[j + 1]);
    assert token in KeySet(calls[j].objectType, calls[j].ids);
  }

  /** And every set of that type that was not known before resolves to the aliased identity, or, if another
      of its tokens is bound elsewhere, not at all; it never gets an identity of its own. */
  lemma AliasCapturesItsType(digest: Digest, states: seq<Bindings>, calls: seq<Call>, i: nat, j: nat)
    requires Run(digest, states, calls) && i < j < |calls|
    requires calls[i].Registered? && calls[i].outcome.Ok?
    requires calls[j].Resolved? && calls[j].objectType == calls[i].objectType
    requires KeySet(calls[j].objectType, calls[j].ids) !in states[j].byKeys
    ensures calls[j].resolution ==
            if Accepts(states[j], KeySet(calls[j].objectType, calls[j].ids), calls[i].identity)
            then Ok(Resolution(calls[i].identity, ALIAS)) else Raise("IdentityConflict")
  {
    RegisteredTypeToken(digest, states, calls, i, j);
    var b, keySet, identity := states[j], KeySet(calls[j].objectType, calls[j].ids), calls[i].identity;
    var token := Token("type", calls[i].objectType);
    assert token in keySet && b.aliases[token] == identity;
    assert identity in Hits(b, keySet);
    assert Step(digest, b, calls[j], states[j + 1]);
    KnownContradicts(b, keySet, identity);
    if Accepts(b, keySet, identity) {
      assert Only(Hits(b, keySet), identity);
    } else {
      var other :| other in keySet && other in b.aliases && b.aliases[other] != identity;
      assert b.aliases[other] in Hits(b, keySet);
    }
  }

  // ---------------------------------------------------------------- without aliases

  /** Every known set is that of some separable input, and has the identity of that input. */
  ghost predicate OwnIdentities(digest: Digest, b: Bindings) {
    && b.aliases == map[]
    && forall keySet :: keySet in b.byKeys ==> exists t, ids :: Owns(digest, b, keySet, t, ids)
  }

  ghost predicate Owns(digest: Digest, b: Bindings, keySet: set<string>, t: string, ids: Identifiers)
    requires keySet in b.byKeys
  {
    && Plain(t, ids) && keySet == KeySet(t, ids)
    && CanonicalIdentity(digest, t, ids) == Ok(b.byKeys[keySet])
  }

  /** Separable input whose identifiers do not pose as the type. */
  ghost predicate Plain(objectType: string, ids: Identifiers) {
    Separable(objectType, Clean(ids)) && "type" !in Clean(ids)
  }

  lemma TokenInjective(k: string, v: string, l: string, w: string)
    requires '=' !in k && '=' !in l && Token(k, v) == Token(l, w)
    ensures k == l && v == w
  {
    assert Token(k, v) == k + ("=" + v) && Token(l, w) == l + ("=" + w);
    SplitAtSeparator('=', k, "=" + v, l, "=" + w);
    assert ("=" + v)[1..] == v && ("=" + w)[1..] == w;
  }

  lemma TypeTokenInjective(s: string, t: string)
    requires Token("type", s) == Token("type", t)
    ensures s == t
  {
    TokenInjective("type", s, "type", t);
  }

  lemma KeySetHolds(s: string, a: Identifiers, t: string, b: Identifiers, k: string)
    requires Plain(s, a) && Plain(t, b) && KeySet(s, a) <= KeySet(t, b) && k in Clean(a)
    ensures k in Clean(b) && b[k] == a[k]
  {
    assert Token(k, a[k]) in KeySet(s, a);
    assert Token(k, a[k]) in KeySet(t, b);
    if Token(k, a[k]) == Token("type", t) {
      TokenInjective(k, a[k], "type", t);
    } else {
      var l :| l in b && b[l] != "" && Token(k, a[k]) == Token(l, b[l]);
      assert l in Clean(b);
      TokenInjective(k, a[k], l, b[l]);
    }
  }

  lemma TypeOfKeySet(s: string, a: Identifiers, t: string, b: Identifiers)
    requires Plain(s, a) && Plain(t, b) && KeySet(s, a) <= KeySet(t, b)
    ensures s == t
  {
    assert Token("type", s) in KeySet(t, b);
    if Token("type", s) == Token("type", t) {
      TypeTokenInjective(s, t);
    } else {
      var l :| l in b && b[l] != "" && Token("type", s) == Token(l, b[l]);
      assert l in Clean(b);
      TokenInjective("type", s, l, b[l]);
    }
  }

  lemma KeySetInjective(s: string, a: Identifiers, t: string, b: Identifiers)
    requires Plain(s, a) && Plain(t, b)
    ensures KeySet(s, a) == KeySet(t, b) <==> s == t && Clean(a) == Clean(b)
  {
    if KeySet(s, a) == KeySet(t, b) {
      TypeOfKeySet(s, a, t, b);
      forall k | k in Clean(a) ensures k in Clean(b) && b[k] == a[k] { KeySetHolds(s, a, t, b, k); }
      forall k | k in Clean(b) ensures k in Clean(a) && b[k] == a[k] { KeySetHolds(t, b, s, a, k); }
      assert Clean(a).Keys == Clean(b).Keys;
    }
    if s == t && Clean(a) == Clean(b) {
      forall token | token in KeySet(s, a) ensures token in KeySet(t, b) { TokenOfClean(s, a, b, token); }
      forall token | token in KeySet(t, b) ensures token in KeySet(s, a) { TokenOfClean(t, b, a, token); }
    }
  }

  lemma TokenOfClean(t: string, a: Identifiers, b: Identifiers, token: string)
    requires Clean(a) == Clean(b) && token in KeySet(t, a)
    ensures token in KeySet(t, b)
  {
    if token != Token("type", t) {
      var k :| k in a && a[k] != "" && token == Token(k, a[k]);
      assert k in Clean(a);
      assert k in Clean(b) && b[k] == a[k];
    }
  }

  lemma PlainResolution(digest: Digest, before: Bindings, t: string, ids: Identifiers, r: Result<Resolution>, after: Bindings)
    requires Resolves(digest, before, t, ids, r, after) && OwnIdentities(digest, before) && Plain(t, ids)
    ensures OwnIdentities(digest, after)
    ensures r.Ok? ==> CanonicalIdentity(digest, t, ids) == Ok(r.value.identity)
  {
    var keySet := KeySet(t, ids);
    assert Hits(before, keySet) == {};
    if keySet in before.byKeys {
      var s, own :| Owns(digest, before, keySet, s, own);
      KeySetInjective(s, own, t, ids);
    } else if r.Ok? {
      assert Owns(digest, after, keySet, t, ids);
      forall other | other in after.byKeys ensures exists s, own :: Owns(digest, after, other, s, own) {
        if other != keySet {
          var s, own :| Owns(digest, before, other, s, own);
          assert Owns(digest, after, other, s, own);
        }
      }
    }
  }

  ghost predicate OnlyPlainResolutions(calls: seq<Call>) {
    forall i :: 0 <= i < |calls| ==> calls[i].Resolved? && Plain(calls[i].objectType, calls[i].ids)
  }

  lemma {:induction false} PlainRun(digest: Digest, states: seq<Bindings>, calls: seq<Call>, j: nat)
    requires Run(digest, states, calls) && j < |states| && states[0] == Bindings(map[], map[])
    requires OnlyPlainResolutions(calls)
    ensures OwnIdentities(digest, states[j])
  {
    if j > 0 {
      PlainRun(digest, states, calls, j - 1);
      hide OwnIdentities;
      var call := calls[j - 1];
      assert Step(digest, states[j - 1], call, states[j]);
      PlainResolution(digest, states[j - 1], call.objectType, call.ids, call.resolution, states[j]);
    }
  }

  lemma SameIdentitySameInput(digest: Digest, s: string, a: Identifiers, t: string, b: Identifiers)
    requires forall x, y :: digest(x) == digest(y) ==> x == y
    requires Plain(s, a) && Plain(t, b)
    requires CanonicalIdentity(digest, s, a).Ok? && CanonicalIdentity(digest, t, b).Ok?
    ensures CanonicalIdentity(digest, s, a) == CanonicalIdentity(digest, t, b) <==> s == t && Clean(a) == Clean(b)
  {
    var x, y := digest(Stream(s, Clean(a))), digest(Stream(t, Clean(b)));
    assert ("id:" + x)[3..] == x && ("id:" + y)[3..] == y;
    StreamInjective(s, Clean(a), t, Clean(b));
  }

  /** A registry that never registers an alias keeps objects apart: two resolved inputs share an identity
      exactly when they have the same type and the same nonempty identifiers. */
  lemma WithoutAliasesIdentitiesAreExact(digest: Digest, states: seq<Bindings>, calls: seq<Call>, i: nat, j: nat)
    requires forall x, y :: digest(x) == digest(y) ==> x == y
    requires Run(digest, states, calls) && states[0] == Bindings(map[], map[]) && OnlyPlainResolutions(calls)
    requires i < |calls| && j < |calls| && calls[i].resolution.Ok? && calls[j].resolution.Ok?
    ensures calls[i].resolution.value.identity == calls[j].resolution.value.identity <==>
            calls[i].objectType == calls[j].objectType && Clean(calls[i].ids) == Clean(calls[j].ids)
  {
    hide OwnIdentities, Plain, CanonicalIdentity, Clean;
    PlainRun(digest, states, calls, i);
    PlainRun(digest, states, calls, j);
    assert Step(digest, states[i], calls[i], states[i + 1]) && Step(digest, states[j], calls[j], states[j + 1]);
    PlainResolution(digest, states[i], calls[i].objectType, calls[i].ids, calls[i].resolution, states[i + 1]);
    PlainResolution(digest, states[j], calls[j].objectType, calls[j].ids, calls[j].resolution, states[j + 1]);
    SameIdentitySameInput(digest, calls[i].objectType, calls[i].ids, calls[j].objectType, calls[j].ids);
  }

  lemma TwoCalls(digest: Digest, a: Bindings, b: Bindings, c: Bindings, first: Call, second: Call)
    requires Step(digest, a, first, b) && Step(digest, b, second, c)
    ensures Run(digest, [a, b, c], [first, second])
  {
    hide Step;
    var states, calls := [a, b, c], [first, second];
    forall i | 0 <= i < |calls| ensures Step(digest, states[i], calls[i], states[i + 1]) {
      if i == 1 { assert states[1] == b; }
    }
  }

  /** With an alias the promise "never a silent merge" fails: one alias for material A, and material B, never
      mentioned before, resolves to the identity of A. */
  lemma AliasMergesStrangers(digest: Digest, own: string) returns (states: seq<Bindings>, calls: seq<Call>)
    ensures Run(digest, states, calls) && states[0] == Bindings(map[], map[])
    ensures calls == [Registered(own, "MaterialInfo", map["material" := "EXT-1"], Ok(())),
                      Resolved("MaterialInfo", map["material" := "B"], Ok(Resolution(own, ALIAS)))]
  {
    var t := "MaterialInfo";
    var extern, stranger := map["material" := "EXT-1"], map["material" := "B"];
    var empty := Bindings(map[], map[]);
    var one := Bound(empty, KeySet(t, extern), own);
    var two := one.(byKeys := one.byKeys[KeySet(t, stranger) := own]);
    var first, second := Registered(own, t, extern, Ok(())), Resolved(t, stranger, Ok(Resolution(own, ALIAS)));
    assert Step(digest, empty, first, one);
    StrangersDiffer(t);
    StrangerMerges(digest, t, own, one, KeySet(t, extern), stranger, Token("type", t));
    TwoCalls(digest, empty, one, two, first, second);
    states, calls := [empty, one, two], [first, second];
  }

  /** The type token is not the only way: an identifier shared across types is enough. One alias of a
      customer by its tax number, and a supplier with that number, never mentioned before and of a type that
      has no alias at all, resolves to the identity of the customer. */
  lemma AliasMergesAcrossTypes(digest: Digest, own: string) returns (states: seq<Bindings>, calls: seq<Call>)
    ensures Run(digest, states, calls) && states[0] == Bindings(map[], map[])
    ensures calls == [Registered(own, "Customer", map["taxId" := "X"], Ok(())),
                      Resolved("Supplier", map["taxId" := "X"], Ok(Resolution(own, ALIAS)))]
  {
    var ids := map["taxId" := "X"];
    var empty := Bindings(map[], map[]);
    var one := Bound(empty, KeySet("Customer", ids), own);
    var two := one.(byKeys := one.byKeys[KeySet("Supplier", ids) := own]);
    var first, second := Registered(own, "Customer", ids, Ok(())), Resolved("Supplier", ids, Ok(Resolution(own, ALIAS)));
    assert Step(digest, empty, first, one);
    assert "taxId" in ids && ids["taxId"] != "";
    var shared := Token("taxId", "X");
    assert shared in KeySet("Customer", ids) && shared in KeySet("Supplier", ids);
    TypesDiffer(ids);
    StrangerMerges(digest, "Supplier", own, one, KeySet("Customer", ids), ids, shared);
    TwoCalls(digest, empty, one, two, first, second);
    states, calls := [empty, one, two], [first, second];
  }

  lemma TypesDiffer(ids: Identifiers)
    requires ids == map["taxId" := "X"]
    ensures KeySet("Customer", ids) != KeySet("Supplier", ids)
  {
    assert Token("type", "Customer") in KeySet("Customer", ids);
    if Token("type", "Customer") == Token("type", "Supplier") { TypeTokenInjective("Customer", "Supplier"); }
    if Token("type", "Customer") == Token("taxId", "X") { TokenInjective("type", "Customer", "taxId", "X"); }
  }

  lemma StrangerMerges(digest: Digest, t: string, own: string, one: Bindings, set1: set<string>, stranger: Identifiers, shared: string)
    requires one == Bound(Bindings(map[], map[]), set1, own) && KeySet(t, stranger) != set1
    requires shared in set1 && shared in KeySet(t, stranger)
    ensures Step(digest, one, Resolved(t, stranger, Ok(Resolution(own, ALIAS))), one.(byKeys := one.byKeys[KeySet(t, stranger) := own]))
  {
    var set2 := KeySet(t, stranger);
    assert shared in one.aliases;
    assert forall token :: token in one.aliases ==> one.aliases[token] == own;
    assert own in Hits(one, set2);
    assert Only(Hits(one, set2), own);
  }

  lemma StrangersDiffer(t: string)
    ensures KeySet(t, map["material" := "EXT-1"]) != KeySet(t, map["material" := "B"])
  {
    var a, b := map["material" := "EXT-1"], map["material" := "B"];
    assert "material" in b && b["material"] != "";
    assert Token("material", "B") in KeySet(t, b);
    if Token("material", "B") == Token("type", t) { TokenInjective("material", "B", "type", t); }
    if Token("material", "B") == Token("material", "EXT-1") { TokenInjective("material", "B", "material", "EXT-1"); }
  }
}
