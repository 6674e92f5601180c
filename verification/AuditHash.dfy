/**
 The audit hash chain: the two preimage formats, the chain hash, and the verifier
 that walks a log. SHA-256 and the RFC 3339 rendering are parameters; nothing is
 assumed of SHA-256 beyond its output being 64 hexadecimal digits, and theorems that
 need collision freedom ask for it only on the texts the verifier itself hashes.
 */
module AuditHash {
  import opened JsonText

  /** Times are nanoseconds since Go's zero time (January 1, year 1, UTC). */
  datatype Entry = Entry(
    id: string, seqNo: int, eventTime: int, userID: string, action: string, resourceType: string,
    resourceID: string, eventType: string, status: string, ipAddress: string, userAgent: string,
    regionCode: string, metadata: string, hashPrev: string)

  datatype Env = Env(sha: string -> string, rfc3339: int -> string) {
    /** The digest is 64 hex digits, and the time text tells microseconds apart. */
    ghost predicate Valid() {
      && (forall p :: IsDigest(sha(p)))
      && (forall s: int, t: int :: rfc3339(TruncMicro(s)) == rfc3339(TruncMicro(t)) ==> TruncMicro(s) == TruncMicro(t))
    }
  }

  predicate IsDigest(h: string) {
    |h| == 64 && forall i :: 0 <= i < 64 ==> h[i] in HEX
  }

  /** What VerifyChain can hold in prevHash: nothing yet, or a digest. */
  predicate IsPrev(h: string) {
    h == "" || IsDigest(h)
  }

  function TruncMicro(t: int): int {
    t - t % 1000
  }

  function CanonicalTime(env: Env, t: int): string {
    env.rfc3339(TruncMicro(t))
  }

  const KEYS: seq<string> :=
    ["prev", "t", "uid", "act", "rtype", "rid", "etype", "status", "ip", "ua", "region", "meta"]

  function HashedFields(env: Env, e: Entry, prev: string): (s: seq<string>)
    ensures |s| == |KEYS|
  {
    [prev, CanonicalTime(env, e.eventTime), e.userID, e.action, e.resourceType, e.resourceID,
     e.eventType, e.status, e.ipAddress, e.userAgent, e.regionCode, e.metadata]
  }

  function PreimageV2(env: Env, e: Entry, prev: string): string {
    "{\"v\":2" + (Members(KEYS, HashedFields(env, e, prev)) + "}")
  }

  /** The six fields that a v1 hash covers. */
  function V1Fields(e: Entry): (s: seq<string>)
    ensures |s| == 6
  {
    [e.userID, e.action, e.resourceType, e.resourceID, e.eventType, e.status]
  }

  /** Texts in a row, each after a bar. */
  function Barred(texts: seq<string>): string {
    if texts == [] then "" else "|" + (texts[0] + Barred(texts[1..]))
  }

  function PreimageV1(e: Entry, prev: string): string {
    prev + Barred(V1Fields(e))
  }

  function ComputeHash(env: Env, e: Entry, prev: string): string {
    env.sha(PreimageV2(env, e, prev))
  }

  function ComputeHashV1(env: Env, e: Entry, prev: string): string {
    env.sha(PreimageV1(e, prev))
  }

  predicate LinksV2(env: Env, e: Entry, prev: string) {
    e.hashPrev == ComputeHash(env, e, prev)
  }

  predicate LinksV1(env: Env, e: Entry, prev: string) {
    e.hashPrev == ComputeHashV1(env, e, prev)
  }

  predicate Links(env: Env, e: Entry, prev: string) {
    LinksV2(env, e, prev) || LinksV1(env, e, prev)
  }

  /** The hash stored by the entry before index i. */
  function PrevHash(entries: seq<Entry>, i: nat): string
    requires i <= |entries|
  {
    if i == 0 then "" else entries[i - 1].hashPrev
  }

  /** The last stored hash of a chain, "" for the empty chain: what the state row keeps. */
  function Head(entries: seq<Entry>): string {
    PrevHash(entries, |entries|)
  }

  predicate LinkedAt(env: Env, entries: seq<Entry>, i: nat)
    requires i < |entries|
  {
    Links(env, entries[i], PrevHash(entries, i))
  }

  ghost predicate Verified(env: Env, entries: seq<Entry>) {
    forall i :: 0 <= i < |entries| ==> LinkedAt(env, entries, i)
  }

  method VerifyChain(env: Env, entries: seq<Entry>) returns (ok: bool, broken: int)
    ensures ok <==> Verified(env, entries)
    ensures ok ==> broken == -1
    ensures !ok ==> 0 <= broken < |entries| && !LinkedAt(env, entries, broken)
    ensures !ok ==> forall j :: 0 <= j < broken ==> LinkedAt(env, entries, j)
  {
    var prevHash := "";
    for i := 0 to |entries|
      invariant prevHash == PrevHash(entries, i)
      invariant forall j :: 0 <= j < i ==> LinkedAt(env, entries, j)
    {
      var expected := ComputeHash(env, entries[i], prevHash);
      if entries[i].hashPrev == expected {
        prevHash := expected;
      } else if entries[i].hashPrev == ComputeHashV1(env, entries[i], prevHash) {
        prevHash := entries[i].hashPrev;
      } else {
        assert !LinkedAt(env, entries, i);
        return false, i;
      }
    }
    return true, -1;
  }

  /** Equality of every field a v2 hash covers, the previous hash aside. */
  predicate SameRecord(e: Entry, f: Entry) {
    && TruncMicro(e.eventTime) == TruncMicro(f.eventTime)
    && e.userID == f.userID && e.action == f.action
    && e.resourceType == f.resourceType && e.resourceID == f.resourceID
    && e.eventType == f.eventType && e.status == f.status
    && e.ipAddress == f.ipAddress && e.userAgent == f.userAgent
    && e.regionCode == f.regionCode && e.metadata == f.metadata
  }

  /** No two of the given texts share a digest. */
  ghost predicate CollisionFree(env: Env, texts: set<string>) {
    forall p, q :: p in texts && q in texts && env.sha(p) == env.sha(q) ==> p == q
  }

  /** The texts hashed when entry e is checked after prev. */
  ghost function InputsAt(env: Env, e: Entry, prev: string): set<string> {
    {PreimageV1(e, prev), PreimageV2(env, e, prev)}
  }

  /** Every text VerifyChain can hash on a chain. */
  ghost function HashInputs(env: Env, entries: seq<Entry>): set<string> {
    set i, p | 0 <= i < |entries| && p in InputsAt(env, entries[i], PrevHash(entries, i)) :: p
  }

  /** The v2 preimage determines the previous hash and all eleven remaining hashed fields. */
  lemma PreimageV2Injective(env: Env, e: Entry, prev: string, f: Entry, prev': string)
    requires env.Valid() && PreimageV2(env, e, prev) == PreimageV2(env, f, prev')
    ensures prev == prev' && SameRecord(e, f)
  {
    var xs, ys := HashedFields(env, e, prev), HashedFields(env, f, prev');
    MembersRoundTrip(KEYS, xs, "}");
    MembersRoundTrip(KEYS, ys, "}");
    SplitPrefix("{\"v\":2", Members(KEYS, xs) + "}");
    SplitPrefix("{\"v\":2", Members(KEYS, ys) + "}");
    assert xs == ys;
    assert forall i :: 0 <= i < |xs| ==> xs[i] == ys[i];
    assert xs[1] == ys[1];
    assert xs[2] == ys[2] && xs[3] == ys[3] && xs[4] == ys[4] && xs[5] == ys[5] && xs[6] == ys[6];
    assert xs[7] == ys[7] && xs[8] == ys[8] && xs[9] == ys[9] && xs[10] == ys[10] && xs[11] == ys[11];
  }

  /** A v1 text opens with '|' after no previous hash, and with a hex digit after a digest. */
  lemma PreimageV1Start(e: Entry, prev: string)
    requires IsPrev(prev)
    ensures PreimageV1(e, prev) != []
    ensures PreimageV1(e, prev)[0] in (if prev == "" then "|" else HEX)
  {
    assert Barred(V1Fields(e))[0] == '|';
    if prev != "" {
      assert PreimageV1(e, prev)[0] == prev[0];
    }
  }

  /** The two formats never produce the same text: a v2 text opens with '{'. */
  lemma PreimagesApart(env: Env, e: Entry, prev: string, f: Entry, prev': string)
    requires IsPrev(prev)
    ensures PreimageV1(e, prev) != PreimageV2(env, f, prev')
  {
    assert PreimageV2(env, f, prev')[0] == '{';
    PreimageV1Start(e, prev);
  }

  /** A v1 text still determines the previous hash, because a digest has no '|' and a fixed length. */
  lemma PreimageV1FixesPrev(e: Entry, prev: string, f: Entry, prev': string)
    requires IsPrev(prev) && IsPrev(prev') && PreimageV1(e, prev) == PreimageV1(f, prev')
    ensures prev == prev'
  {
    PreimageV1Start(e, prev);
    PreimageV1Start(f, prev');
    if prev != "" && prev' != "" {
      assert PreimageV1(e, prev)[..64] == prev;
      assert PreimageV1(f, prev')[..64] == prev';
    }
  }

  /** A member of the preimage object, as text. */
  function MemberText(key: string, value: string): string {
    ",\"" + key + "\":\"" + EscapeString(value) + "\""
  }

  function MemberTexts(keys: seq<string>, values: seq<string>): string
    requires |keys| == |values|
  {
    if keys == [] then "" else MemberText(keys[0], values[0]) + MemberTexts(keys[1..], values[1..])
  }

  lemma {:induction false} MembersAreTexts(keys: seq<string>, values: seq<string>)
    requires |keys| == |values|
    ensures Members(keys, values) == MemberTexts(keys, values)
  {
    if keys != [] {
      MembersAreTexts(keys[1..], values[1..]);
      var rest := Members(keys[1..], values[1..]);
      assert Intro(keys[0]) + (EscapeString(values[0]) + "\"" + rest) == (Intro(keys[0]) + (EscapeString(values[0]) + "\"")) + rest;
      assert MemberText(keys[0], values[0]) == Intro(keys[0]) + (EscapeString(values[0]) + "\"");
    }
  }

  /** The v2 text, written out: which value stands under which key, and in which order. */
  lemma PreimageV2Text(env: Env, e: Entry, prev: string)
    ensures PreimageV2(env, e, prev) == "{\"v\":2" + (MemberTexts(
      ["prev", "t", "uid", "act", "rtype", "rid", "etype", "status", "ip", "ua", "region", "meta"],
      [prev, env.rfc3339(e.eventTime - e.eventTime % 1000), e.userID, e.action, e.resourceType, e.resourceID,
       e.eventType, e.status, e.ipAddress, e.userAgent, e.regionCode, e.metadata]) + "}")
  {
    MembersAreTexts(KEYS, HashedFields(env, e, prev));
  }

  lemma BarredCons(x: string, rest: seq<string>)
    ensures Barred([x] + rest) == "|" + (x + Barred(rest))
  {
    assert ([x] + rest)[1..] == rest;
  }

  /** The v1 text, written out. */
  lemma PreimageV1Text(e: Entry, prev: string)
    ensures PreimageV1(e, prev) ==
      prev + ("|" + (e.userID + ("|" + (e.action + ("|" + (e.resourceType + ("|" + (e.resourceID + ("|" + (e.eventType + ("|" + (e.status + ""))))))))))))
  {
    BarredCons(e.status, []);
    BarredCons(e.eventType, [e.status]);
    BarredCons(e.resourceID, [e.eventType, e.status]);
    BarredCons(e.resourceType, [e.resourceID, e.eventType, e.status]);
    BarredCons(e.action, [e.resourceType, e.resourceID, e.eventType, e.status]);
    BarredCons(e.userID, [e.action, e.resourceType, e.resourceID, e.eventType, e.status]);
    assert [e.status] + [] == [e.status] && [e.eventType] + [e.status] == [e.eventType, e.status];
    assert [e.resourceID] + [e.eventType, e.status] == [e.resourceID, e.eventType, e.status];
    assert [e.resourceType] + [e.resourceID, e.eventType, e.status] == [e.resourceType, e.resourceID, e.eventType, e.status];
    assert [e.action] + [e.resourceType, e.resourceID, e.eventType, e.status]
        == [e.action, e.resourceType, e.resourceID, e.eventType, e.status];
    assert [e.userID] + [e.action, e.resourceType, e.resourceID, e.eventType, e.status] == V1Fields(e);
  }

  // ---- What a v1 text determines ----------------------------------------------------

  predicate NoBars(texts: seq<string>) {
    forall i :: 0 <= i < |texts| ==> '|' !in texts[i]
  }

  /** Texts without a bar are cut at every bar: any other texts in the same row are fewer, or the same. */
  lemma {:induction false} CutAtBars(a: seq<string>, b: seq<string>)
    requires NoBars(a) && Barred(a) == Barred(b)
    ensures |b| <= |a| && (|b| == |a| ==> b == a)
    decreases |a|
  {
    if a != [] && b != [] {
      assert Barred(a)[1..] == a[0] + Barred(a[1..]) && Barred(b)[1..] == b[0] + Barred(b[1..]);
      var rest := FirstCut(a[0], Barred(a[1..]), b[0], Barred(b[1..]));
      if |a[0]| == |b[0]| {
        CutAtBars(a[1..], b[1..]);
        assert a == [a[0]] + a[1..] && b == [b[0]] + b[1..];
      } else {
        assert ([rest] + b[1..])[1..] == b[1..];
        CutAtBars(a[1..], [rest] + b[1..]);
      }
    }
  }

  /** Of two first texts before the same row, the one without a bar ends where the other does, or at its first bar. */
  lemma FirstCut(x: string, xs: string, y: string, ys: string) returns (rest: string)
    requires x + xs == y + ys && '|' !in x && (xs == "" || xs[0] == '|') && (ys == "" || ys[0] == '|')
    ensures |x| == |y| ==> x == y && xs == ys
    ensures |x| != |y| ==> xs == "|" + rest + ys
  {
    assert (x + xs)[..|x|] == x && (x + xs)[|x|..] == xs;
    assert (y + ys)[..|y|] == y && (y + ys)[|y|..] == ys;
    rest := "";
    if |x| > |y| {
      assert false;
    } else if |x| < |y| {
      assert xs[0] == y[|x|];
      rest := y[|x| + 1..];
      assert xs == y[|x|..] + ys;
      assert y[|x|..] == "|" + rest;
    }
  }

  lemma {:induction false} BarredJoins(a: seq<string>, b: seq<string>)
    ensures Barred(a + b) == Barred(a) + Barred(b)
  {
    if a == [] {
      assert a + b == b;
    } else {
      assert (a + b)[1..] == a[1..] + b;
      BarredJoins(a[1..], b);
    }
  }

  lemma BarredPair(x: string, y: string)
    ensures Barred([x, y]) == "|" + (x + ("|" + y))
  {
    assert [x, y][1..] == [y] && [y][1..] == [];
    assert Barred([y]) == "|" + (y + "");
    assert y + "" == y;
  }

  /** A bar inside one of two neighbours can as well stand between them. */
  lemma BarMovesHere(x: string, y: string, z: string)
    ensures Barred([x + "|" + y, z]) == Barred([x, y + "|" + z])
  {
    BarredPair(x + "|" + y, z);
    BarredPair(x, y + "|" + z);
    assert (x + "|" + y) + ("|" + z) == x + ("|" + (y + "|" + z));
  }

  lemma BarMoves(before: seq<string>, x: string, y: string, z: string, after: seq<string>)
    ensures Barred(before + [x + "|" + y, z] + after) == Barred(before + [x, y + "|" + z] + after)
  {
    BarMovesHere(x, y, z);
    Replaced(before, [x + "|" + y, z], [x, y + "|" + z], after);
  }

  lemma Replaced(before: seq<string>, a: seq<string>, b: seq<string>, after: seq<string>)
    requires Barred(a) == Barred(b)
    ensures Barred(before + a + after) == Barred(before + b + after)
  {
    BarredJoins(before + a, after);
    BarredJoins(before, a);
    BarredJoins(before + b, after);
    BarredJoins(before, b);
  }

  /** Of at least two texts one of which holds a bar, another cut makes the same row. */
  lemma OtherCut(texts: seq<string>, i: nat) returns (other: seq<string>)
    requires i < |texts| && |texts| >= 2 && '|' in texts[i]
    ensures |other| == |texts| && other != texts && Barred(other) == Barred(texts)
  {
    var k :| 0 <= k < |texts[i]| && texts[i][k] == '|';
    var x, y := texts[i][..k], texts[i][k + 1..];
    assert texts[i] == x + "|" + y;
    if i + 1 < |texts| {
      var z := texts[i + 1];
      other := texts[..i] + [x, y + "|" + z] + texts[i + 2..];
      assert texts == texts[..i] + [x + "|" + y, z] + texts[i + 2..];
      BarMoves(texts[..i], x, y, z, texts[i + 2..]);
      assert other[i] == x;
    } else {
      var w := texts[i - 1];
      other := texts[..i - 1] + [w + "|" + x, y] + [];
      assert texts == texts[..i - 1] + [w, x + "|" + y] + [];
      BarMoves(texts[..i - 1], w, x, y, []);
      assert w + "|" + (x + "|" + y) == (w + "|" + x) + "|" + y;
      assert other[i] == y;
    }
  }

  lemma SameV1Text(e: Entry, prev: string, f: Entry, prev': string)
    requires IsPrev(prev) && IsPrev(prev')
    ensures PreimageV1(e, prev) == PreimageV1(f, prev') <==> prev == prev' && Barred(V1Fields(e)) == Barred(V1Fields(f))
  {
    if PreimageV1(e, prev) == PreimageV1(f, prev') {
      PreimageV1FixesPrev(e, prev, f, prev');
      assert PreimageV1(e, prev)[|prev|..] == Barred(V1Fields(e));
      assert PreimageV1(f, prev')[|prev|..] == Barred(V1Fields(f));
    }
  }

  /** Whoever makes the text of e after prev has its previous hash and its six fields. */
  ghost predicate V1Determines(e: Entry, prev: string) {
    forall f, prev' :: IsPrev(prev') && PreimageV1(f, prev') == PreimageV1(e, prev) ==> prev' == prev && V1Fields(f) == V1Fields(e)
  }

  /** The v1 text determines the previous hash and the six fields it covers exactly when none of the six holds a bar. */
  lemma PreimageV1DeterminesIff(e: Entry, prev: string)
    requires IsPrev(prev)
    ensures V1Determines(e, prev) <==> NoBars(V1Fields(e))
  {
    if NoBars(V1Fields(e)) {
      forall f, prev' | IsPrev(prev') && PreimageV1(f, prev') == PreimageV1(e, prev)
        ensures prev' == prev && V1Fields(f) == V1Fields(e)
      {
        SameV1Text(e, prev, f, prev');
        CutAtBars(V1Fields(e), V1Fields(f));
      }
    } else {
      var i :| 0 <= i < 6 && '|' in V1Fields(e)[i];
      var c := OtherCut(V1Fields(e), i);
      var f := e.(userID := c[0], action := c[1], resourceType := c[2], resourceID := c[3], eventType := c[4], status := c[5]);
      assert V1Fields(f) == c;
      SameV1Text(e, prev, f, prev);
    }
  }

  // ---- Verified chains ----------------------------------------------------------------

  /** Along a verified chain the previous hash is "" at the start and a digest everywhere else. */
  lemma PrevIsDigest(env: Env, entries: seq<Entry>, i: nat)
    requires env.Valid() && Verified(env, entries) && i <= |entries|
    ensures if i == 0 then PrevHash(entries, i) == "" else IsDigest(PrevHash(entries, i))
  {
    if i > 0 { assert LinkedAt(env, entries, i - 1); }
  }

  /** Both entries verify after prev, under the same scheme, with the same hashed text, and so with the same hashed fields: under v1, if they hold no bar. */
  ghost predicate SameLink(env: Env, e: Entry, f: Entry, prev: string) {
    && e.hashPrev == f.hashPrev
    && (LinksV2(env, e, prev) ==> LinksV2(env, f, prev) && SameRecord(e, f))
    && (LinksV1(env, e, prev) ==>
          LinksV1(env, f, prev) && PreimageV1(e, prev) == PreimageV1(f, prev) && (NoBars(V1Fields(e)) ==> V1Fields(f) == V1Fields(e)))
  }

  ghost predicate AgreeAt(env: Env, a: seq<Entry>, b: seq<Entry>, i: nat)
    requires i < |a| && i < |b|
  {
    PrevHash(a, i) == PrevHash(b, i) && SameLink(env, a[i], b[i], PrevHash(a, i))
  }

  /** Two entries that both link and store the same hash were hashed over the same text. */
  lemma LinkAgrees(env: Env, e: Entry, prev: string, f: Entry, prev': string)
    requires env.Valid() && IsPrev(prev) && IsPrev(prev')
    requires Links(env, e, prev) && Links(env, f, prev') && e.hashPrev == f.hashPrev
    requires CollisionFree(env, InputsAt(env, e, prev) + InputsAt(env, f, prev'))
    ensures prev == prev' && SameLink(env, e, f, prev)
  {
    PreimagesApart(env, e, prev, f, prev');
    PreimagesApart(env, e, prev, e, prev);
    PreimagesApart(env, f, prev', e, prev);
    PreimagesApart(env, f, prev', f, prev');
    if LinksV2(env, e, prev) {
      assert PreimageV2(env, e, prev) == PreimageV2(env, f, prev');
      PreimageV2Injective(env, e, prev, f, prev');
    } else {
      assert PreimageV1(e, prev) == PreimageV1(f, prev');
      PreimageV1FixesPrev(e, prev, f, prev');
      PreimageV1DeterminesIff(e, prev);
    }
  }

  lemma EntryInputsCollisionFree(env: Env, a: seq<Entry>, i: nat, b: seq<Entry>, j: nat)
    requires i < |a| && j < |b| && CollisionFree(env, HashInputs(env, a) + HashInputs(env, b))
    ensures CollisionFree(env, InputsAt(env, a[i], PrevHash(a, i)) + InputsAt(env, b[j], PrevHash(b, j)))
  {
    assert InputsAt(env, a[i], PrevHash(a, i)) <= HashInputs(env, a);
    assert InputsAt(env, b[j], PrevHash(b, j)) <= HashInputs(env, b);
  }

  /** The last entries of two verified chains with the same head are the same link, after the same hash. */
  lemma LastEntriesAgree(env: Env, a: seq<Entry>, n: nat, b: seq<Entry>, m: nat)
    requires env.Valid() && Verified(env, a) && Verified(env, b) && |a| == n + 1 && |b| == m + 1 && Head(a) == Head(b)
    requires CollisionFree(env, HashInputs(env, a) + HashInputs(env, b))
    ensures PrevHash(a, n) == PrevHash(b, m) && SameLink(env, a[n], b[m], PrevHash(a, n))
  {
    PrevIsDigest(env, a, n);
    PrevIsDigest(env, b, m);
    EntryInputsCollisionFree(env, a, n, b, m);
    assert LinkedAt(env, a, n) && LinkedAt(env, b, m);
    LinkAgrees(env, a[n], PrevHash(a, n), b[m], PrevHash(b, m));
  }

  lemma AgreementLifts(env: Env, a: seq<Entry>, b: seq<Entry>, n: nat, i: nat)
    requires i < n <= |a| && n <= |b| && AgreeAt(env, a[..n], b[..n], i)
    ensures AgreeAt(env, a, b, i)
  {
  }

  /** The same length, the same stored hashes, the same scheme at every index, and the same hashed text at every index: all twelve fields where it is v2, all six where it is v1 and they hold no bar. */
  ghost predicate SameChain(env: Env, a: seq<Entry>, b: seq<Entry>) {
    |a| == |b| && forall i :: 0 <= i < |a| ==> AgreeAt(env, a, b, i)
  }

  lemma SameChainExtends(env: Env, a: seq<Entry>, b: seq<Entry>, n: nat, m: nat)
    requires |a| == n + 1 && |b| == m + 1 && SameChain(env, a[..n], b[..m])
    requires PrevHash(a, n) == PrevHash(b, m) && SameLink(env, a[n], b[m], PrevHash(a, n))
    ensures SameChain(env, a, b)
  {
    forall i | 0 <= i < n ensures AgreeAt(env, a, b, i) {
      AgreementLifts(env, a, b, n, i);
    }
  }

  lemma EmptyTogether(env: Env, a: seq<Entry>, b: seq<Entry>)
    requires env.Valid() && Verified(env, a) && Verified(env, b) && Head(a) == Head(b)
    ensures a == [] <==> b == []
  {
    PrevIsDigest(env, a, |a|);
    PrevIsDigest(env, b, |b|);
  }

  /**
   The head hash determines the whole log: two verified chains with the same last hash,
   whatever their lengths, are the same chain.
   */
  lemma {:induction false} HeadDeterminesChain(env: Env, a: seq<Entry>, b: seq<Entry>)
    requires env.Valid() && Verified(env, a) && Verified(env, b) && Head(a) == Head(b)
    requires CollisionFree(env, HashInputs(env, a) + HashInputs(env, b))
    ensures SameChain(env, a, b)
    decreases |a|
  {
    EmptyTogether(env, a, b);
    if a != [] {
      var n, m := |a| - 1, |b| - 1;
      LastEntriesAgree(env, a, n, b, m);
      PrefixHypotheses(env, a, n, b, m);
      HeadDeterminesChain(env, a[..n], b[..m]);
      SameChainExtends(env, a, b, n, m);
    }
  }

  lemma PrefixHypotheses(env: Env, a: seq<Entry>, n: nat, b: seq<Entry>, m: nat)
    requires n < |a| && m < |b| && Verified(env, a) && Verified(env, b) && PrevHash(a, n) == PrevHash(b, m)
    requires CollisionFree(env, HashInputs(env, a) + HashInputs(env, b))
    ensures Verified(env, a[..n]) && Verified(env, b[..m]) && Head(a[..n]) == Head(b[..m])
    ensures CollisionFree(env, HashInputs(env, a[..n]) + HashInputs(env, b[..m]))
  {
    PrefixChain(env, a, n);
    PrefixChain(env, b, m);
    assert Head(a[..n]) == PrevHash(a, n) && Head(b[..m]) == PrevHash(b, m);
  }

  lemma PrefixChain(env: Env, entries: seq<Entry>, n: nat)
    requires n <= |entries| && Verified(env, entries)
    ensures Verified(env, entries[..n]) && HashInputs(env, entries[..n]) <= HashInputs(env, entries)
  {
    var p := entries[..n];
    forall i | 0 <= i < n ensures LinkedAt(env, p, i) && PrevHash(p, i) == PrevHash(entries, i) {
      assert LinkedAt(env, entries, i);
    }
  }

  /** The hash of an entry that links covers the same text in another: for v2 the hashed fields, for v1 the six fields up to moved bars. */
  ghost predicate HashedAlike(env: Env, e: Entry, f: Entry, prev: string) {
    if LinksV2(env, e, prev) then SameRecord(e, f) else Barred(V1Fields(e)) == Barred(V1Fields(f))
  }

  /**
   An entry that stands where another stood and keeps its stored hash still links exactly when
   the hashed text is the same; where that entry's was v1 without bars, when none of the six fields changed.
   */
  lemma ReplacedEntryLinks(env: Env, e: Entry, f: Entry, prev: string)
    requires env.Valid() && IsPrev(prev) && Links(env, e, prev) && f.hashPrev == e.hashPrev
    requires CollisionFree(env, InputsAt(env, e, prev) + InputsAt(env, f, prev))
    ensures Links(env, f, prev) <==> HashedAlike(env, e, f, prev)
    ensures !LinksV2(env, e, prev) && NoBars(V1Fields(e)) ==> (Links(env, f, prev) <==> V1Fields(e) == V1Fields(f))
  {
    SameV1Text(e, prev, f, prev);
    if Links(env, f, prev) {
      LinkAgrees(env, e, prev, f, prev);
    }
    if LinksV2(env, e, prev) && SameRecord(e, f) {
      assert HashedFields(env, e, prev) == HashedFields(env, f, prev);
    }
  }

  /**
   Editing one row of a verified log, its stored hash aside, breaks the chain at that row and
   nowhere else, exactly when the edit changes the hashed text: for a v2 row a hashed field.
   */
  lemma TamperingIsLocated(env: Env, a: seq<Entry>, i: nat, b: seq<Entry>)
    requires env.Valid() && Verified(env, a) && i < |a| == |b| && b == a[i := b[i]]
    requires b[i].hashPrev == a[i].hashPrev
    requires CollisionFree(env, HashInputs(env, a) + HashInputs(env, b))
    ensures forall j :: 0 <= j < |b| && j != i ==> LinkedAt(env, b, j)
    ensures LinkedAt(env, b, i) <==> HashedAlike(env, a[i], b[i], PrevHash(a, i))
    ensures !LinksV2(env, a[i], PrevHash(a, i)) && NoBars(V1Fields(a[i])) ==>
      (LinkedAt(env, b, i) <==> V1Fields(a[i]) == V1Fields(b[i]))
  {
    forall j | 0 <= j < |b| && j != i ensures LinkedAt(env, b, j) {
      assert LinkedAt(env, a, j) && PrevHash(b, j) == PrevHash(a, j);
    }
    var prev := PrevHash(a, i);
    PrevIsDigest(env, a, i);
    assert PrevHash(b, i) == prev && LinkedAt(env, a, i);
    EntryInputsCollisionFree(env, a, i, b, i);
    ReplacedEntryLinks(env, a[i], b[i], prev);
  }
}
