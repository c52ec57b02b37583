/**
Cluster identity inside a shared repository: the run tag, its two parsers, and whose snapshot is whose.
*/
module RunTag {
  import opened Wrappers
  import opened Text

  const UUID_LEN: nat := 36
  const NAMESPACES_MARK: string := "-ns-"

  // ----- UUIDs (section 3 of RFC 4122) -----

  predicate IsHex(c: char) {
    '0' <= c <= '9' || 'a' <= c <= 'f' || 'A' <= c <= 'F'
  }

  lemma HexIff(c: char)
    ensures IsHex(c) <==> c in "0123456789abcdefABCDEF"
  {
  }

  predicate AllHex(s: string) {
    forall i :: 0 <= i < |s| ==> IsHex(s[i])
  }

  /** The text form by position: hex digits, but for dashes at 8, 13, 18 and 23. */
  predicate IsUuid(s: string) {
    |s| == UUID_LEN &&
    forall i :: 0 <= i < UUID_LEN ==> if i in {8, 13, 18, 23} then s[i] == '-' else IsHex(s[i])
  }

  const UUID_GROUPS: seq<nat> := [8, 4, 4, 4, 12]

  /** The program's own test, group by group, decides exactly the positional form. */
  method CheckUuid(s: string) returns (ok: bool)
    ensures ok <==> IsUuid(s)
  {
    if |s| != UUID_LEN {
      return false;
    }
    var groups := Split(s, '-');
    ghost var full := IsUuid(s);
    if full {
      SplitUuid(s);
    }
    for k := 0 to 5
      invariant k <= |groups|
      invariant forall j :: 0 <= j < k ==> |groups[j]| == UUID_GROUPS[j] && AllHex(groups[j])
    {
      if k >= |groups| {
        return false;
      }
      if |groups[k]| != UUID_GROUPS[k] || !AllHex(groups[k]) {
        return false;
      }
    }
    ok := |groups| == 5;
    if ok {
      JoinSplit(s, '-');
      JoinedGroups(groups);
    }
  }

  lemma SplitUuid(s: string)
    requires IsUuid(s)
    ensures Split(s, '-') == [s[0..8], s[9..13], s[14..18], s[19..23], s[24..36]]
    ensures forall k :: 0 <= k < 5 ==> AllHex(Split(s, '-')[k])
  {
    var a, b, c, d, e := s[0..8], s[9..13], s[14..18], s[19..23], s[24..36];
    assert s[19..] == d + ['-'] + e;
    assert s[14..] == c + ['-'] + s[19..];
    assert s[9..] == b + ['-'] + s[14..];
    assert s == a + ['-'] + s[9..];
    SplitPlain(e, '-');
    SplitHead(d, '-', e);
    SplitHead(c, '-', s[19..]);
    SplitHead(b, '-', s[14..]);
    SplitHead(a, '-', s[9..]);
  }

  lemma JoinedGroups(g: seq<string>)
    requires |g| == 5 && forall j :: 0 <= j < 5 ==> |g[j]| == UUID_GROUPS[j] && AllHex(g[j])
    ensures IsUuid(Join(g, '-'))
  {
    var tail4 := g[4];
    assert g[4..] == [tail4];
    var tail3 := g[3] + ['-'] + tail4;
    assert Join(g[3..], '-') == tail3 by { assert g[3..][1..] == g[4..]; }
    var tail2 := g[2] + ['-'] + tail3;
    assert Join(g[2..], '-') == tail2 by { assert g[2..][1..] == g[3..]; }
    var tail1 := g[1] + ['-'] + tail2;
    assert Join(g[1..], '-') == tail1 by { assert g[1..][1..] == g[2..]; }
    var s := g[0] + ['-'] + tail1;
    assert Join(g, '-') == s;
    assert |s| == UUID_LEN;
    forall i | 0 <= i < UUID_LEN
      ensures if i in {8, 13, 18, 23} then s[i] == '-' else IsHex(s[i])
    {
      if i < 8 { assert s[i] == g[0][i]; }
      else if 8 < i < 13 { assert s[i] == g[1][i - 9]; }
      else if 13 < i < 18 { assert s[i] == g[2][i - 14]; }
      else if 18 < i < 23 { assert s[i] == g[3][i - 19]; }
      else if 23 < i { assert s[i] == g[4][i - 24]; }
    }
  }

  // ----- the tag -----

  function RunTag(uid: string, createdAt: string, namespaces: seq<string>): string {
    var base := uid + "-" + createdAt;
    if namespaces == [] then base else base + NAMESPACES_MARK + Join(namespaces, '_')
  }

  function TagClusterUid(tag: string): Option<string> {
    if |tag| <= UUID_LEN || tag[UUID_LEN] != '-' || !IsUuid(tag[..UUID_LEN]) then None
    else Some(tag[..UUID_LEN])
  }

  /** The tag, written out. */
  lemma TagText(uid: string, time: string, namespaces: seq<string>)
    ensures namespaces == [] ==> RunTag(uid, time, namespaces) == uid + "-" + time
    ensures namespaces != [] ==> RunTag(uid, time, namespaces) == uid + "-" + time + "-ns-" + Join(namespaces, '_')
  {
  }

  /** The text between the identity and the first namespaces mark: what the instant parser is handed. */
  function TagTime(tag: string): Option<string> {
    if TagClusterUid(tag).None? then None
    else
      var rest := tag[UUID_LEN + 1..];
      match FindFrom(rest, NAMESPACES_MARK, 0)
      case None => Some(rest)
      case Some(i) => Some(rest[..i])
  }

  /** The run's start, under any parser of instants. */
  function TagRunStart<Instant>(tag: string, instant: string -> Option<Instant>): Option<Instant> {
    match TagTime(tag)
    case None => None
    case Some(time) => instant(time)
  }

  // ----- times (section 5.6 of RFC 3339) -----

  predicate IsDigit(c: char) { '0' <= c <= '9' }

  predicate DigitsAt(s: string, from: nat, to: nat) {
    to <= |s| && forall i :: from <= i < to ==> IsDigit(s[i])
  }

  /** `Z`, or a numeric offset `+hh:mm`. */
  predicate IsOffset(s: string) {
    s == "Z" || s == "z" ||
    (|s| == 6 && (s[0] == '+' || s[0] == '-') && DigitsAt(s, 1, 3) && s[3] == ':' && DigitsAt(s, 4, 6))
  }

  predicate IsDigitsThenOffset(s: string) {
    IsOffset(s) || (|s| > 0 && IsDigit(s[0]) && IsDigitsThenOffset(s[1..]))
  }

  predicate IsRfc3339(t: string) {
    && |t| >= 20
    && DigitsAt(t, 0, 4) && t[4] == '-' && DigitsAt(t, 5, 7) && t[7] == '-' && DigitsAt(t, 8, 10)
    && (t[10] == 'T' || t[10] == 't')
    && DigitsAt(t, 11, 13) && t[13] == ':' && DigitsAt(t, 14, 16) && t[16] == ':' && DigitsAt(t, 17, 19)
    && (IsOffset(t[19..]) || (|t| > 20 && t[19] == '.' && IsDigit(t[20]) && IsDigitsThenOffset(t[21..])))
  }

  /** Date and time of day, from their fourteen digits. */
  function Stamp(d: string): (t: string)
    requires |d| == 14
    ensures |t| == 19
  {
    [d[0], d[1], d[2], d[3], '-', d[4], d[5], '-', d[6], d[7], 'T',
     d[8], d[9], ':', d[10], d[11], ':', d[12], d[13]]
  }

  lemma StampedIsTime(d: string, tail: string)
    requires |d| == 14 && AllDigits(d)
    requires IsOffset(tail) || (|tail| > 1 && tail[0] == '.' && IsDigit(tail[1]) && IsDigitsThenOffset(tail[2..]))
    ensures IsRfc3339(Stamp(d) + tail)
  {
    var t := Stamp(d) + tail;
    assert t[19..] == tail;
    assert |tail| > 1 ==> t[21..] == tail[2..];
    assert forall i :: 0 <= i < 19 ==> t[i] == Stamp(d)[i];
  }

  /** The two forms the program writes: whole seconds in UTC, and a fraction with a numeric offset. */
  lemma TimesAreTimes(d: string, f: string, o: string)
    requires |d| == 14 && AllDigits(d) && f != "" && AllDigits(f) && |o| == 4 && AllDigits(o)
    ensures IsRfc3339(Stamp(d) + "Z")
    ensures IsRfc3339(Stamp(d) + ("." + f + ['+', o[0], o[1], ':', o[2], o[3]]))
  {
    StampedIsTime(d, "Z");
    var offset := ['+', o[0], o[1], ':', o[2], o[3]];
    var tail := "." + f + offset;
    assert tail[2..] == f[1..] + offset;
    DigitsThen(f[1..], offset);
    StampedIsTime(d, tail);
  }

  predicate AllDigits(s: string) {
    forall i :: 0 <= i < |s| ==> IsDigit(s[i])
  }

  lemma {:induction false} DigitsThen(f: string, offset: string)
    requires AllDigits(f) && IsOffset(offset)
    ensures IsDigitsThenOffset(f + offset)
  {
    if f == "" {
      assert f + offset == offset;
    } else {
      DigitsThen(f[1..], offset);
      assert (f + offset)[1..] == f[1..] + offset;
    }
  }

  lemma {:induction false} OffsetHasNoN(s: string)
    requires IsDigitsThenOffset(s)
    ensures 'n' !in s
  {
    if IsOffset(s) {
      if |s| == 6 {
        assert s == [s[0], s[1], s[2], s[3], s[4], s[5]];
      }
    } else {
      OffsetHasNoN(s[1..]);
      assert s == [s[0]] + s[1..];
    }
  }

  lemma TimeHasNoN(t: string)
    requires IsRfc3339(t)
    ensures 'n' !in t
  {
    assert t == t[..19] + t[19..];
    assert 'n' !in t[..19] by {
      forall i | 0 <= i < 19
        ensures t[..19][i] != 'n'
      {
        if i == 4 || i == 7 || i == 10 || i == 13 || i == 16 {
        } else {
          assert IsDigit(t[i]);
        }
      }
    }
    if IsOffset(t[19..]) {
      OffsetHasNoN(t[19..]);
    } else {
      OffsetHasNoN(t[21..]);
      assert t[19..] == [t[19], t[20]] + t[21..];
    }
  }

  // ----- round trips -----

  /** The mark starts before the time has ended: inside it, or straddling its end. */
  ghost predicate MarkTooEarly(time: string, namespaces: seq<string>) {
    var upToMark := if namespaces == [] then time else time + NAMESPACES_MARK;
    exists i :: 0 <= i < |time| && OccursAt(upToMark, NAMESPACES_MARK, i)
  }

  lemma RestOfTag(uid: string, time: string, namespaces: seq<string>)
    requires |uid| == UUID_LEN
    ensures var tag := RunTag(uid, time, namespaces);
            && |tag| > UUID_LEN && tag[..UUID_LEN] == uid && tag[UUID_LEN] == '-'
            && tag[UUID_LEN + 1..] == if namespaces == [] then time else time + NAMESPACES_MARK + Join(namespaces, '_')
  {
    var tag := RunTag(uid, time, namespaces);
    var rest := if namespaces == [] then time else time + NAMESPACES_MARK + Join(namespaces, '_');
    assert tag == uid + "-" + rest;
  }

  /** The tag carries its cluster's UUID back, whatever follows it. */
  lemma UidRoundTrip(uid: string, time: string, namespaces: seq<string>)
    requires IsUuid(uid)
    ensures TagClusterUid(RunTag(uid, time, namespaces)) == Some(uid)
  {
    RestOfTag(uid, time, namespaces);
  }

  /** The time comes back exactly when the mark does not occur too early; no other time is safe, and none unsafe. */
  lemma TimeRoundTripIff(uid: string, time: string, namespaces: seq<string>)
    requires IsUuid(uid)
    ensures TagTime(RunTag(uid, time, namespaces)) == Some(time) <==> !MarkTooEarly(time, namespaces)
  {
    RestOfTag(uid, time, namespaces);
    UidRoundTrip(uid, time, namespaces);
    var rest := if namespaces == [] then time else time + NAMESPACES_MARK + Join(namespaces, '_');
    var head := if namespaces == [] then time else time + NAMESPACES_MARK;
    forall i | 0 <= i < |time|
      ensures OccursAt(rest, NAMESPACES_MARK, i) <==> OccursAt(head, NAMESPACES_MARK, i)
    {
      if i + 4 <= |head| {
        assert rest[i..i + 4] == head[i..i + 4];
      }
    }
    if namespaces != [] {
      assert rest[|time|..|time| + 4] == NAMESPACES_MARK;
      assert OccursAt(rest, NAMESPACES_MARK, |time|);
    }
    var at := FindFrom(rest, NAMESPACES_MARK, 0);
    if at.Some? && at.value < |time| {
      assert MarkTooEarly(time, namespaces);
      assert |rest[..at.value]| < |time|;
    } else {
      assert at.None? ==> namespaces == [];
      if at.Some? {
        assert at.value <= |rest|;
        assert namespaces != [];
        assert at.value == |time| && rest[..|time|] == time;
      }
    }
  }

  /** For every UUID, every RFC 3339 time and every namespace list, the parser is handed exactly that time. */
  lemma TimeRoundTrip<Instant>(uid: string, time: string, namespaces: seq<string>, instant: string -> Option<Instant>)
    requires IsUuid(uid) && IsRfc3339(time)
    ensures TagTime(RunTag(uid, time, namespaces)) == Some(time)
    ensures TagRunStart(RunTag(uid, time, namespaces), instant) == instant(time)
  {
    TimeHasNoN(time);
    var head := if namespaces == [] then time else time + NAMESPACES_MARK;
    forall i | 0 <= i < |time|
      ensures !OccursAt(head, NAMESPACES_MARK, i)
    {
      if i + 4 <= |head| {
        assert head[i..i + 4][1] == head[i + 1];
        assert i + 1 < |time| ==> head[i + 1] == time[i + 1];
      }
    }
    TimeRoundTripIff(uid, time, namespaces);
  }

  // ----- one tag, one run -----

  /** Section 2.1 of RFC 1123: letters, digits and inner hyphens, 63 at most. */
  predicate IsDnsLabel(s: string) {
    && 1 <= |s| <= 63
    && s[0] != '-' && s[|s| - 1] != '-'
    && forall i :: 0 <= i < |s| ==> 'a' <= s[i] <= 'z' || 'A' <= s[i] <= 'Z' || IsDigit(s[i]) || s[i] == '-'
  }

  lemma LabelsHaveNoUnderscore(s: string)
    requires IsDnsLabel(s)
    ensures '_' !in s && s != ""
  {
  }

  /** One tag, one run: for names without the separator, which DNS labels are. */
  lemma TagIsInjective(u1: string, t1: string, n1: seq<string>, u2: string, t2: string, n2: seq<string>)
    requires IsUuid(u1) && IsUuid(u2) && IsRfc3339(t1) && IsRfc3339(t2)
    requires forall i :: 0 <= i < |n1| ==> '_' !in n1[i]
    requires forall i :: 0 <= i < |n2| ==> '_' !in n2[i]
    requires RunTag(u1, t1, n1) == RunTag(u2, t2, n2)
    ensures u1 == u2 && t1 == t2 && n1 == n2
  {
    UidRoundTrip(u1, t1, n1);
    UidRoundTrip(u2, t2, n2);
    TimeRoundTrip(u1, t1, n1, (t: string) => Some(t));
    TimeRoundTrip(u2, t2, n2, (t: string) => Some(t));
    RestOfTag(u1, t1, n1);
    RestOfTag(u2, t2, n2);
    if n1 != [] && n2 != [] {
      var j1, j2 := Join(n1, '_'), Join(n2, '_');
      assert (t1 + NAMESPACES_MARK + j1)[|t1| + 4..] == j1;
      assert (t2 + NAMESPACES_MARK + j2)[|t2| + 4..] == j2;
      SplitJoin(n1, '_');
      SplitJoin(n2, '_');
    }
  }

  // ----- ownership -----

  function SnapshotClusterUid(tags: seq<string>): Option<string> {
    if tags == [] then None
    else if TagClusterUid(tags[0]).Some? then TagClusterUid(tags[0])
    else SnapshotClusterUid(tags[1..])
  }

  datatype Origin = ThisCluster | OtherCluster | Legacy

  function ClassifySnapshot(tags: seq<string>, uid: string): Origin {
    match SnapshotClusterUid(tags)
    case None => Legacy
    case Some(u) => if u == uid then ThisCluster else OtherCluster
  }

  predicate OwnedBy(tags: seq<string>, uid: string) {
    ClassifySnapshot(tags, uid) != OtherCluster
  }

  predicate Identified(tags: seq<string>) {
    exists i :: 0 <= i < |tags| && TagClusterUid(tags[i]).Some?
  }

  lemma {:induction false} UidOfSnapshot(tags: seq<string>)
    ensures SnapshotClusterUid(tags).Some? <==> Identified(tags)
  {
    if tags != [] && TagClusterUid(tags[0]).None? {
      UidOfSnapshot(tags[1..]);
      assert forall i :: 1 <= i < |tags| ==> tags[i] == tags[1..][i - 1];
    }
  }

  /** Two clusters may both act on exactly the snapshots that carry no identity at all. */
  lemma SharedAreLegacy(tags: seq<string>, a: string, b: string)
    requires a != b
    ensures OwnedBy(tags, a) && OwnedBy(tags, b) <==> !Identified(tags)
    ensures !Identified(tags) <==> ClassifySnapshot(tags, a) == Legacy
  {
    UidOfSnapshot(tags);
  }

  /** A snapshot of one of `b`'s runs, whatever unidentified tags stand before it, is `b`'s and never `a`'s. */
  lemma {:induction false} NeverAnothers(before: seq<string>, after: seq<string>, a: string, b: string, time: string,
                                         namespaces: seq<string>)
    requires a != b && IsUuid(b) && !Identified(before)
    ensures var tags := before + [RunTag(b, time, namespaces)] + after;
            ClassifySnapshot(tags, b) == ThisCluster && ClassifySnapshot(tags, a) == OtherCluster && !OwnedBy(tags, a)
  {
    UidRoundTrip(b, time, namespaces);
    var tags := before + [RunTag(b, time, namespaces)] + after;
    if before == [] {
      assert tags[0] == RunTag(b, time, namespaces);
    } else {
      assert TagClusterUid(before[0]).None?;
      assert forall i :: 0 <= i < |before[1..]| ==> before[1..][i] == before[i + 1];
      NeverAnothers(before[1..], after, a, b, time, namespaces);
      assert tags[1..] == before[1..] + [RunTag(b, time, namespaces)] + after;
    }
  }

  /** A cluster recognises its own runs exactly when its identity has the form of a UUID. */
  lemma OwnRunsIff(uid: string, time: string, namespaces: seq<string>)
    ensures ClassifySnapshot([RunTag(uid, time, namespaces)], uid) == ThisCluster <==> IsUuid(uid)
  {
    var tag := RunTag(uid, time, namespaces);
    assert SnapshotClusterUid([tag]) == TagClusterUid(tag) by { assert [tag][1..] == []; }
    if IsUuid(uid) {
      UidRoundTrip(uid, time, namespaces);
    }
  }

  // ----- whose snapshots are in the repository -----

  /** The byte order of strings. */
  predicate Less(a: string, b: string) {
    if b == [] then false
    else if a == [] then true
    else if a[0] != b[0] then a[0] < b[0]
    else Less(a[1..], b[1..])
  }

  lemma {:induction false} LessIsTotal(a: string, b: string)
    ensures Less(a, b) || a == b || Less(b, a)
    ensures !(Less(a, b) && Less(b, a)) && (Less(a, b) ==> a != b)
  {
    if a != [] && b != [] && a[0] == b[0] {
      LessIsTotal(a[1..], b[1..]);
      assert a == [a[0]] + a[1..] && b == [b[0]] + b[1..];
    }
  }

  lemma {:induction false} LessIsTransitive(a: string, b: string, c: string)
    requires Less(a, b) && Less(b, c)
    ensures Less(a, c)
  {
    if a != [] && a[0] == b[0] == c[0] {
      LessIsTransitive(a[1..], b[1..], c[1..]);
    }
  }

  /** The order of bytes: a proper beginning comes first, otherwise the first difference decides. */
  lemma {:induction false} LessIff(a: string, b: string)
    ensures Less(a, b) <==>
            || (|a| < |b| && b[..|a|] == a)
            || (exists k :: 0 <= k < |a| && k < |b| && a[..k] == b[..k] && a[k] < b[k])
  {
    if a != [] && b != [] {
      var x, y := a[1..], b[1..];
      if a[0] == b[0] {
        LessIff(x, y);
        assert forall k :: 0 <= k <= |x| && k <= |y| ==> a[..k + 1] == [a[0]] + x[..k] && b[..k + 1] == [b[0]] + y[..k];
        Behind(a, b);
      } else {
        assert a[..0] == b[..0];
      }
    }
  }

  /** Below a common first character. */
  lemma Behind(a: string, b: string)
    requires a != [] && b != [] && a[0] == b[0]
    ensures (exists k :: 0 <= k < |a| && k < |b| && a[..k] == b[..k] && a[k] < b[k]) <==>
            (exists k :: 0 <= k < |a| - 1 && k < |b| - 1 && a[1..][..k] == b[1..][..k] && a[1..][k] < b[1..][k])
  {
    var x, y := a[1..], b[1..];
    if k :| 0 <= k < |a| && k < |b| && a[..k] == b[..k] && a[k] < b[k] {
      assert k > 0;
      assert x[..k - 1] == a[..k][1..] && y[..k - 1] == b[..k][1..];
      assert x[k - 1] < y[k - 1];
    }
    if k :| 0 <= k < |x| && k < |y| && x[..k] == y[..k] && x[k] < y[k] {
      assert a[..k + 1] == [a[0]] + x[..k] && b[..k + 1] == [b[0]] + y[..k];
      assert a[k + 1] < b[k + 1];
    }
  }

  predicate IsSorted(xs: seq<string>) {
    forall i, j :: 0 <= i < j < |xs| ==> !Less(xs[j], xs[i])
  }

  predicate IsStrictlySorted(xs: seq<string>) {
    forall i, j :: 0 <= i < j < |xs| ==> Less(xs[i], xs[j])
  }

  method Sort(xs: seq<string>) returns (ys: seq<string>)
    ensures IsSorted(ys) && multiset(ys) == multiset(xs)
  {
    ys := [];
    for n := 0 to |xs|
      invariant IsSorted(ys) && multiset(ys) == multiset(xs[..n])
    {
      var x := xs[n];
      var k := 0;
      while k < |ys| && Less(ys[k], x)
        invariant k <= |ys|
        invariant forall i :: 0 <= i < k ==> Less(ys[i], x)
      {
        k := k + 1;
      }
      InsertKeepsSorted(ys, k, x);
      assert xs[..n + 1] == xs[..n] + [x];
      assert ys == ys[..k] + ys[k..];
      ys := ys[..k] + [x] + ys[k..];
    }
    assert xs[..|xs|] == xs;
  }

  lemma InsertKeepsSorted(ys: seq<string>, k: nat, x: string)
    requires IsSorted(ys) && k <= |ys|
    requires forall i :: 0 <= i < k ==> Less(ys[i], x)
    requires k < |ys| ==> !Less(ys[k], x)
    ensures IsSorted(ys[..k] + [x] + ys[k..])
  {
    var zs := ys[..k] + [x] + ys[k..];
    forall i, j | 0 <= i < j < |zs|
      ensures !Less(zs[j], zs[i])
    {
      if i < k && j == k {
        LessIsTotal(ys[i], x);
      } else if i == k {
        // A later element below `x` would be below the one at `k` too.
        LessIsTotal(ys[k], x);
        if Less(ys[j - 1], x) && Less(x, ys[k]) {
          LessIsTransitive(ys[j - 1], x, ys[k]);
        }
      }
    }
  }

  method Dedup(xs: seq<string>) returns (ys: seq<string>)
    requires IsSorted(xs)
    ensures IsStrictlySorted(ys) && forall x :: x in ys <==> x in xs
  {
    ys := [];
    for n := 0 to |xs|
      invariant IsStrictlySorted(ys)
      invariant forall x :: x in ys <==> x in xs[..n]
      invariant n == 0 ==> ys == []
      invariant n > 0 ==> ys != [] && ys[|ys| - 1] == xs[n - 1]
    {
      assert xs[..n + 1] == xs[..n] + [xs[n]];
      if ys == [] || ys[|ys| - 1] != xs[n] {
        if ys != [] {
          LessIsTotal(xs[n - 1], xs[n]);
          forall i | 0 <= i < |ys|
            ensures Less(ys[i], xs[n])
          {
            if i < |ys| - 1 {
              LessIsTransitive(ys[i], ys[|ys| - 1], xs[n]);
            }
          }
        }
        ys := ys + [xs[n]];
      }
    }
    assert xs[..|xs|] == xs;
  }

  predicate Names(snapshots: seq<seq<string>>, uid: string) {
    exists i :: 0 <= i < |snapshots| && SnapshotClusterUid(snapshots[i]) == Some(uid)
  }

  /** Every cluster the listing names, each once and in order; legacy snapshots name none. */
  method ClusterUidsIn(snapshots: seq<seq<string>>) returns (uids: seq<string>)
    ensures IsStrictlySorted(uids)
    ensures forall u :: u in uids <==> Names(snapshots, u)
  {
    var found: seq<string> := [];
    for n := 0 to |snapshots|
      invariant forall u :: u in found <==> Names(snapshots[..n], u)
    {
      NamesSnoc(snapshots, n);
      var uid := SnapshotClusterUid(snapshots[n]);
      if uid.Some? {
        found := found + [uid.value];
      }
    }
    assert snapshots[..|snapshots|] == snapshots;
    var sorted := Sort(found);
    assert forall u :: u in sorted <==> u in multiset(sorted);
    assert forall u :: u in found <==> u in multiset(found);
    uids := Dedup(sorted);
  }

  lemma NamesSnoc(snapshots: seq<seq<string>>, n: nat)
    requires n < |snapshots|
    ensures forall u :: Names(snapshots[..n + 1], u) <==>
                          Names(snapshots[..n], u) || SnapshotClusterUid(snapshots[n]) == Some(u)
  {
    forall u
      ensures Names(snapshots[..n + 1], u) <==> Names(snapshots[..n], u) || SnapshotClusterUid(snapshots[n]) == Some(u)
    {
      assert snapshots[..n + 1][n] == snapshots[n];
      assert forall i :: 0 <= i < n ==> snapshots[..n + 1][i] == snapshots[..n][i];
    }
  }

  /** So the answer does not depend on the order of the listing: strictly sorted lists of one set are one list. */
  lemma {:induction false} SortedListIsUnique(a: seq<string>, b: seq<string>)
    requires IsStrictlySorted(a) && IsStrictlySorted(b) && forall x :: x in a <==> x in b
    ensures a == b
  {
    assert a != [] ==> a[0] in b;
    assert b != [] ==> b[0] in a;
    if a != [] {
      assert a[0] in a && a[0] in b;
      assert b[0] in b && b[0] in a;
      LessIsTotal(a[0], b[0]);
      assert a[0] == b[0];
      forall x
        ensures x in a[1..] <==> x in b[1..]
      {
        TailHas(a, x);
        TailHas(b, x);
      }
      SortedListIsUnique(a[1..], b[1..]);
      assert a == [a[0]] + a[1..] && b == [b[0]] + b[1..];
    }
  }

  lemma TailHas(a: seq<string>, x: string)
    requires IsStrictlySorted(a) && a != []
    ensures x in a[1..] <==> x in a && x != a[0]
  {
    LessIsTotal(a[0], a[0]);
    assert a == [a[0]] + a[1..];
  }
}
