/**
The four patterns the link rewrite matches with: inline code spans, link targets, fence lines and
absolute targets, each as its regular expression matches, leftmost first and with its backtracking.
*/
module Markdown {
  import opened Wrappers
  import opened Text

  const TICK := '`'

  // ----- code spans: a backtick run, some text, the same run again -----

  function Ticks(k: nat): (t: string)
    ensures |t| == k && forall i :: 0 <= i < k ==> t[i] == TICK
  {
    seq(k, i => TICK)
  }

  function RunLength(s: string): (r: nat)
    ensures r <= |s| && (forall i :: 0 <= i < r ==> s[i] == TICK) && (r < |s| ==> s[r] != TICK)
  {
    if s == [] || s[0] != TICK then 0 else 1 + RunLength(s[1..])
  }

  /** The end of a span opened by `k` backticks: the earliest `k` more, with something in between. */
  function CloseAfter(s: string, k: nat): Option<nat> {
    if k + 1 > |s| then None
    else match FindFrom(s, Ticks(k), k + 1)
         case None => None
         case Some(j) => Some(j + k)
  }

  /** The opening run is taken whole first, then ever shorter. */
  function TryRuns(s: string, k: nat): Option<nat> {
    if k == 0 then None
    else if CloseAfter(s, k).Some? then CloseAfter(s, k)
    else TryRuns(s, k - 1)
  }

  /** The length of the code span that begins `s`, if one does. */
  function SpanLength(s: string): Option<nat> {
    TryRuns(s, RunLength(s))
  }

  /** Where the leftmost span at or after `from` begins. */
  function NextSpan(s: string, from: nat): Option<nat>
    requires from <= |s|
    decreases |s| - from
  {
    if SpanLength(s[from..]).Some? then Some(from)
    else if from == |s| then None
    else NextSpan(s, from + 1)
  }

  // ----- links: what stands between `](` and the next `)` -----

  function CloseParen(s: string, from: nat): (at: Option<nat>)
    requires from <= |s|
    ensures at.Some? ==> from <= at.value < |s| && s[at.value] == ')' && ')' !in s[from..at.value]
    ensures at.None? ==> ')' !in s[from..]
    decreases |s| - from
  {
    if from == |s| then None
    else if s[from] == ')' then Some(from)
    else CloseParen(s, from + 1)
  }

  /** A link target begins at `i`: after `](`, and not empty before a `)`. */
  predicate LinkAt(s: string, i: nat)
    requires i <= |s|
  {
    i >= 2 && s[i - 2] == ']' && s[i - 1] == '(' && CloseParen(s, i).Some? && CloseParen(s, i).value > i
  }

  function NextLink(s: string, from: nat): (at: Option<nat>)
    requires from <= |s|
    ensures at.Some? ==> from <= at.value <= |s| && LinkAt(s, at.value)
    ensures forall i :: from <= i < (if at.Some? then at.value else |s| + 1) ==> !LinkAt(s, i)
    decreases |s| - from
  {
    if LinkAt(s, from) then Some(from)
    else if from == |s| then None
    else NextLink(s, from + 1)
  }

  /** Every link target of a text, in order. */
  function Links(s: string): seq<string> {
    match NextLink(s, 0)
    case None => []
    case Some(i) =>
      var j := CloseParen(s, i).value;
      [s[i..j]] + Links(s[j..])
  }

  /** The text with each target replaced. */
  function SubLinks(s: string, f: string -> string): string {
    match NextLink(s, 0)
    case None => s
    case Some(i) =>
      var j := CloseParen(s, i).value;
      s[..i] + f(s[i..j]) + SubLinks(s[j..], f)
  }

  // ----- fences and absolute targets -----

  function SkipBlanks(s: string): string {
    if s == [] || (s[0] != ' ' && s[0] != '\t') then s else SkipBlanks(s[1..])
  }

  predicate IsFence(line: string) {
    var s := SkipBlanks(line);
    |s| >= 3 && (s[0] == TICK || s[0] == '~') && s[1] == s[0] && s[2] == s[0]
  }

  predicate IsSchemeChar(c: char) {
    'a' <= c <= 'z' || '0' <= c <= '9' || c == '+' || c == '.' || c == '-'
  }

  predicate SchemeRest(s: string) {
    s != [] && (s[0] == ':' || (IsSchemeChar(s[0]) && SchemeRest(s[1..])))
  }

  /** A `scheme:`, a `//host` or a `#fragment`. */
  predicate IsAbsolute(t: string) {
    t != [] && (t[0] == '#' || (|t| >= 2 && t[0] == '/' && t[1] == '/') || ('a' <= t[0] <= 'z' && SchemeRest(t[1..])))
  }

  /** What the pattern for a fence says, character by character. */
  lemma {:induction false} FenceIff(line: string)
    ensures IsFence(line) <==>
            exists n :: 0 <= n <= |line| - 3 && (forall i :: 0 <= i < n ==> line[i] in " \t") && ThreeAt(line, n)
  {
    if line != "" && (line[0] == ' ' || line[0] == '\t') {
      FenceIff(line[1..]);
      if n :| 0 <= n <= |line| - 3 && (forall i :: 0 <= i < n ==> line[i] in " \t") && ThreeAt(line, n) {
        assert ThreeAt(line[1..], n - 1);
        assert forall i :: 0 <= i < n - 1 ==> line[1..][i] == line[i + 1];
      }
      if n :| 0 <= n <= |line[1..]| - 3 && (forall i :: 0 <= i < n ==> line[1..][i] in " \t") && ThreeAt(line[1..], n) {
        assert ThreeAt(line, n + 1);
        assert forall i :: 1 <= i < n + 1 ==> line[i] == line[1..][i - 1];
      }
    } else if |line| >= 3 && ThreeAt(line, 0) {
      assert IsFence(line);
    }
  }

  predicate ThreeAt(s: string, n: nat) {
    n + 3 <= |s| && s[n] in "`~" && s[n + 1] == s[n] && s[n + 2] == s[n]
  }

  /** And the pattern for an absolute target: `#`, `//`, or a lowercase scheme and its colon. */
  lemma AbsoluteIff(t: string)
    ensures IsAbsolute(t) <==>
            || (|t| >= 1 && t[0] == '#')
            || (|t| >= 2 && t[0] == '/' && t[1] == '/')
            || (exists k :: HasScheme(t, k))
  {
    forall k
      ensures HasScheme(t, k) <==> 0 < k < |t| && 'a' <= t[0] <= 'z' && SchemeUpTo(t[1..], k - 1)
    {
      HasSchemeIff(t, k);
    }
    if t != "" {
      SchemeIff(t[1..]);
      if k :| SchemeUpTo(t[1..], k) && 'a' <= t[0] <= 'z' {
        assert HasScheme(t, k + 1);
      }
    }
  }

  /** Before the colon at `k`: a letter, then letters, digits, plus signs, dots and hyphens. */
  predicate HasScheme(t: string, k: int) {
    && 0 < k < |t| && t[k] == ':' && t[0] in "abcdefghijklmnopqrstuvwxyz"
    && forall i :: 0 < i < k ==> t[i] in "abcdefghijklmnopqrstuvwxyz0123456789+.-"
  }

  predicate SchemeUpTo(s: string, k: int) {
    0 <= k < |s| && s[k] == ':' && forall i :: 0 <= i < k ==> IsSchemeChar(s[i])
  }

  lemma SchemeCharIff(c: char)
    ensures IsSchemeChar(c) <==> c in "abcdefghijklmnopqrstuvwxyz0123456789+.-"
  {
  }

  lemma LowerIff(c: char)
    ensures 'a' <= c <= 'z' <==> c in "abcdefghijklmnopqrstuvwxyz"
  {
  }

  lemma HasSchemeIff(t: string, k: int)
    ensures HasScheme(t, k) <==> 0 < k < |t| && 'a' <= t[0] <= 'z' && SchemeUpTo(t[1..], k - 1)
  {
    if 0 < k < |t| {
      LowerIff(t[0]);
      forall i | 0 < i < k
        ensures t[i] in "abcdefghijklmnopqrstuvwxyz0123456789+.-" <==> IsSchemeChar(t[1..][i - 1])
      {
        SchemeCharIff(t[i]);
      }
      assert forall i :: 0 <= i < k - 1 ==> t[1..][i] == t[i + 1];
    }
  }

  lemma {:induction false} SchemeIff(s: string)
    ensures SchemeRest(s) <==> exists k :: SchemeUpTo(s, k)
  {
    if s != "" {
      if s[0] == ':' {
        assert SchemeUpTo(s, 0);
      } else {
        SchemeIff(s[1..]);
        if k :| SchemeUpTo(s[1..], k) && IsSchemeChar(s[0]) {
          assert SchemeUpTo(s, k + 1);
        }
        if k :| SchemeUpTo(s, k) {
          assert SchemeUpTo(s[1..], k - 1);
        }
      }
    }
  }

  lemma {:induction false} SchemePrefix(s: string, rest: string)
    requires SchemeRest(s)
    ensures SchemeRest(s + rest)
  {
    assert (s + rest)[0] == s[0] && (s + rest)[1..] == s[1..] + rest;
    if s[0] != ':' {
      SchemePrefix(s[1..], rest);
    }
  }

  /** Whatever follows it, an absolute beginning stays absolute. */
  lemma AbsolutePrefix(t: string, rest: string)
    requires IsAbsolute(t)
    ensures IsAbsolute(t + rest)
  {
    assert (t + rest)[0] == t[0] && (t + rest)[1..] == t[1..] + rest;
    if 'a' <= t[0] <= 'z' {
      SchemePrefix(t[1..], rest);
    }
  }

  // ----- what a line is made of -----

  datatype Piece = Prose(text: string) | Code(text: string)

  lemma {:induction false} TryRunsIsSpan(s: string, k: nat)
    requires k <= RunLength(s) && TryRuns(s, k).Some?
    ensures 3 <= TryRuns(s, k).value <= |s|
  {
    if CloseAfter(s, k).None? {
      TryRunsIsSpan(s, k - 1);
    }
  }

  /** A line in order: prose, a code span, prose, and so on. */
  function Pieces(s: string): seq<Piece> {
    match NextSpan(s, 0)
    case None => [Prose(s)]
    case Some(a) =>
      NextSpanIs(s, 0);
      TryRunsIsSpan(s[a..], RunLength(s[a..]));
      var b := a + SpanLength(s[a..]).value;
      [Prose(s[..a]), Code(s[a..b])] + Pieces(s[b..])
  }

  lemma {:induction false} NextSpanIs(s: string, from: nat)
    requires from <= |s|
    ensures NextSpan(s, from).Some? ==>
              from <= NextSpan(s, from).value <= |s| && SpanLength(s[NextSpan(s, from).value..]).Some?
    decreases |s| - from
  {
    if SpanLength(s[from..]).None? && from < |s| {
      NextSpanIs(s, from + 1);
    }
  }

  function TextOf(ps: seq<Piece>): string {
    if ps == [] then [] else ps[0].text + TextOf(ps[1..])
  }

  // ----- a link, character by character -----

  /** Between `](` at `i` and the `)` at `j`, with none between. */
  predicate IsTarget(s: string, i: int, j: int) {
    2 <= i < j < |s| && s[i - 2] == ']' && s[i - 1] == '(' && s[j] == ')' && ')' !in s[i..j]
  }

  lemma LinkAtIff(s: string, i: nat)
    requires i <= |s|
    ensures LinkAt(s, i) <==> exists j :: IsTarget(s, i, j)
  {
    if LinkAt(s, i) {
      assert IsTarget(s, i, CloseParen(s, i).value);
    }
    if j :| IsTarget(s, i, j) {
      ParenAt(s, i, j);
    }
  }

  lemma {:induction false} ParenAt(s: string, i: nat, j: nat)
    requires i <= j < |s| && s[j] == ')' && ')' !in s[i..j]
    ensures CloseParen(s, i) == Some(j)
    decreases j - i
  {
    if i < j {
      assert s[i] == s[i..j][0];
      assert forall k :: i + 1 <= k < j ==> s[k] == s[i..j][k - i];
      ParenAt(s, i + 1, j);
    }
  }

  /** The targets of a text, leftmost first, none within another. */
  ghost predicate AreTargets(ts: seq<string>, s: string)
    decreases |ts|
  {
    if ts == [] then forall i, j :: !IsTarget(s, i, j)
    else exists i, j :: IsTarget(s, i, j) && ts[0] == s[i..j] && NoneBefore(s, i) && AreTargets(ts[1..], s[j..])
  }

  ghost predicate NoneBefore(s: string, i: int) {
    forall k, j :: k < i ==> !IsTarget(s, k, j)
  }

  lemma {:induction false} LinksAreTargets(s: string)
    ensures AreTargets(Links(s), s)
    decreases |s|
  {
    match NextLink(s, 0)
    case None =>
      forall i, j
        ensures !IsTarget(s, i, j)
      {
        if 0 <= i <= |s| {
          LinkAtIff(s, i);
        }
      }
    case Some(i) =>
      var j := CloseParen(s, i).value;
      forall k, m | k < i
        ensures !IsTarget(s, k, m)
      {
        if 0 <= k {
          LinkAtIff(s, k);
        }
      }
      LinksAreTargets(s[j..]);
      assert Links(s)[1..] == Links(s[j..]);
      assert IsTarget(s, i, j);
  }

  // ----- where spans are -----

  /** All backticks of `s`, if any, stand within two neighbouring places: too close for a span. */
  ghost predicate Narrow(s: string) {
    forall i, j :: 0 <= i < j < |s| && s[i] == TICK && s[j] == TICK ==> j == i + 1
  }

  lemma OneTick(s: string, i: nat)
    requires i < |s|
    ensures OccursAt(s, Ticks(1), i) <==> s[i] == TICK
  {
    assert s[i..i + 1] == [s[i]];
    assert Ticks(1) == [TICK];
  }

  lemma TicksAt(s: string, k: nat, p: nat)
    ensures OccursAt(s, Ticks(k), p) <==> p + k <= |s| && forall i :: p <= i < p + k ==> s[i] == TICK
  {
    if p + k <= |s| {
      assert forall i :: p <= i < p + k ==> s[i] == s[p..p + k][i - p];
    }
  }

  /** `k` more backticks at `j`, with something between them and the first `k`. */
  ghost predicate Closes(s: string, k: int, j: int) {
    0 < k < j && j + k <= |s| && forall i :: j <= i < j + k ==> s[i] == '`'
  }

  ghost predicate Opens(s: string, k: int) {
    0 < k <= |s| && forall i :: 0 <= i < k ==> s[i] == '`'
  }

  ghost predicate NeverCloses(s: string, k: int) {
    forall j :: !Closes(s, k, j)
  }

  /** The longest opening run that closes at all, and the first place it does. */
  ghost predicate IsSpanOf(s: string, k: int, j: int) {
    && Opens(s, k) && Closes(s, k, j) && (forall i :: i < j ==> !Closes(s, k, i))
    && forall m :: m > k && Opens(s, m) ==> NeverCloses(s, m)
  }

  lemma CloseAfterIff(s: string, k: nat)
    requires 0 < k
    ensures CloseAfter(s, k).None? <==> NeverCloses(s, k)
    ensures CloseAfter(s, k).Some? ==>
              var n := CloseAfter(s, k).value;
              k <= n && Closes(s, k, n - k) && forall i :: i < n - k ==> !Closes(s, k, i)
  {
    forall j: nat
      ensures Closes(s, k, j) <==> k + 1 <= j && OccursAt(s, Ticks(k), j)
    {
      TicksAt(s, k, j);
    }
    if k + 1 <= |s| && CloseAfter(s, k).None? {
      forall j
        ensures !Closes(s, k, j)
      {
        if k + 1 <= j <= |s| {
          assert !OccursAt(s, Ticks(k), j);
        }
      }
    }
  }

  lemma NoneCloses(s: string, k: nat)
    requires 0 < k && CloseAfter(s, k).None?
    ensures NeverCloses(s, k)
  {
    CloseAfterIff(s, k);
  }

  lemma {:induction false} TryRunsIs(s: string, k: nat) returns (m: nat)
    requires k <= RunLength(s)
    ensures TryRuns(s, k).None? ==> forall i :: 0 < i <= k ==> NeverCloses(s, i)
    ensures TryRuns(s, k).Some? ==>
              && 0 < m <= k && m <= TryRuns(s, k).value && CloseAfter(s, m) == TryRuns(s, k)
              && forall i :: m < i <= k ==> NeverCloses(s, i)
  {
    m := k;
    if k > 0 {
      if CloseAfter(s, k).None? {
        NoneCloses(s, k);
        m := TryRunsIs(s, k - 1);
      }
    }
  }

  lemma LongestRun(s: string, k: int)
    ensures Opens(s, k) <==> 0 < k <= RunLength(s)
  {
    if RunLength(s) < k <= |s| {
      assert s[RunLength(s)] != '`';
    }
  }

  /** With its backtracking the pattern matches exactly the longest run that closes, up to where it first does. */
  lemma SpanIsExact(s: string) returns (k: nat)
    ensures SpanLength(s).None? ==> forall m :: Opens(s, m) ==> NeverCloses(s, m)
    ensures SpanLength(s).Some? ==> k <= SpanLength(s).value && IsSpanOf(s, k, SpanLength(s).value - k)
  {
    var r := RunLength(s);
    k := TryRunsIs(s, r);
    forall m
      ensures Opens(s, m) <==> 0 < m <= r
    {
      LongestRun(s, m);
    }
    if SpanLength(s).Some? {
      CloseAfterIff(s, k);
    }
  }

  /** A span begins at a backtick exactly when another stands two places on or further. */
  lemma {:induction false} SpanIff(s: string)
    ensures SpanLength(s).Some? <==> s != [] && s[0] == TICK && exists j :: 2 <= j < |s| && s[j] == TICK
  {
    if s != [] && s[0] == TICK {
      if j :| 2 <= j < |s| && s[j] == TICK {
        OneTick(s, j);
        assert CloseAfter(s, 1).Some?;
        ShorterRun(s, RunLength(s));
      } else {
        assert forall j :: 2 <= j < |s| ==> s[j] != TICK;
        NoClose(s, RunLength(s));
      }
    }
  }

  lemma {:induction false} ShorterRun(s: string, k: nat)
    requires 1 <= k && CloseAfter(s, 1).Some?
    ensures TryRuns(s, k).Some?
  {
    if k > 1 {
      ShorterRun(s, k - 1);
    }
  }

  lemma {:induction false} NoClose(s: string, k: nat)
    requires forall j :: 2 <= j < |s| ==> s[j] != TICK
    ensures TryRuns(s, k).None?
  {
    if k > 0 {
      if k + 1 <= |s| {
        forall j | k + 1 <= j <= |s|
          ensures !OccursAt(s, Ticks(k), j)
        {
          if j + k <= |s| {
            assert s[j..j + k][0] == s[j] && Ticks(k)[0] == TICK;
          }
        }
      }
      NoClose(s, k - 1);
    }
  }

  /** No span begins before the first backtick, nor at all in a narrow text. */
  lemma {:induction false} NoSpanIn(s: string, from: nat, end: nat)
    requires from <= end <= |s|
    requires forall i :: from <= i < end ==> SpanLength(s[i..]).None?
    ensures NextSpan(s, from) == NextSpan(s, end)
    decreases |s| - from
  {
    if from < end {
      NoSpanIn(s, from + 1, end);
    }
  }

  lemma NarrowHasNoSpan(s: string)
    requires Narrow(s)
    ensures Pieces(s) == [Prose(s)]
  {
    forall i | 0 <= i <= |s|
      ensures SpanLength(s[i..]).None?
    {
      SpanIff(s[i..]);
      if i < |s| && s[i] == TICK {
        assert forall j :: 2 <= j < |s[i..]| ==> s[i..][j] == s[i + j];
      }
    }
    NoSpanIn(s, 0, |s|);
  }

  lemma FirstSpanAt(s: string, a: nat)
    requires a <= |s| && TICK !in s[..a] && SpanLength(s[a..]).Some?
    ensures NextSpan(s, 0) == Some(a) && 3 <= SpanLength(s[a..]).value <= |s| - a
  {
    forall i | 0 <= i < a
      ensures SpanLength(s[i..]).None?
    {
      SpanIff(s[i..]);
      assert s[i..][0] == s[..a][i];
    }
    NoSpanIn(s, 0, a);
    TryRunsIsSpan(s[a..], RunLength(s[a..]));
  }

  lemma PiecesUnfold(s: string, a: nat, n: nat)
    requires NextSpan(s, 0) == Some(a) && a <= |s| && SpanLength(s[a..]) == Some(n) && a + n <= |s|
    ensures Pieces(s) == [Prose(s[..a]), Code(s[a..a + n])] + Pieces(s[a + n..])
  {
  }

  /** Prose without backticks, then a span: the line's first two pieces. */
  lemma PiecesStart(prose: string, rest: string, n: nat)
    requires TICK !in prose && SpanLength(rest) == Some(n)
    ensures 3 <= n <= |rest|
    ensures Pieces(prose + rest) == [Prose(prose), Code(rest[..n])] + Pieces(rest[n..])
  {
    var s, a := prose + rest, |prose|;
    assert s[..a] == prose && s[a..] == rest;
    FirstSpanAt(s, a);
    PiecesUnfold(s, a, n);
    assert s[a..a + n] == rest[..n] && s[a + n..] == rest[n..];
  }

  /** The other way round: a line is narrow, or it is prose without backticks, then a span. */
  lemma SplitAtSpan(s: string) returns (a: nat)
    requires !Narrow(s)
    ensures a < |s| && TICK !in s[..a] && SpanLength(s[a..]).Some?
  {
    var i, j :| 0 <= i < j < |s| && s[i] == TICK && s[j] == TICK && j != i + 1;
    a := FirstTick(s, i);
    assert s[a..][j - a] == TICK && s[a..][0] == TICK;
    SpanIff(s[a..]);
  }

  lemma {:induction false} FirstTick(s: string, i: nat) returns (a: nat)
    requires i < |s| && s[i] == TICK
    ensures a <= i && s[a] == TICK && TICK !in s[..a]
  {
    if TICK in s[..i] {
      var k :| 0 <= k < i && s[..i][k] == TICK;
      a := FirstTick(s, k);
    } else {
      a := i;
    }
  }

  lemma {:induction false} PiecesAreTheLine(s: string)
    ensures TextOf(Pieces(s)) == s
    decreases |s|
  {
    if Narrow(s) {
      NarrowHasNoSpan(s);
      TextOfOne(s);
    } else {
      var prose, code, rest := ProseThenSpan(s);
      PiecesAreTheLine(rest);
      TextOfCons(prose, code, Pieces(rest));
    }
  }

  /** A line that is not narrow is prose without backticks, then a span, then more. */
  lemma ProseThenSpan(s: string) returns (prose: string, code: string, rest: string)
    requires !Narrow(s)
    ensures s == prose + (code + rest) && TICK !in prose && 3 <= |code| && SpanLength(code + rest) == Some(|code|)
    ensures Pieces(s) == [Prose(prose), Code(code)] + Pieces(rest)
  {
    var a := SplitAtSpan(s);
    var r, n := s[a..], SpanLength(s[a..]).value;
    assert s == s[..a] + r;
    PiecesStart(s[..a], r, n);
    prose, code, rest := s[..a], r[..n], r[n..];
    assert r == code + rest;
  }

  // ----- the cutting of a line, said without its functions -----

  ghost predicate NoSpanAt(s: string, i: int) {
    0 <= i <= |s| ==> forall k, j :: !IsSpanOf(s[i..], k, j)
  }

  /** Prose up to where the first span begins, that span, and the rest cut the same way. */
  ghost predicate IsCutting(ps: seq<Piece>, s: string)
    decreases |ps|
  {
    if |ps| <= 1 then ps == [Prose(s)] && forall i :: NoSpanAt(s, i)
    else
      && ps[0].Prose? && ps[1].Code?
      && (exists rest, k, j :: s == ps[0].text + (ps[1].text + rest) && IsSpanOf(ps[1].text + rest, k, j)
                               && |ps[1].text| == j + k && IsCutting(ps[2..], rest))
      && forall i :: i < |ps[0].text| ==> NoSpanAt(s, i)
  }

  lemma NoSpanThere(s: string, i: nat)
    requires i <= |s| && SpanLength(s[i..]).None?
    ensures NoSpanAt(s, i)
  {
    var m := SpanIsExact(s[i..]);
  }

  lemma {:induction false} PiecesAreCutting(s: string)
    ensures IsCutting(Pieces(s), s)
    decreases |s|
  {
    if Narrow(s) {
      NarrowHasNoSpan(s);
      forall i
        ensures NoSpanAt(s, i)
      {
        if 0 <= i <= |s| {
          NarrowStarts(s, i);
          NoSpanThere(s, i);
        }
      }
    } else {
      var prose, code, rest := ProseThenSpan(s);
      PiecesAreCutting(rest);
      var k := SpanIsExact(code + rest);
      forall i | i < |prose|
        ensures NoSpanAt(s, i)
      {
        if 0 <= i {
          TicklessStarts(prose, code + rest, i);
          NoSpanThere(s, i);
        }
      }
      CuttingCons(prose, code, rest, Pieces(rest), k, |code| - k);
    }
  }

  lemma NarrowStarts(s: string, i: nat)
    requires Narrow(s) && i <= |s|
    ensures SpanLength(s[i..]).None?
  {
    SpanIff(s[i..]);
    if i < |s| && s[i] == TICK {
      assert forall j :: 2 <= j < |s[i..]| ==> s[i..][j] == s[i + j];
    }
  }

  lemma TicklessStarts(prose: string, rest: string, i: nat)
    requires TICK !in prose && i < |prose|
    ensures SpanLength((prose + rest)[i..]).None?
  {
    SpanIff((prose + rest)[i..]);
    assert (prose + rest)[i..][0] == prose[i];
  }

  lemma CuttingCons(prose: string, code: string, rest: string, ps: seq<Piece>, k: nat, j: nat)
    requires IsCutting(ps, rest) && IsSpanOf(code + rest, k, j) && |code| == j + k
    requires forall i :: i < |prose| ==> NoSpanAt(prose + (code + rest), i)
    ensures IsCutting([Prose(prose), Code(code)] + ps, prose + (code + rest))
  {
    var all := [Prose(prose), Code(code)] + ps;
    assert all[2..] == ps;
    assert all[1].text == code;
  }

  lemma TextOfOne(s: string)
    ensures TextOf([Prose(s)]) == s
  {
    assert [Prose(s)][1..] == [];
  }

  lemma TextOfCons(prose: string, code: string, ps: seq<Piece>)
    ensures TextOf([Prose(prose), Code(code)] + ps) == prose + (code + TextOf(ps))
  {
    var all := [Prose(prose), Code(code)] + ps;
    assert all[1..] == [Code(code)] + ps;
    assert all[1..][1..] == ps;
  }
}
