/**
Replacing link targets one by one, for any replacement that treats backticks and closing parentheses
with care: the links and the code spans of a line stay where they were.
*/
module LinkEdits {
  import opened Wrappers
  import opened Text
  import opened Markdown

  // ----- replacements that keep the line's structure -----

  predicate NoTick(s: string) {
    TICK !in s
  }

  ghost predicate Around(s: string, x: string, mark: string, y: string) {
    s == x + mark + y && NoTick(x) && NoTick(y)
  }

  /** No backticks, or exactly `mark`. */
  ghost predicate Shape(s: string, mark: string) {
    NoTick(s) || exists x, y :: Around(s, x, mark, y)
  }

  ghost predicate Marks(s: string, mark: string) {
    exists x, y :: Around(s, x, mark, y)
  }

  /** The backticks of `t`, if it has any, are either all kept as they stand next to each other, or all lost. */
  ghost predicate TicksKept(t: string, u: string) {
    NoTick(u) || exists mark :: Marks(t, mark) && Marks(u, mark)
  }

  ghost predicate FineFor(t: string, u: string) {
    u != "" && ')' !in u && TicksKept(t, u)
  }

  ghost predicate FineAt(f: string -> string, t: string) {
    t != "" && ')' !in t && Narrow(t) ==> FineFor(t, f(t))
  }

  /** What a replacement must do for every target there can be outside code. */
  ghost predicate Fine(f: string -> string) {
    forall t :: FineAt(f, t)
  }

  // ----- one edit -----

  lemma RunStops(x: string, z: string)
    requires RunLength(x) < |x|
    ensures RunLength(x + z) == RunLength(x)
  {
    var r, r' := RunLength(x), RunLength(x + z);
    assert forall i :: 0 <= i < |x| ==> (x + z)[i] == x[i];
  }

  lemma RunStopsBefore(x: string, g: string, y: string)
    requires RunLength(x) < |x|
    ensures RunLength(x + g + y) == RunLength(x)
  {
    assert x + g + y == x + (g + y);
    RunStops(x, g + y);
  }

  /** Where a run of backticks is in one text it is in the other, if not across the edit. */
  lemma EditOccurs(x: string, g: string, g': string, y: string, k: nat, p: nat) returns (q: nat)
    requires g' != "" && NoTick(g') && k > 0 && OccursAt(x + g' + y, Ticks(k), p)
    ensures p + k <= |x| ==> q == p
    ensures p + k > |x| ==> q >= |x| + |g|
    ensures OccursAt(x + g + y, Ticks(k), q)
  {
    var s', s := x + g' + y, x + g + y;
    TicksAt(s', k, p);
    if p + k <= |x| {
      q := p;
    } else {
      TicksPastEdit(x, g', y, k, p);
      q := p - |g'| + |g|;
      assert forall i :: q <= i < q + k ==> s[i] == s'[i - |g| + |g'|];
    }
    TicksAt(s, k, q);
  }

  lemma TicksPastEdit(x: string, g: string, y: string, k: nat, p: nat)
    requires g != "" && NoTick(g) && k > 0 && |x| < p + k <= |x + g + y|
    requires forall i :: p <= i < p + k ==> (x + g + y)[i] == TICK
    ensures p >= |x| + |g|
  {
    var at := if p < |x| then |x| else p;
    assert (x + g + y)[at] == TICK;
  }

  lemma EditFindsNone(x: string, g: string, g': string, y: string, k: nat)
    requires g' != "" && NoTick(g') && 0 < k < |x|
    requires CloseAfter(x + g + y, k).None?
    ensures CloseAfter(x + g' + y, k).None?
  {
    var s' := x + g' + y;
    forall p | k + 1 <= p <= |s'|
      ensures !OccursAt(s', Ticks(k), p)
    {
      if OccursAt(s', Ticks(k), p) {
        var q := EditOccurs(x, g, g', y, k, p);
      }
    }
  }

  lemma EditFindsSame(x: string, g: string, g': string, y: string, k: nat, n: nat)
    requires g' != "" && NoTick(g') && 0 < k < |x| && n <= |x|
    requires CloseAfter(x + g + y, k) == Some(n)
    ensures CloseAfter(x + g' + y, k) == Some(n)
  {
    var s, s' := x + g + y, x + g' + y;
    assert s[n - k..n] == s'[n - k..n];
    assert OccursAt(s', Ticks(k), n - k);
    var p := FindFrom(s', Ticks(k), k + 1).value;
    var q := EditOccurs(x, g, g', y, k, p);
  }

  lemma {:induction false} EditTries(x: string, g: string, g': string, y: string, k: nat, n: nat)
    requires g' != "" && NoTick(g') && k < |x| && n <= |x|
    requires TryRuns(x + g + y, k) == Some(n)
    ensures TryRuns(x + g' + y, k) == Some(n)
  {
    if CloseAfter(x + g + y, k).Some? {
      EditFindsSame(x, g, g', y, k, n);
    } else {
      EditFindsNone(x, g, g', y, k);
      EditTries(x, g, g', y, k - 1, n);
    }
  }

  /** A code span that has ended before an edit stays the same span. */
  lemma EditKeepsSpan(x: string, g: string, g': string, y: string, n: nat)
    requires g' != "" && NoTick(g') && n <= |x| && RunLength(x) < |x|
    requires SpanLength(x + g + y) == Some(n)
    ensures SpanLength(x + g' + y) == Some(n)
  {
    RunStopsBefore(x, g, y);
    RunStopsBefore(x, g', y);
    EditTries(x, g, g', y, RunLength(x), n);
  }

  lemma EditKeepsNarrow(x: string, g: string, g': string, y: string)
    requires g != "" && NoTick(g') && Narrow(x + g + y)
    ensures Narrow(x + g' + y)
  {
    var s, s' := x + g + y, x + g' + y;
    forall i, j | 0 <= i < j < |s'| && s'[i] == TICK && s'[j] == TICK
      ensures j == i + 1
    {
      var i' := Moved(x, g, g', y, i);
      var j' := Moved(x, g, g', y, j);
    }
  }

  lemma Moved(x: string, g: string, g': string, y: string, i: nat) returns (k: nat)
    requires NoTick(g') && i < |x + g' + y| && (x + g' + y)[i] == TICK
    ensures k < |x + g + y| && (x + g + y)[k] == TICK
    ensures if i < |x| then k == i else i >= |x| + |g'| && k == i - |g'| + |g|
  {
    if i < |x| {
      k := i;
    } else {
      assert forall j :: |x| <= j < |x| + |g'| ==> (x + g' + y)[j] == g'[j - |x|];
      k := i - |g'| + |g|;
    }
  }

  // ----- a whole target -----

  /** What an edit must not disturb: a span that ends before it, or the want of any. */
  ghost predicate Context(s: string, span: Option<nat>) {
    match span
    case None => Narrow(s)
    case Some(n) => SpanLength(s) == Some(n)
  }

  ghost predicate Before(x: string, span: Option<nat>) {
    span.Some? ==> span.value <= |x| && RunLength(x) < |x|
  }

  lemma EditKeeps(x: string, g: string, g': string, y: string, span: Option<nat>)
    requires g != "" && g' != "" && NoTick(g') && Before(x, span) && Context(x + g + y, span)
    ensures Context(x + g' + y, span)
  {
    match span
    case None => EditKeepsNarrow(x, g, g', y);
    case Some(n) => EditKeepsSpan(x, g, g', y, n);
  }

  lemma BeforeGrows(x: string, z: string, span: Option<nat>)
    requires Before(x, span)
    ensures Before(x + z, span)
  {
    if span.Some? {
      RunStops(x, z);
    }
  }

  lemma TargetKeeps(x: string, t: string, u: string, y: string, span: Option<nat>)
    requires t != "" && FineFor(t, u) && Before(x, span) && Context(x + "(" + t + ")" + y, span)
    ensures Context(x + "(" + u + ")" + y, span)
  {
    if NoTick(u) {
      var g, g', rest := "(" + t, "(" + u, ")" + y;
      assert x + "(" + t + ")" + y == x + g + rest && x + "(" + u + ")" + y == x + g' + rest;
      EditKeeps(x, g, g', rest, span);
    } else {
      var mark :| Marks(t, mark) && Marks(u, mark);
      var x0, y0 :| Around(t, x0, mark, y0);
      var x1, y1 :| Around(u, x1, mark, y1);
      MarkedKeeps(x, x0, x1, mark, y0, y1, y, span);
      assert x + "(" + (x0 + mark + y0) + ")" + y == x + "(" + t + ")" + y;
    }
  }

  lemma MarkedKeeps(x: string, x0: string, x1: string, mark: string, y0: string, y1: string, y: string,
                    span: Option<nat>)
    requires NoTick(x1) && NoTick(y1) && Before(x, span)
    requires Context(x + "(" + (x0 + mark + y0) + ")" + y, span)
    ensures Context(x + "(" + (x1 + mark + y1) + ")" + y, span)
  {
    var g, g', rest := "(" + x0, "(" + x1, mark + y0 + ")" + y;
    assert x + "(" + (x0 + mark + y0) + ")" + y == x + g + rest;
    EditKeeps(x, g, g', rest, span);
    var h, h', x' := y0 + ")", y1 + ")", x + ("(" + x1 + mark);
    assert x + g' + rest == x' + h + y;
    BeforeGrows(x, "(" + x1 + mark, span);
    EditKeeps(x', h, h', y, span);
    assert x + "(" + (x1 + mark + y1) + ")" + y == x' + h' + y;
  }

  // ----- all the targets of a text -----

  /** The first link of a text, and what is done about it. */
  lemma FirstLink(s: string, f: string -> string) returns (i: nat, j: nat)
    requires NextLink(s, 0).Some?
    ensures NextLink(s, 0) == Some(i) && CloseParen(s, i) == Some(j)
    ensures 2 <= i < j < |s| && s[i - 2] == ']' && s[i - 1] == '(' && s[j] == ')'
    ensures s[i..j] != "" && ')' !in s[i..j]
    ensures Links(s) == [s[i..j]] + Links(s[j..])
    ensures SubLinks(s, f) == s[..i] + f(s[i..j]) + SubLinks(s[j..], f)
  {
    i := NextLink(s, 0).value;
    j := CloseParen(s, i).value;
  }

  lemma NarrowPart(s: string, i: nat, j: nat)
    requires i <= j <= |s| && Narrow(s)
    ensures Narrow(s[i..j])
  {
    var t := s[i..j];
    assert forall k :: 0 <= k < |t| ==> t[k] == s[i + k];
  }

  lemma AfterFirst(c: string, s: string, tail: string, i: nat, j: nat)
    requires 2 <= i < j < |s| && s[i - 1] == '(' && s[j] == ')'
    ensures c + s + tail == (c + s[..i - 1]) + "(" + s[i..j] + ")" + (s[j + 1..] + tail)
  {
    assert s == s[..i - 1] + "(" + s[i..j] + ")" + s[j + 1..];
  }

  lemma AfterEdit(c: string, s: string, u: string, tail: string, i: nat, j: nat)
    requires 2 <= i < j < |s| && s[i - 1] == '(' && s[j] == ')'
    ensures (c + s[..i - 1]) + "(" + u + ")" + (s[j + 1..] + tail) == (c + s[..i] + u) + s[j..] + tail
  {
    assert s[..i] == s[..i - 1] + "(" && s[j..] == ")" + s[j + 1..];
  }

  lemma Regroup(c: string, p: string, u: string, q: string, tail: string)
    ensures (c + p + u) + q + tail == c + (p + u + q) + tail
  {
  }

  lemma StopsInside(c: string, s: string, i: nat, span: Option<nat>)
    requires 2 <= i <= |s| && s[i - 2] == ']' && (span.Some? ==> span.value <= |c|)
    ensures Before(c + s[..i - 1], span)
  {
    assert (c + s[..i - 1])[|c| + i - 2] == ']';
  }

  lemma FirstKeeps(c: string, s: string, u: string, tail: string, span: Option<nat>, i: nat, j: nat)
    requires 2 <= i < j < |s| && s[i - 2] == ']' && s[i - 1] == '(' && s[j] == ')'
    requires FineFor(s[i..j], u) && (span.Some? ==> span.value <= |c|)
    requires Context(c + s + tail, span)
    ensures Context((c + s[..i] + u) + s[j..] + tail, span)
  {
    AfterFirst(c, s, tail, i, j);
    StopsInside(c, s, i, span);
    TargetKeeps(c + s[..i - 1], s[i..j], u, s[j + 1..] + tail, span);
    AfterEdit(c, s, u, tail, i, j);
  }

  /** Rewriting a stretch of prose leaves every span before it, or the want of spans, as it was. */
  lemma {:induction false} ProseKeeps(c: string, s: string, tail: string, f: string -> string, span: Option<nat>)
    requires Fine(f) && Narrow(s) && (span.Some? ==> span.value <= |c|)
    requires Context(c + s + tail, span)
    ensures Context(c + SubLinks(s, f) + tail, span)
    decreases |s|
  {
    if NextLink(s, 0).Some? {
      var i, j := FirstLink(s, f);
      var u := f(s[i..j]);
      NarrowPart(s, i, j);
      assert FineAt(f, s[i..j]);
      FirstKeeps(c, s, u, tail, span, i, j);
      NarrowPart(s, j, |s|);
      ProseKeeps(c + s[..i] + u, s[j..], tail, f, span);
      Regroup(c, s[..i], u, SubLinks(s[j..], f), tail);
    }
  }

  lemma NoTickPart(s: string, i: nat, j: nat)
    requires i <= j <= |s| && NoTick(s)
    ensures NoTick(s[i..j]) && Narrow(s[i..j])
  {
  }

  lemma TicklessKept(t: string, u: string)
    requires TicksKept(t, u) && NoTick(t)
    ensures NoTick(u)
  {
  }

  lemma {:induction false} ProseStaysTickless(s: string, f: string -> string)
    requires Fine(f) && NoTick(s)
    ensures NoTick(SubLinks(s, f))
    decreases |s|
  {
    if NextLink(s, 0).Some? {
      var i, j := FirstLink(s, f);
      var t := s[i..j];
      NoTickPart(s, i, j);
      assert FineAt(f, t);
      TicklessKept(t, f(t));
      NoTickPart(s, j, |s|);
      ProseStaysTickless(s[j..], f);
    }
  }

  function MapLinks(ts: seq<string>, f: string -> string): (us: seq<string>)
    ensures |us| == |ts| && forall i :: 0 <= i < |ts| ==> us[i] == f(ts[i])
  {
    seq(|ts|, i requires 0 <= i < |ts| => f(ts[i]))
  }

  lemma LinkSeen(s: string, s': string, i: nat, j: nat, j': nat)
    requires NextLink(s, 0) == Some(i) && 2 <= i < j < |s| && s[j] == ')'
    requires i < j' < |s'| && s'[j'] == ')' && ')' !in s'[i..j'] && forall m :: 0 <= m < i ==> s'[m] == s[m]
    ensures NextLink(s', 0) == Some(i) && CloseParen(s', i) == Some(j')
  {
    ParenAt(s', i, j');
    assert LinkAt(s', i);
    forall k | 0 <= k < i
      ensures !LinkAt(s', k)
    {
      NoneEarlier(s, s', i, j, k);
    }
    FirstLinkAt(s', i);
  }

  lemma FirstLinkAt(s: string, i: nat)
    requires i <= |s| && LinkAt(s, i) && forall k :: 0 <= k < i ==> !LinkAt(s, k)
    ensures NextLink(s, 0) == Some(i)
  {
  }

  lemma NoneEarlier(s: string, s': string, i: nat, j: nat, k: nat)
    requires NextLink(s, 0) == Some(i) && k < i < j < |s| && s[j] == ')' && i < |s'|
    requires forall m :: 0 <= m < i ==> s'[m] == s[m]
    ensures !LinkAt(s', k)
  {
    if k >= 2 && s'[k - 2] == ']' && s'[k - 1] == '(' {
      NotHere(s, i, j, k);
      ParenAt(s', k, k);
    }
  }

  /** Before the first link, what looks like one is empty. */
  lemma NotHere(s: string, i: nat, j: nat, k: nat)
    requires NextLink(s, 0) == Some(i) && 2 <= k < i < j < |s| && s[j] == ')'
    requires s[k - 2] == ']' && s[k - 1] == '('
    ensures s[k] == ')'
  {
    assert !LinkAt(s, k);
    assert s[k..][j - k] == ')';
  }

  lemma {:induction false} SubLinksHead(s: string, f: string -> string)
    requires s != ""
    ensures SubLinks(s, f) != "" && SubLinks(s, f)[0] == s[0]
  {
    if NextLink(s, 0).Some? {
      var i, j := FirstLink(s, f);
    }
  }

  /** The links of a rewritten text are the rewritten links. */
  lemma {:induction false} LinksOfSub(s: string, f: string -> string)
    requires Fine(f) && Narrow(s)
    ensures Links(SubLinks(s, f)) == MapLinks(Links(s), f)
    decreases |s|
  {
    if NextLink(s, 0).Some? {
      var i, j := FirstLink(s, f);
      var t, rest := s[i..j], SubLinks(s[j..], f);
      NarrowPart(s, i, j);
      assert FineAt(f, t);
      SubLinksHead(s[j..], f);
      LinksOfEdit(s, f(t), rest, i, j);
      NarrowPart(s, j, |s|);
      LinksOfSub(s[j..], f);
      MapLinksCons(t, Links(s[j..]), f);
    }
  }

  lemma MapLinksCons(t: string, ts: seq<string>, f: string -> string)
    ensures MapLinks([t] + ts, f) == [f(t)] + MapLinks(ts, f)
  {
  }

  lemma LinksOfEdit(s: string, u: string, rest: string, i: nat, j: nat)
    requires NextLink(s, 0) == Some(i) && 2 <= i < j < |s| && s[j] == ')'
    requires u != "" && ')' !in u && rest != "" && rest[0] == ')'
    ensures Links(s[..i] + u + rest) == [u] + Links(rest)
  {
    var s', j' := s[..i] + u + rest, i + |u|;
    assert s'[i..j'] == u && s'[j'..] == rest && s'[j'] == rest[0];
    LinkSeen(s, s', i, j, j');
    LinksAt(s', i, j');
  }

  lemma LinksAt(s: string, i: nat, j: nat)
    requires NextLink(s, 0) == Some(i) && i <= j <= |s| && CloseParen(s, i) == Some(j)
    ensures Links(s) == [s[i..j]] + Links(s[j..])
  {
  }

  ghost predicate Fixes(f: string -> string, ts: seq<string>) {
    forall i :: 0 <= i < |ts| ==> f(ts[i]) == ts[i]
  }

  lemma FixesRest(f: string -> string, t: string, ts: seq<string>)
    requires Fixes(f, [t] + ts)
    ensures f(t) == t && Fixes(f, ts)
  {
    assert ([t] + ts)[0] == t;
    assert forall i :: 0 <= i < |ts| ==> ([t] + ts)[i + 1] == ts[i];
  }

  lemma {:induction false} SubLinksFixed(s: string, f: string -> string)
    requires Fixes(f, Links(s))
    ensures SubLinks(s, f) == s
    decreases |s|
  {
    if NextLink(s, 0).Some? {
      var i, j := FirstLink(s, f);
      FixesRest(f, s[i..j], Links(s[j..]));
      SubLinksFixed(s[j..], f);
      Rejoin(s, i, j);
    }
  }

  lemma Rejoin(s: string, i: nat, j: nat)
    requires i <= j <= |s|
    ensures s[..i] + s[i..j] + s[j..] == s
  {
  }

  ghost predicate Composes(f: string -> string, g: string -> string, h: string -> string) {
    forall t :: ComposesAt(f, g, h, t)
  }

  ghost predicate ComposesAt(f: string -> string, g: string -> string, h: string -> string, t: string) {
    h(t) == g(f(t))
  }

  /** Replacing twice is replacing once by the composition: the second pass finds the first one's targets. */
  lemma {:induction false} SubLinksCompose(s: string, f: string -> string, g: string -> string, h: string -> string)
    requires Fine(f) && Narrow(s) && Composes(f, g, h)
    ensures SubLinks(SubLinks(s, f), g) == SubLinks(s, h)
    decreases |s|
  {
    if NextLink(s, 0).Some? {
      var i, j := FirstLink(s, f);
      NarrowPart(s, j, |s|);
      SubLinksCompose(s[j..], f, g, h);
      ComposeFirst(s, f, g, h, i, j);
    }
  }

  lemma ComposeFirst(s: string, f: string -> string, g: string -> string, h: string -> string, i: nat, j: nat)
    requires Fine(f) && Narrow(s) && Composes(f, g, h)
    requires NextLink(s, 0) == Some(i) && CloseParen(s, i) == Some(j) && 2 <= i < j < |s| && s[j] == ')'
    requires s[i..j] != "" && ')' !in s[i..j]
    requires SubLinks(SubLinks(s[j..], f), g) == SubLinks(s[j..], h)
    ensures SubLinks(SubLinks(s, f), g) == SubLinks(s, h)
  {
    var t, rest := s[i..j], SubLinks(s[j..], f);
    NarrowPart(s, i, j);
    assert FineAt(f, t) && ComposesAt(f, g, h, t);
    SubLinksHead(s[j..], f);
    SubAt(s, i, j, f);
    SubAt(s, i, j, h);
    SubOfEdit(s, f(t), rest, i, j, g);
  }

  lemma SubOfEdit(s: string, u: string, rest: string, i: nat, j: nat, g: string -> string)
    requires NextLink(s, 0) == Some(i) && 2 <= i < j < |s| && s[j] == ')'
    requires u != "" && ')' !in u && rest != "" && rest[0] == ')'
    ensures SubLinks(s[..i] + u + rest, g) == s[..i] + g(u) + SubLinks(rest, g)
  {
    var s', j' := s[..i] + u + rest, i + |u|;
    assert s'[i..j'] == u && s'[j'..] == rest && s'[j'] == rest[0] && s'[..i] == s[..i];
    LinkSeen(s, s', i, j, j');
    SubAt(s', i, j', g);
  }

  lemma SubAt(s: string, i: nat, j: nat, g: string -> string)
    requires NextLink(s, 0) == Some(i) && i <= j <= |s| && CloseParen(s, i) == Some(j)
    ensures SubLinks(s, g) == s[..i] + g(s[i..j]) + SubLinks(s[j..], g)
  {
  }
}
