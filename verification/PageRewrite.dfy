/** The link rewrite over a whole page, and what it is for. */
module PageRewrite {
  import opened Wrappers
  import opened Text
  import opened Markdown
  import opened LinkEdits
  import opened LineEdits
  import opened LinkRewriter
  import LinkTargets

  // ----- the page as lines, in and out of fences -----

  function NextFence(line: string, inFence: bool): bool {
    if IsFence(line) then !inFence else inFence
  }

  /** Whether a fence is open before line `i`. */
  function FenceBefore(lines: seq<string>, i: nat): bool
    requires i <= |lines|
  {
    i > 0 && NextFence(lines[i - 1], FenceBefore(lines, i - 1))
  }

  /** Line `i` is a fence line or between fences. */
  predicate IsFenced(lines: seq<string>, i: nat)
    requires i < |lines|
  {
    IsFence(lines[i]) || FenceBefore(lines, i)
  }

  function LineNow(lines: seq<string>, i: nat, f: string -> string): string
    requires i < |lines|
  {
    if IsFenced(lines, i) then lines[i] else Rewritten(lines[i], f)
  }

  function RewrittenLines(lines: seq<string>, f: string -> string): (lines': seq<string>)
    ensures |lines'| == |lines| && forall i :: 0 <= i < |lines| ==> lines'[i] == LineNow(lines, i, f)
  {
    seq(|lines|, i requires 0 <= i < |lines| => LineNow(lines, i, f))
  }

  function RewrittenPage(page: string, src: string, site: string): string {
    Join(RewrittenLines(Split(page, '\n'), Rewriter(src, site)), '\n')
  }

  method RewriteLinks(page: string, src: string, site: string) returns (text: string)
    ensures text == RewrittenPage(page, src, site)
  {
    var lines := Split(page, '\n');
    ghost var f := Rewriter(src, site);
    ghost var expected := RewrittenLines(lines, f);
    var parts: seq<string> := [];
    var inFence := false;
    for i := 0 to |lines|
      invariant parts == expected[..i]
      invariant inFence == FenceBefore(lines, i)
    {
      assert expected[..i + 1] == expected[..i] + [LineNow(lines, i, f)];
      if IsFence(lines[i]) {
        inFence := !inFence;
        parts := parts + [lines[i]];
      } else if inFence {
        parts := parts + [lines[i]];
      } else {
        var line := RewriteLine(lines[i], src, site);
        parts := parts + [line];
      }
    }
    assert parts == expected;
    text := Join(parts, '\n');
  }

  // ----- the lines of the rewritten page -----

  ghost predicate NoNewlines(lines: seq<string>) {
    forall i :: 0 <= i < |lines| ==> '\n' !in lines[i]
  }

  lemma RewrittenLinesAreLines(lines: seq<string>, f: string -> string)
    requires AddsNo(f, '\n') && NoNewlines(lines)
    ensures NoNewlines(RewrittenLines(lines, f))
  {
    forall i | 0 <= i < |lines|
      ensures '\n' !in LineNow(lines, i, f)
    {
      RewrittenFree(lines[i], f, '\n');
    }
  }

  /** The rewritten page has the lines the rewrite made, one for each line. */
  lemma LinesOfRewritten(page: string, src: string, site: string)
    requires Harmless(src) && Harmless(site)
    ensures Split(RewrittenPage(page, src, site), '\n') == RewrittenLines(Split(page, '\n'), Rewriter(src, site))
  {
    var lines, f := Split(page, '\n'), Rewriter(src, site);
    JoinSplit(page, '\n');
    RewriterIsFine(src, site);
    RewrittenLinesAreLines(lines, f);
    SplitJoin(RewrittenLines(lines, f), '\n');
  }

  // ----- what stays -----

  function CodeIn(ps: seq<Piece>): seq<string> {
    if ps == [] then [] else (if ps[0].Code? then [ps[0].text] else []) + CodeIn(ps[1..])
  }

  function CodeSpans(line: string): seq<string> {
    CodeIn(Pieces(line))
  }

  lemma {:induction false} CodeStays(ps: seq<Piece>, f: string -> string)
    ensures CodeIn(RewrittenPieces(ps, f)) == CodeIn(ps)
  {
    if ps != [] {
      assert RewrittenPieces(ps, f)[1..] == RewrittenPieces(ps[1..], f);
      CodeStays(ps[1..], f);
    }
  }

  lemma {:induction false} FencesStay(lines: seq<string>, f: string -> string, i: nat)
    requires i <= |lines|
    ensures FenceBefore(RewrittenLines(lines, f), i) == FenceBefore(lines, i)
  {
    if i > 0 {
      FencesStay(lines, f, i - 1);
      FenceOfRewritten(lines[i - 1], f);
      assert RewrittenLines(lines, f)[i - 1] == LineNow(lines, i - 1, f);
    }
  }

  /** Line by line: fenced lines stay fenced and unchanged, the others keep every code span. */
  lemma CodeIsUnchanged(page: string, src: string, site: string, i: nat)
    requires Harmless(src) && Harmless(site) && i < |Split(page, '\n')|
    ensures var lines, lines' := Split(page, '\n'), Split(RewrittenPage(page, src, site), '\n');
      && |lines'| == |lines|
      && IsFenced(lines', i) == IsFenced(lines, i)
      && (IsFenced(lines, i) ==> lines'[i] == lines[i])
      && (!IsFenced(lines, i) ==> CodeSpans(lines'[i]) == CodeSpans(lines[i]))
  {
    var lines, f := Split(page, '\n'), Rewriter(src, site);
    LinesOfRewritten(page, src, site);
    RewriterIsFine(src, site);
    FencesStay(lines, f, i);
    FenceOfRewritten(lines[i], f);
    PiecesOfRewritten(lines[i], f);
    CodeStays(Pieces(lines[i]), f);
  }

  /** The page with every target blanked out: all there is to it but its links' targets. */
  function Blanked(page: string): string {
    Join(RewrittenLines(Split(page, '\n'), Blank()), '\n')
  }

  function Blank(): string -> string {
    t => "-"
  }

  lemma LineBlanked(lines: seq<string>, f: string -> string, i: nat)
    requires Fine(f) && i < |lines|
    ensures LineNow(RewrittenLines(lines, f), i, Blank()) == LineNow(lines, i, Blank())
  {
    assert RewrittenLines(lines, f)[i] == LineNow(lines, i, f);
    FencesStay(lines, f, i);
    FenceOfRewritten(lines[i], f);
    if !IsFenced(lines, i) {
      forall t
        ensures ComposesAt(f, Blank(), Blank(), t)
      {
      }
      RewrittenCompose(lines[i], f, Blank(), Blank());
    }
  }

  /** Nothing but targets changes: blank them out, and the page and its rewriting are the same. */
  lemma OnlyTargetsChange(page: string, src: string, site: string)
    requires Harmless(src) && Harmless(site)
    ensures Blanked(RewrittenPage(page, src, site)) == Blanked(page)
  {
    var lines, f := Split(page, '\n'), Rewriter(src, site);
    LinesOfRewritten(page, src, site);
    RewriterIsFine(src, site);
    forall i | 0 <= i < |lines|
      ensures LineNow(RewrittenLines(lines, f), i, Blank()) == LineNow(lines, i, Blank())
    {
      LineBlanked(lines, f, i);
    }
    assert RewrittenLines(RewrittenLines(lines, f), Blank()) == RewrittenLines(lines, Blank());
  }

  // ----- what goes -----

  /** The link targets of a page, outside fences and code spans. */
  function LinksOn(lines: seq<string>, i: nat): seq<string>
    requires i < |lines|
  {
    if IsFenced(lines, i) then [] else LineLinks(lines[i])
  }

  function LinksByLine(lines: seq<string>): (tss: seq<seq<string>>)
    ensures |tss| == |lines| && forall i :: 0 <= i < |lines| ==> tss[i] == LinksOn(lines, i)
  {
    seq(|lines|, i requires 0 <= i < |lines| => LinksOn(lines, i))
  }

  function Flatten(tss: seq<seq<string>>): seq<string> {
    if tss == [] then [] else Flatten(tss[..|tss| - 1]) + tss[|tss| - 1]
  }

  function PageLinks(page: string): seq<string> {
    Flatten(LinksByLine(Split(page, '\n')))
  }

  function RelativeOf(ts: seq<string>): seq<string> {
    if ts == [] then [] else (if IsAbsolute(ts[0]) then [] else [ts[0]]) + RelativeOf(ts[1..])
  }

  function SurvivingRelativeLinks(page: string): seq<string> {
    RelativeOf(PageLinks(page))
  }

  lemma MapLinksAppend(a: seq<string>, b: seq<string>, f: string -> string)
    ensures MapLinks(a + b, f) == MapLinks(a, f) + MapLinks(b, f)
  {
  }

  lemma {:induction false} MapFlatten(tss: seq<seq<string>>, uss: seq<seq<string>>, f: string -> string)
    requires |uss| == |tss| && forall i :: 0 <= i < |tss| ==> uss[i] == MapLinks(tss[i], f)
    ensures Flatten(uss) == MapLinks(Flatten(tss), f)
  {
    if tss != [] {
      var n := |tss| - 1;
      MapFlatten(tss[..n], uss[..n], f);
      MapLinksAppend(Flatten(tss[..n]), tss[n], f);
    }
  }

  lemma LinksOfLine(lines: seq<string>, f: string -> string, i: nat)
    requires Fine(f) && i < |lines|
    ensures LinksOn(RewrittenLines(lines, f), i) == MapLinks(LinksOn(lines, i), f)
  {
    assert RewrittenLines(lines, f)[i] == LineNow(lines, i, f);
    FencesStay(lines, f, i);
    FenceOfRewritten(lines[i], f);
    if !IsFenced(lines, i) {
      LineLinksRewritten(lines[i], f);
    }
  }

  /** The links of the rewritten page are the page's links, each made absolute, in order. */
  lemma PageLinksRewritten(page: string, src: string, site: string)
    requires Harmless(src) && Harmless(site)
    ensures PageLinks(RewrittenPage(page, src, site)) == MapLinks(PageLinks(page), Rewriter(src, site))
  {
    RewriterIsFine(src, site);
    LinesOfRewritten(page, src, site);
    var lines, f := Split(page, '\n'), Rewriter(src, site);
    var tss, uss := LinksByLine(lines), LinksByLine(RewrittenLines(lines, f));
    forall i | 0 <= i < |lines|
      ensures uss[i] == MapLinks(tss[i], f)
    {
      LinksOfLine(lines, f, i);
    }
    MapFlatten(tss, uss, f);
  }

  ghost predicate NotEmpty(ts: seq<string>) {
    forall i :: 0 <= i < |ts| ==> ts[i] != ""
  }

  lemma {:induction false} TargetsNotEmpty(s: string)
    ensures NotEmpty(Links(s))
    decreases |s|
  {
    if NextLink(s, 0).Some? {
      var i, j := FirstLink(s, t => t);
      TargetsNotEmpty(s[j..]);
    }
  }

  lemma {:induction false} PieceTargetsNotEmpty(ps: seq<Piece>)
    ensures NotEmpty(PieceLinks(ps))
  {
    if ps != [] {
      if ps[0].Prose? {
        TargetsNotEmpty(ps[0].text);
      }
      PieceTargetsNotEmpty(ps[1..]);
    }
  }

  lemma {:induction false} NotEmptyFlatten(tss: seq<seq<string>>)
    requires forall i :: 0 <= i < |tss| ==> NotEmpty(tss[i])
    ensures NotEmpty(Flatten(tss))
  {
    if tss != [] {
      NotEmptyFlatten(tss[..|tss| - 1]);
    }
  }

  lemma PageTargetsNotEmpty(page: string)
    ensures NotEmpty(PageLinks(page))
  {
    var lines := Split(page, '\n');
    var tss := LinksByLine(lines);
    forall i | 0 <= i < |tss|
      ensures NotEmpty(tss[i])
    {
      PieceTargetsNotEmpty(Pieces(lines[i]));
    }
    NotEmptyFlatten(tss);
  }

  ghost predicate AllAbsolute(ts: seq<string>) {
    forall i :: 0 <= i < |ts| ==> IsAbsolute(ts[i])
  }

  lemma {:induction false} NoneRelative(ts: seq<string>)
    ensures RelativeOf(ts) == [] <==> AllAbsolute(ts)
  {
    if ts != [] {
      NoneRelative(ts[1..]);
      assert forall i :: 1 <= i < |ts| ==> ts[i] == ts[1..][i - 1];
    }
  }

  lemma RewrittenAreAbsolute(ts: seq<string>, src: string, site: string)
    requires NotEmpty(ts) && IsAbsolute(site)
    ensures AllAbsolute(MapLinks(ts, Rewriter(src, site)))
  {
    forall i | 0 <= i < |ts|
      ensures IsAbsolute(Absolutise(ts[i], src, site))
    {
      AbsolutiseIsAbsolute(ts[i], src, site);
    }
  }

  /** No relative link is left outside fences and code spans. */
  lemma NoRelativeLinkSurvives(page: string, src: string, site: string)
    requires Harmless(src) && Harmless(site) && IsAbsolute(site)
    ensures SurvivingRelativeLinks(RewrittenPage(page, src, site)) == []
  {
    PageLinksRewritten(page, src, site);
    PageTargetsNotEmpty(page);
    RewrittenAreAbsolute(PageLinks(page), src, site);
    NoneRelative(PageLinks(RewrittenPage(page, src, site)));
  }

  // ----- once is enough -----

  lemma {:induction false} FixesFlatten(tss: seq<seq<string>>, i: nat, f: string -> string)
    requires i < |tss| && Fixes(f, Flatten(tss))
    ensures Fixes(f, tss[i])
  {
    var n := |tss| - 1;
    FixesBoth(f, Flatten(tss[..n]), tss[n]);
    if i < n {
      FixesFlatten(tss[..n], i, f);
    }
  }

  lemma LineIsFixed(lines: seq<string>, i: nat, f: string -> string)
    requires i < |lines| && Fixes(f, Flatten(LinksByLine(lines)))
    ensures LineNow(lines, i, f) == lines[i]
  {
    FixesFlatten(LinksByLine(lines), i, f);
    if !IsFenced(lines, i) {
      LineFixed(lines[i], f);
    }
  }

  /** A page none of whose links is relative is left as it is. */
  lemma AbsolutePageIsUnchanged(page: string, src: string, site: string)
    requires SurvivingRelativeLinks(page) == []
    ensures RewrittenPage(page, src, site) == page
  {
    var ts := PageLinks(page);
    NoneRelative(ts);
    assert Fixes(Rewriter(src, site), ts);
    var lines, f := Split(page, '\n'), Rewriter(src, site);
    forall i | 0 <= i < |lines|
      ensures LineNow(lines, i, f) == lines[i]
    {
      LineIsFixed(lines, i, f);
    }
    assert RewrittenLines(lines, f) == lines;
    JoinSplit(page, '\n');
  }

  lemma RewriteIsIdempotent(page: string, src: string, site: string)
    requires Harmless(src) && Harmless(site) && IsAbsolute(site)
    ensures RewrittenPage(RewrittenPage(page, src, site), src, site) == RewrittenPage(page, src, site)
  {
    NoRelativeLinkSurvives(page, src, site);
    AbsolutePageIsUnchanged(RewrittenPage(page, src, site), src, site);
  }

  // ----- the site's address must be absolute itself -----

  lemma TheLinkOf(s: string)
    requires s == "[a](b)"
    ensures Narrow(s) && Links(s) == ["b"]
  {
    assert s[5] == ')' && s[4] == 'b' && s[3] == '(' && s[2] == ']';
    ParenAt(s, 4, 5);
    assert LinkAt(s, 4);
    assert forall k :: 0 <= k < 4 ==> !LinkAt(s, k);
    assert NextLink(s, 0) == Some(4);
    assert s[4..5] == "b";
    assert s[5..] == ")";
    assert NextLink(")", 0) == None;
  }

  lemma OneLink() returns (s: string)
    ensures !IsFence(s) && '\n' !in s && LineLinks(s) == ["b"]
  {
    s :| s == "[a](b)";
    TheLinkOf(s);
    NarrowHasNoSpan(s);
    OneProse(s);
    assert SkipBlanks(s) == s;
  }

  lemma OneProse(s: string)
    ensures PieceLinks([Prose(s)]) == Links(s)
  {
    assert [Prose(s)][1..] == [];
    assert PieceLinks([Prose(s)]) == Links(s) + PieceLinks([]);
  }

  lemma PageOfOneLine(s: string)
    requires '\n' !in s && !IsFence(s)
    ensures PageLinks(s) == LineLinks(s)
  {
    SplitPlain(s, '\n');
    assert LinksByLine([s]) == [LineLinks(s)];
    assert Flatten([LineLinks(s)]) == Flatten([]) + LineLinks(s);
  }

  lemma {:induction false} SchemeNeedsColon(s: string)
    requires SchemeRest(s + "b")
    ensures SchemeRest(s)
  {
    assert !SchemeRest("b");
    assert "" + "b" == "b";
    if s != "" {
      assert (s + "b")[0] == s[0] && (s + "b")[1..] == s[1..] + "b";
      if s[0] != ':' {
        SchemeNeedsColon(s[1..]);
      }
    }
  }

  lemma NotAbsolute(site: string)
    requires IsAbsolute(site + "b")
    ensures IsAbsolute(site)
  {
    if site != "" {
      assert (site + "b")[0] == site[0] && (site + "b")[1..] == site[1..] + "b";
      if 'a' <= site[0] <= 'z' {
        SchemeNeedsColon(site[1..]);
      }
    }
  }

  lemma TheRewrittenLink(src: string, site: string)
    requires '/' !in src
    ensures Absolutise("b", src, site) == site + "b"
  {
    LinkTargets.SameDirectory(src, "b", site);
  }

  ghost predicate CleanAt(page: string, src: string, site: string) {
    Harmless(src) ==> SurvivingRelativeLinks(RewrittenPage(page, src, site)) == []
  }

  ghost predicate AlwaysClean(site: string) {
    forall page, src :: CleanAt(page, src, site)
  }

  /** The rewrite clears every page exactly if the site's address reads as absolute: a lowercase scheme, `//` or `#`. */
  lemma CleanIffSiteIsAbsolute(site: string)
    requires Harmless(site)
    ensures AlwaysClean(site) <==> IsAbsolute(site)
  {
    if IsAbsolute(site) {
      forall page, src
        ensures CleanAt(page, src, site)
      {
        if Harmless(src) {
          NoRelativeLinkSurvives(page, src, site);
        }
      }
    } else {
      var page, src := OneSurvives(site);
    }
  }

  lemma OneSurvives(site: string) returns (page: string, src: string)
    requires Harmless(site) && !IsAbsolute(site)
    ensures !CleanAt(page, src, site)
  {
    page := OneLink();
    src := "";
    PageOfOneLine(page);
    var page' := RewrittenPage(page, src, site);
    PageLinksRewritten(page, src, site);
    TheRewrittenLink(src, site);
    assert PageLinks(page')[0] == site + "b";
    NoneRelative(PageLinks(page'));
    if IsAbsolute(site + "b") {
      NotAbsolute(site);
    }
  }
}
