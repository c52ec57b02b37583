/**
The rewrite of a page's relative links to absolute ones, for the plain-text twins of the documentation:
line by line, outside fences, outside code spans.
*/
module LinkRewriter {
  import opened Wrappers
  import opened Text
  import opened PosixPath
  import opened Markdown
  import opened LinkEdits
  import opened LineEdits

  // ----- where a page and its twin are served -----

  predicate EndsWith(s: string, suffix: string) {
    |s| >= |suffix| && s[|s| - |suffix|..] == suffix
  }

  predicate IsIndexName(name: string) {
    name == "index.md" || name == "README.md"
  }

  /** The site URL of a source page: an index page is its directory, any other has a directory of its own. */
  function UrlFor(src: string): string
    requires EndsWith(src, ".md")
  {
    var head := UpToLastSlash(src);
    if IsIndexName(src[|head|..]) then (if |head| > 1 then head else "")
    else src[..|src| - 3] + "/"
  }

  function TwinFor(url: string): string {
    if url == "" then "index.md" else RStripSlashes(url) + ".md"
  }

  /** Where the twin is written, from the path of the rendered page. */
  function TwinUri(dest: string): Option<string> {
    if dest == "index.html" then Some("index.md")
    else if EndsWith(dest, "/index.html") then Some(dest[..|dest| - 11] + ".md")
    else if EndsWith(dest, ".html") then Some(dest[..|dest| - 5] + ".md")
    else None
  }

  function Served(path: string): string {
    if EndsWith(path, ".md") then TwinFor(UrlFor(path)) else path
  }

  function UpTo(s: string, c: char): (r: string)
    ensures r <= s && c !in r && (|r| < |s| ==> s[|r|] == c)
  {
    if s == [] || s[0] == c then [] else [s[0]] + UpTo(s[1..], c)
  }

  /** One link target made absolute, or left as it is. */
  function Absolutise(t: string, src: string, site: string): string {
    var path := UpTo(t, '#');
    if IsAbsolute(t) || path == "" then t
    else site + Served(Normpath(JoinPath(Dirname(src), path))) + t[|path|..]
  }

  function Rewriter(src: string, site: string): string -> string {
    t => Absolutise(t, src, site)
  }

  // ----- what comes out of a target -----

  /** A twin's path is a beginning of the page's, with nothing marked cut off, and `.md`. */
  lemma TwinIsAPrefix(path: string) returns (k: nat)
    requires EndsWith(path, ".md")
    ensures IsIndexName(Served(path)) || (k <= |path| && Served(path) == path[..k] + ".md" && NoTick(path[k..]))
  {
    var head := UpToLastSlash(path);
    if IsIndexName(path[|head|..]) {
      k := |RStripSlashes(head)|;
      ServedIndex(path, head);
      IndexCut(path, head);
    } else {
      var base := path[..|path| - 3];
      k := |RStripSlashes(base + "/")|;
      ServedPlain(path, base);
      BaseOf(path, base);
      PlainCut(path, base);
    }
  }

  lemma ServedIndex(path: string, head: string)
    requires EndsWith(path, ".md") && head == UpToLastSlash(path) && IsIndexName(path[|head|..])
    ensures IsIndexName(Served(path)) || Served(path) == RStripSlashes(head) + ".md"
  {
  }

  lemma ServedPlain(path: string, base: string)
    requires EndsWith(path, ".md") && base == path[..|path| - 3] && !IsIndexName(path[|UpToLastSlash(path)|..])
    ensures Served(path) == RStripSlashes(base + "/") + ".md"
  {
  }

  lemma BaseOf(path: string, base: string)
    requires EndsWith(path, ".md") && base == path[..|path| - 3]
    ensures path == base + ".md"
  {
  }

  lemma IndexCut(path: string, head: string)
    requires head <= path && IsIndexName(path[|head|..])
    ensures RStripSlashes(head) == path[..|RStripSlashes(head)|] && NoTick(path[|RStripSlashes(head)|..])
  {
    var k, name := |RStripSlashes(head)|, path[|head|..];
    assert path[k..] == head[k..] + name;
    assert NoTick("index.md") && NoTick("README.md");
  }

  lemma PlainCut(path: string, base: string)
    requires path == base + ".md"
    ensures var r := RStripSlashes(base + "/"); r <= path && NoTick(path[|r|..])
  {
    var k := |RStripSlashes(base)|;
    assert (base + "/")[..|base|] == base;
    assert RStripSlashes(base + "/") == RStripSlashes(base);
    assert path[k..] == base[k..] + ".md";
    assert NoTick(".md");
  }

  /** The three characters that would change how a line is read. */
  predicate Sensitive(c: char) {
    c == '`' || c == ')' || c == '\n'
  }

  lemma ServedFree(path: string, c: char)
    requires Sensitive(c) && c !in path
    ensures c !in Served(path)
  {
    if EndsWith(path, ".md") {
      var k := TwinIsAPrefix(path);
      CutFree(path, Served(path), k, c);
    }
  }

  lemma CutFree(path: string, served: string, k: nat, c: char)
    requires Sensitive(c) && c !in path
    requires IsIndexName(served) || (k <= |path| && served == path[..k] + ".md")
    ensures c !in served
  {
    assert c !in ".md" && c !in "index.md" && c !in "README.md";
  }

  /** The directory a target is resolved in, as text before it. */
  lemma Prefixed(src: string, path: string) returns (pre: string)
    ensures JoinPath(Dirname(src), path) == pre + path
    ensures forall c :: Sensitive(c) && c !in src ==> c !in pre
  {
    var dir := Dirname(src);
    assert dir <= src;
    pre := if path != [] && path[0] == '/' then "" else if dir == [] || dir[|dir| - 1] == '/' then dir else dir + "/";
  }

  lemma DestFree(src: string, site: string, path: string, c: char)
    requires Sensitive(c) && c !in src && c !in site && c !in path
    ensures c !in site + Served(Normpath(JoinPath(Dirname(src), path)))
  {
    var pre := Prefixed(src, path);
    NormpathFree(pre + path, c);
    ServedFree(Normpath(pre + path), c);
  }

  lemma AbsolutiseFree(t: string, src: string, site: string, c: char)
    requires Sensitive(c) && c !in t && c !in src && c !in site
    ensures c !in Absolutise(t, src, site)
  {
    var path := UpTo(t, '#');
    DestFree(src, site, path, c);
  }

  lemma ServedNotEmpty(path: string)
    requires path != ""
    ensures Served(path) != ""
  {
    if EndsWith(path, ".md") {
      var k := TwinIsAPrefix(path);
    }
  }

  lemma AbsolutiseNotEmpty(t: string, src: string, site: string)
    requires t != ""
    ensures Absolutise(t, src, site) != ""
  {
    var p := JoinPath(Dirname(src), UpTo(t, '#'));
    NormpathNotEmpty(p);
    ServedNotEmpty(Normpath(p));
  }

  lemma AbsolutiseIsAbsolute(t: string, src: string, site: string)
    requires IsAbsolute(site) && t != ""
    ensures IsAbsolute(Absolutise(t, src, site))
  {
    var path := UpTo(t, '#');
    if !IsAbsolute(t) {
      var served := Served(Normpath(JoinPath(Dirname(src), path)));
      AbsolutePrefix(site, served);
      AbsolutePrefix(site + served, t[|path|..]);
    }
  }

  // ----- the backticks of a target -----

  ghost predicate AllTicks(mark: string) {
    mark != "" && forall i :: 0 <= i < |mark| ==> mark[i] == TICK
  }

  lemma NarrowShape(t: string) returns (x: string, mark: string, y: string)
    requires Narrow(t) && !NoTick(t)
    ensures Around(t, x, mark, y) && AllTicks(mark)
  {
    var i :| 0 <= i < |t| && t[i] == TICK;
    var a := FirstTick(t, i);
    var b := if a + 1 < |t| && t[a + 1] == TICK then a + 2 else a + 1;
    x, mark, y := t[..a], t[a..b], t[b..];
    TicklessAfter(t, a, b);
    Rejoin(t, a, b);
  }

  lemma TicklessAfter(t: string, a: nat, b: nat)
    requires Narrow(t) && a < b <= |t| && t[a] == TICK && (b == |t| || t[b] != TICK)
    ensures NoTick(t[b..])
  {
    assert forall j :: b <= j < |t| ==> t[j] != TICK;
  }

  lemma {:induction false} SplitMarked(a: string, mark: string, b: string)
    returns (left: seq<string>, middle: string, right: seq<string>, x: string, y: string)
    requires NoTick(a) && NoTick(b) && '/' !in mark
    ensures Split(a + mark + b, '/') == left + [middle] + right
    ensures AllFree(left, TICK) && AllFree(right, TICK) && Around(middle, x, mark, y)
    decreases |a|
  {
    var h := UpTo(a, '/');
    if |h| < |a| {
      var a' := a[|h| + 1..];
      AfterHead(a, h, mark, b);
      SplitHead(h, '/', a' + mark + b);
      var l;
      l, middle, right, x, y := SplitMarked(a', mark, b);
      ConsMarked(h, l, middle, right);
      left := [h] + l;
    } else {
      left, x := [], a;
      middle, right, y := SplitHere(a, mark, b);
    }
  }

  lemma AfterHead(a: string, h: string, mark: string, b: string)
    requires h < a && a[|h|] == '/'
    ensures a + mark + b == h + ['/'] + (a[|h| + 1..] + mark + b)
  {
  }

  lemma SplitHere(a: string, mark: string, b: string) returns (middle: string, right: seq<string>, y: string)
    requires NoTick(a) && NoTick(b) && '/' !in a && '/' !in mark
    ensures Split(a + mark + b, '/') == [] + [middle] + right && AllFree(right, TICK) && Around(middle, a, mark, y)
  {
    SplitLast(a, mark, b);
    y := UpTo(b, '/');
    middle := a + mark + y;
    right := if |y| < |b| then Split(b[|y| + 1..], '/') else [];
    if |y| < |b| {
      SplitFree(b[|y| + 1..], '/', TICK);
    }
  }

  lemma ConsMarked(h: string, left: seq<string>, middle: string, right: seq<string>)
    requires AllFree(left, TICK) && NoTick(h)
    ensures [h] + (left + [middle] + right) == ([h] + left) + [middle] + right && AllFree([h] + left, TICK)
  {
  }

  lemma BeforeRest(a: string, mark: string, b: string, g: string)
    requires g < b && b[|g|] == '/'
    ensures a + mark + b == (a + mark + g) + ['/'] + b[|g| + 1..]
  {
  }

  lemma SplitLast(a: string, mark: string, b: string)
    requires '/' !in a && '/' !in mark
    ensures var g := UpTo(b, '/');
            Split(a + mark + b, '/') == [a + mark + g] + if |g| < |b| then Split(b[|g| + 1..], '/') else []
  {
    var g := UpTo(b, '/');
    if |g| < |b| {
      BeforeRest(a, mark, b, g);
      SplitHead(a + mark + g, '/', b[|g| + 1..]);
    } else {
      assert g == b;
      SplitPlain(a + mark + b, '/');
    }
  }

  lemma ShapeOfJoin(pre: string, kept: seq<string>, middle: string, x: string, mark: string, y: string)
    requires NoTick(pre) && OneMarked(kept, middle, TICK) && Around(middle, x, mark, y)
    ensures Shape(pre + Join(kept, '/'), mark)
  {
    if AllFree(kept, TICK) {
      JoinFree(kept, '/', TICK);
    } else {
      var left, right :| MarkedBetween(kept, left, middle, right, TICK);
      var u, v := JoinMarked(left, middle, right, TICK);
      assert pre + Join(kept, '/') == (pre + u + x) + mark + (y + v);
      assert Around(pre + Join(kept, '/'), pre + u + x, mark, y + v);
    }
  }

  lemma NormpathShape(a: string, mark: string, b: string)
    requires NoTick(a) && NoTick(b) && AllTicks(mark)
    ensures Shape(Normpath(a + mark + b), mark)
  {
    var p := a + mark + b;
    assert mark[0] == TICK;
    var left, middle, right, x, y := SplitMarked(a, mark, b);
    var rooted := InitialSlashes(p) != "";
    KeepsOneMarked(left, middle, right, rooted, TICK);
    var kept := KeepAll([], left + [middle] + right, rooted);
    ShapeOfJoin(InitialSlashes(p), kept, middle, x, mark, y);
  }

  lemma ShapePrefix(s: string, mark: string, k: nat)
    requires Shape(s, mark) && k <= |s| && NoTick(s[k..]) && AllTicks(mark)
    ensures Shape(s[..k], mark)
  {
    if !NoTick(s) {
      var x, y :| Around(s, x, mark, y);
      var e := |x| + |mark|;
      assert s[e - 1] == mark[|mark| - 1];
      assert forall i :: k <= i < |s| ==> s[i] == s[k..][i - k];
      assert Around(s[..k], x, mark, y[..k - e]);
    }
  }

  lemma ShapeWrap(pre: string, s: string, post: string, mark: string)
    requires Shape(s, mark) && NoTick(pre) && NoTick(post)
    ensures Shape(pre + s + post, mark)
  {
    if !NoTick(s) {
      var x, y :| Around(s, x, mark, y);
      assert Around(pre + s + post, pre + x, mark, y + post);
    }
  }

  lemma ShapeAppend(s: string, post: string, mark: string)
    requires Shape(s, mark) && NoTick(post)
    ensures Shape(s + post, mark)
  {
    assert "" + s + post == s + post;
    ShapeWrap("", s, post, mark);
  }

  lemma ServedShape(path: string, mark: string)
    requires Shape(path, mark) && AllTicks(mark)
    ensures Shape(Served(path), mark)
  {
    if EndsWith(path, ".md") {
      var k := TwinIsAPrefix(path);
      CutShape(path, Served(path), k, mark);
    }
  }

  lemma CutShape(path: string, served: string, k: nat, mark: string)
    requires Shape(path, mark) && AllTicks(mark)
    requires IsIndexName(served) || (k <= |path| && served == path[..k] + ".md" && NoTick(path[k..]))
    ensures Shape(served, mark)
  {
    if !IsIndexName(served) {
      ShapePrefix(path, mark, k);
      ShapeAppend(path[..k], ".md", mark);
    }
  }

  lemma DestShape(src: string, site: string, x: string, mark: string, y: string)
    requires NoTick(src) && NoTick(site) && NoTick(x) && NoTick(y) && AllTicks(mark)
    ensures Shape(site + Served(Normpath(JoinPath(Dirname(src), x + mark + y))), mark)
  {
    var path := x + mark + y;
    var pre := Prefixed(src, path);
    assert pre + path == (pre + x) + mark + y;
    NormpathShape(pre + x, mark, y);
    var r := Normpath(pre + path);
    ServedShape(r, mark);
    ShapeWrap(site, Served(r), "", mark);
    assert site + Served(r) + "" == site + Served(r);
  }

  lemma KeptAfter(a: string, b: string, rest: string, x: string, mark: string, y: string)
    requires NoTick(a) && NoTick(b) && Around(rest, x, mark, y)
    ensures TicksKept(a + rest, b + rest)
  {
    assert Around(a + rest, a + x, mark, y);
    assert Around(b + rest, b + x, mark, y);
    assert Marks(a + rest, mark) && Marks(b + rest, mark);
  }

  lemma KeptBefore(a: string, b: string, rest: string, x: string, mark: string, y: string)
    requires Around(a, x, mark, y) && Shape(b, mark) && NoTick(rest)
    ensures TicksKept(a + rest, b + rest)
  {
    if !NoTick(b) {
      var x', y' :| Around(b, x', mark, y');
      assert Around(a + rest, x, mark, y + rest);
      assert Around(b + rest, x', mark, y' + rest);
      assert Marks(a + rest, mark) && Marks(b + rest, mark);
    }
  }

  lemma HashApart(t: string, path: string)
    requires Narrow(t) && path <= t && !NoTick(path) && (|path| < |t| ==> t[|path|] == '#')
    ensures NoTick(t[|path|..])
  {
    var i :| 0 <= i < |path| && path[i] == TICK;
    assert t[i] == TICK;
    assert forall j :: |path| <= j < |t| ==> t[j] != TICK;
  }

  lemma AbsolutiseKeepsTicks(t: string, src: string, site: string)
    requires NoTick(src) && NoTick(site) && Narrow(t)
    ensures TicksKept(t, Absolutise(t, src, site))
  {
    var path := UpTo(t, '#');
    var rest := t[|path|..];
    assert t == path + rest;
    if IsAbsolute(t) || path == "" {
      if !NoTick(t) {
        var x, mark, y := NarrowShape(t);
        assert Marks(t, mark);
      }
    } else {
      var dest := site + Served(Normpath(JoinPath(Dirname(src), path)));
      if NoTick(path) {
        DestFree(src, site, path, TICK);
        if !NoTick(rest) {
          NarrowPart(t, |path|, |t|);
          var x, mark, y := NarrowShape(rest);
          KeptAfter(path, dest, rest, x, mark, y);
        }
      } else {
        HashApart(t, path);
        NarrowPart(t, 0, |path|);
        var x, mark, y := NarrowShape(path);
        DestShape(src, site, x, mark, y);
        KeptBefore(path, dest, rest, x, mark, y);
      }
    }
  }

  // ----- the replacement keeps a line's structure -----

  /** What the rewrite asks of the site's address and the page's path. */
  predicate Harmless(s: string) {
    '`' !in s && ')' !in s && '\n' !in s
  }

  lemma HarmlessIff(s: string)
    ensures Harmless(s) <==> forall c :: c in s ==> c != '`' && c != ')' && c != '\n'
  {
  }

  lemma RewriterIsFine(src: string, site: string)
    requires Harmless(src) && Harmless(site)
    ensures Fine(Rewriter(src, site)) && AddsNo(Rewriter(src, site), '\n')
  {
    var f := Rewriter(src, site);
    forall t
      ensures FineAt(f, t)
    {
      if t != "" && ')' !in t && Narrow(t) {
        AbsolutiseNotEmpty(t, src, site);
        AbsolutiseFree(t, src, site, ')');
        AbsolutiseKeepsTicks(t, src, site);
      }
    }
    forall t
      ensures FreeAt(f, '\n', t)
    {
      if '\n' !in t {
        AbsolutiseFree(t, src, site, '\n');
      }
    }
  }

  // ----- one line -----

  lemma {:induction false} NextSpanLater(s: string, pos: nat, from: nat)
    requires pos + from <= |s|
    ensures NextSpan(s, pos + from).None? <==> NextSpan(s[pos..], from).None?
    ensures NextSpan(s, pos + from).Some? ==> NextSpan(s[pos..], from) == Some(NextSpan(s, pos + from).value - pos)
    decreases |s| - from
  {
    assert s[pos..][from..] == s[pos + from..];
    if SpanLength(s[pos + from..]).None? && pos + from < |s| {
      NextSpanLater(s, pos, from + 1);
    }
  }

  lemma RewrittenNoSpan(s: string, f: string -> string)
    requires NextSpan(s, 0) == None
    ensures Rewritten(s, f) == SubLinks(s, f)
  {
    assert Pieces(s) == [Prose(s)];
    RewrittenOne(s, f);
    TextOfOne(SubLinks(s, f));
  }

  lemma SpanFrom(line: string, pos: nat) returns (a: nat, n: nat)
    requires pos <= |line| && NextSpan(line, pos).Some?
    ensures NextSpan(line, pos) == Some(a) && pos <= a <= |line|
    ensures SpanLength(line[a..]) == Some(n) && n >= 3 && a + n <= |line|
    ensures NextSpan(line[pos..], 0) == Some(a - pos)
  {
    NextSpanIs(line, pos);
    a := NextSpan(line, pos).value;
    n := SpanLength(line[a..]).value;
    TryRunsIsSpan(line[a..], RunLength(line[a..]));
    NextSpanLater(line, pos, 0);
  }

  /** `s` is prose, then its first code span, then the rest. */
  ghost predicate IsCut(s: string, prose: string, code: string, rest: string) {
    && s == prose + (code + rest) && code != ""
    && NextSpan(s, 0) == Some(|prose|) && SpanLength(code + rest) == Some(|code|)
  }

  lemma RewrittenFrom(s: string, f: string -> string, prose: string, code: string, rest: string)
    requires IsCut(s, prose, code, rest)
    ensures Rewritten(s, f) == SubLinks(prose, f) + (code + Rewritten(rest, f))
  {
    PiecesOfCut(s, prose, code, rest);
    RewrittenCut(s, f, prose, code, rest);
  }

  lemma PiecesOfCut(s: string, prose: string, code: string, rest: string)
    requires IsCut(s, prose, code, rest)
    ensures Pieces(s) == [Prose(prose), Code(code)] + Pieces(rest)
  {
    CutSlices(prose, code, rest);
    PiecesNamed(s, |prose|, |code|, prose, code, rest);
  }

  lemma PiecesNamed(s: string, a: nat, n: nat, prose: string, code: string, rest: string)
    requires a + n <= |s| && prose == s[..a] && code == s[a..a + n] && rest == s[a + n..]
    requires NextSpan(s, 0) == Some(a) && SpanLength(s[a..]) == Some(n)
    ensures Pieces(s) == [Prose(prose), Code(code)] + Pieces(rest)
  {
    PiecesUnfold(s, a, n);
  }

  lemma CutSlices(a: string, b: string, c: string)
    ensures var s := a + (b + c);
            && s[..|a|] == a && s[|a|..] == b + c
            && s[|a|..|a| + |b|] == b && s[|a| + |b|..] == c
  {
  }

  lemma MakesCut(s: string, prose: string, whole: string, code: string, rest: string)
    requires s == prose + whole && whole == code + rest && code != ""
    requires NextSpan(s, 0) == Some(|prose|) && SpanLength(whole) == Some(|code|)
    ensures IsCut(s, prose, code, rest)
  {
  }

  lemma SpanIsCut(line: string, pos: nat, start: nat, end: nat)
    requires pos <= start < end <= |line| && SpanLength(line[start..]) == Some(end - start)
    requires NextSpan(line[pos..], 0) == Some(start - pos)
    ensures IsSpan(line, pos, start, end)
  {
    Slices(line, pos, start, end);
    MakesCut(line[pos..], line[pos..start], line[start..], line[start..end], line[end..]);
  }

  lemma Slices(line: string, pos: nat, start: nat, end: nat)
    requires pos <= start <= end <= |line|
    ensures line[start..end] + line[end..] == line[start..]
    ensures line[pos..start] + line[start..] == line[pos..]
  {
  }

  lemma RewrittenCut(s: string, f: string -> string, prose: string, code: string, rest: string)
    requires Pieces(s) == [Prose(prose), Code(code)] + Pieces(rest)
    ensures Rewritten(s, f) == SubLinks(prose, f) + (code + Rewritten(rest, f))
  {
    RewrittenCons(prose, code, Pieces(rest), f);
    TextOfCons(SubLinks(prose, f), code, RewrittenPieces(Pieces(rest), f));
  }

  /** The next code span at or after `pos`: where it starts and ends. */
  method FindSpan(line: string, pos: nat) returns (span: Option<(nat, nat)>)
    requires pos <= |line|
    ensures span.Some? ==> IsSpan(line, pos, span.value.0, span.value.1)
    ensures span.None? ==> NextSpan(line[pos..], 0) == None
  {
    NextSpanLater(line, pos, 0);
    match NextSpan(line, pos)
    case None => span := None;
    case Some(start) =>
      ghost var a, n := SpanFrom(line, pos);
      var end := start + SpanLength(line[start..]).value;
      SpanIsCut(line, pos, start, end);
      span := Some((start, end));
  }

  ghost predicate IsSpan(line: string, pos: nat, start: nat, end: nat) {
    pos <= start < end <= |line| && IsCut(line[pos..], line[pos..start], line[start..end], line[end..])
  }

  method RewriteLine(line: string, src: string, site: string) returns (text: string)
    ensures text == Rewritten(line, Rewriter(src, site))
  {
    var f := Rewriter(src, site);
    text := "";
    var pos := 0;
    assert line[0..] == line;
    var span := FindSpan(line, pos);
    while span.Some?
      invariant pos <= |line|
      invariant span.Some? ==> IsSpan(line, pos, span.value.0, span.value.1)
      invariant span.None? ==> NextSpan(line[pos..], 0) == None
      invariant Rewritten(line, f) == text + Rewritten(line[pos..], f)
      decreases |line| - pos
    {
      var (start, end) := span.value;
      RewrittenFrom(line[pos..], f, line[pos..start], line[start..end], line[end..]);
      Assoc(text, SubLinks(line[pos..start], f), line[start..end], Rewritten(line[end..], f));
      text := text + SubLinks(line[pos..start], f) + line[start..end];
      pos := end;
      span := FindSpan(line, pos);
    }
    RewrittenNoSpan(line[pos..], f);
    text := text + SubLinks(line[pos..], f);
  }
}
