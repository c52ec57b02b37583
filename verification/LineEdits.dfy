/** The link rewrite on a whole line: prose is rewritten, code spans are copied, and the line stays cut the same way. */
module LineEdits {
  import opened Wrappers
  import opened Markdown
  import opened LinkEdits

  function RewrittenPiece(p: Piece, f: string -> string): Piece {
    match p
    case Prose(t) => Prose(SubLinks(t, f))
    case Code(_) => p
  }

  function RewrittenPieces(ps: seq<Piece>, f: string -> string): seq<Piece> {
    if ps == [] then [] else [RewrittenPiece(ps[0], f)] + RewrittenPieces(ps[1..], f)
  }

  function Rewritten(line: string, f: string -> string): string {
    TextOf(RewrittenPieces(Pieces(line), f))
  }

  function PieceLinks(ps: seq<Piece>): seq<string> {
    if ps == [] then []
    else (match ps[0] case Prose(t) => Links(t) case Code(_) => []) + PieceLinks(ps[1..])
  }

  /** The link targets of a line, outside its code spans. */
  function LineLinks(line: string): seq<string> {
    PieceLinks(Pieces(line))
  }

  lemma RewrittenCons(prose: string, code: string, ps: seq<Piece>, f: string -> string)
    ensures RewrittenPieces([Prose(prose), Code(code)] + ps, f)
         == [Prose(SubLinks(prose, f)), Code(code)] + RewrittenPieces(ps, f)
  {
    var all := [Prose(prose), Code(code)] + ps;
    assert all[1..] == [Code(code)] + ps;
    assert all[1..][1..] == ps;
  }

  lemma RewrittenOne(prose: string, f: string -> string)
    ensures RewrittenPieces([Prose(prose)], f) == [Prose(SubLinks(prose, f))]
  {
    assert [Prose(prose)][1..] == [];
  }

  lemma RewrittenNarrow(s: string, f: string -> string)
    requires Narrow(s)
    ensures RewrittenPieces(Pieces(s), f) == [Prose(SubLinks(s, f))] && Rewritten(s, f) == SubLinks(s, f)
  {
    NarrowHasNoSpan(s);
    RewrittenOne(s, f);
    TextOfOne(SubLinks(s, f));
  }

  /** A line that is not narrow, and its rewriting: prose, the same span, and the rest rewritten. */
  lemma RewrittenStart(s: string, f: string -> string) returns (prose: string, code: string, rest: string)
    requires !Narrow(s)
    ensures s == prose + (code + rest) && NoTick(prose) && 3 <= |code| && SpanLength(code + rest) == Some(|code|)
    ensures Pieces(s) == [Prose(prose), Code(code)] + Pieces(rest)
    ensures RewrittenPieces(Pieces(s), f) == [Prose(SubLinks(prose, f)), Code(code)] + RewrittenPieces(Pieces(rest), f)
    ensures Rewritten(s, f) == SubLinks(prose, f) + (code + Rewritten(rest, f))
  {
    prose, code, rest := ProseThenSpan(s);
    RewrittenCons(prose, code, Pieces(rest), f);
    TextOfCons(SubLinks(prose, f), code, RewrittenPieces(Pieces(rest), f));
  }

  // ----- spans stay spans -----

  lemma NoTickIsNarrow(s: string)
    requires NoTick(s)
    ensures Narrow(s)
  {
  }

  lemma Assoc(c: string, p: string, code: string, r: string)
    ensures c + (p + (code + r)) == (c + p + code) + r && c + p + (code + r) == (c + p + code) + r
  {
  }

  /** Rewriting all that comes after a span leaves it the span it was. */
  lemma {:induction false} RestKeepsSpan(c: string, s: string, f: string -> string, n: nat)
    requires Fine(f) && n <= |c| && SpanLength(c + s) == Some(n)
    ensures SpanLength(c + Rewritten(s, f)) == Some(n)
    decreases |s|
  {
    if Narrow(s) {
      RewrittenNarrow(s, f);
      assert c + s + "" == c + s;
      ProseKeeps(c, s, "", f, Some(n));
      assert c + SubLinks(s, f) + "" == c + SubLinks(s, f);
    } else {
      var prose, code, rest := RewrittenStart(s, f);
      NoTickIsNarrow(prose);
      Assoc(c, prose, code, rest);
      assert c + prose + (code + rest) == c + s;
      ProseKeeps(c, prose, code + rest, f, Some(n));
      Assoc(c, SubLinks(prose, f), code, rest);
      RestKeepsSpan(c + SubLinks(prose, f) + code, rest, f, n);
      Assoc(c, SubLinks(prose, f), code, Rewritten(rest, f));
    }
  }

  /** A rewritten line is cut into prose and code where the line was. */
  lemma {:induction false} PiecesOfRewritten(s: string, f: string -> string)
    requires Fine(f)
    ensures Pieces(Rewritten(s, f)) == RewrittenPieces(Pieces(s), f)
    decreases |s|
  {
    if Narrow(s) {
      RewrittenNarrow(s, f);
      assert "" + s + "" == s && "" + SubLinks(s, f) + "" == SubLinks(s, f);
      ProseKeeps("", s, "", f, None);
      NarrowHasNoSpan(SubLinks(s, f));
    } else {
      var prose, code, rest := RewrittenStart(s, f);
      PiecesOfRewritten(rest, f);
      ProseStaysTickless(prose, f);
      RestKeepsSpan(code, rest, f, |code|);
      StartAgain(SubLinks(prose, f), code, Rewritten(rest, f));
    }
  }

  lemma StartAgain(prose: string, code: string, rest: string)
    requires NoTick(prose) && SpanLength(code + rest) == Some(|code|)
    ensures Pieces(prose + (code + rest)) == [Prose(prose), Code(code)] + Pieces(rest)
  {
    PiecesStart(prose, code + rest, |code|);
    assert (code + rest)[..|code|] == code && (code + rest)[|code|..] == rest;
  }

  // ----- links are rewritten, and once is enough -----

  ghost predicate ProseIsNarrow(ps: seq<Piece>) {
    forall i :: 0 <= i < |ps| && ps[i].Prose? ==> Narrow(ps[i].text)
  }

  lemma {:induction false} PiecesAreNarrow(s: string)
    ensures ProseIsNarrow(Pieces(s))
    decreases |s|
  {
    if Narrow(s) {
      NarrowHasNoSpan(s);
    } else {
      var prose, code, rest := ProseThenSpan(s);
      NoTickIsNarrow(prose);
      PiecesAreNarrow(rest);
      NarrowCons(prose, code, Pieces(rest));
    }
  }

  lemma NarrowCons(prose: string, code: string, ps: seq<Piece>)
    requires Narrow(prose) && ProseIsNarrow(ps)
    ensures ProseIsNarrow([Prose(prose), Code(code)] + ps)
  {
  }

  lemma {:induction false} LinksOfRewritten(ps: seq<Piece>, f: string -> string)
    requires Fine(f) && ProseIsNarrow(ps)
    ensures PieceLinks(RewrittenPieces(ps, f)) == MapLinks(PieceLinks(ps), f)
  {
    if ps != [] {
      assert RewrittenPieces(ps, f)[1..] == RewrittenPieces(ps[1..], f);
      if ps[0].Prose? {
        LinksOfSub(ps[0].text, f);
      }
      LinksOfRewritten(ps[1..], f);
    }
  }

  /** The links of a rewritten line are its links, rewritten. */
  lemma LineLinksRewritten(s: string, f: string -> string)
    requires Fine(f)
    ensures LineLinks(Rewritten(s, f)) == MapLinks(LineLinks(s), f)
  {
    PiecesOfRewritten(s, f);
    PiecesAreNarrow(s);
    LinksOfRewritten(Pieces(s), f);
  }

  lemma {:induction false} PiecesCompose(ps: seq<Piece>, f: string -> string, g: string -> string, h: string -> string)
    requires Fine(f) && ProseIsNarrow(ps) && Composes(f, g, h)
    ensures RewrittenPieces(RewrittenPieces(ps, f), g) == RewrittenPieces(ps, h)
  {
    if ps != [] {
      assert RewrittenPieces(ps, f)[1..] == RewrittenPieces(ps[1..], f);
      if ps[0].Prose? {
        SubLinksCompose(ps[0].text, f, g, h);
      }
      PiecesCompose(ps[1..], f, g, h);
    }
  }

  /** Rewriting a line twice is rewriting it once by the composition. */
  lemma RewrittenCompose(s: string, f: string -> string, g: string -> string, h: string -> string)
    requires Fine(f) && Composes(f, g, h)
    ensures Rewritten(Rewritten(s, f), g) == Rewritten(s, h)
  {
    PiecesOfRewritten(s, f);
    PiecesAreNarrow(s);
    PiecesCompose(Pieces(s), f, g, h);
  }

  lemma {:induction false} PiecesFixed(ps: seq<Piece>, f: string -> string)
    requires Fixes(f, PieceLinks(ps))
    ensures RewrittenPieces(ps, f) == ps
  {
    if ps != [] {
      var first := match ps[0] case Prose(t) => Links(t) case Code(_) => [];
      FixesBoth(f, first, PieceLinks(ps[1..]));
      if ps[0].Prose? {
        SubLinksFixed(ps[0].text, f);
      }
      PiecesFixed(ps[1..], f);
    }
  }

  lemma FixesBoth(f: string -> string, a: seq<string>, b: seq<string>)
    requires Fixes(f, a + b)
    ensures Fixes(f, a) && Fixes(f, b)
  {
    assert forall i :: 0 <= i < |a| ==> (a + b)[i] == a[i];
    assert forall i :: 0 <= i < |b| ==> (a + b)[|a| + i] == b[i];
  }

  /** A line whose links need no rewriting is not changed. */
  lemma LineFixed(s: string, f: string -> string)
    requires Fixes(f, LineLinks(s))
    ensures Rewritten(s, f) == s
  {
    PiecesFixed(Pieces(s), f);
    PiecesAreTheLine(s);
  }

  // ----- fences stay fences -----

  ghost predicate Shares(a: string, b: string, p: string, q: string, r: string) {
    a == p + q && b == p + r && ']' in p
  }

  /** The two agree up to a `]`, or altogether. */
  ghost predicate SameStart(a: string, b: string) {
    a == b || exists p, q, r :: Shares(a, b, p, q, r)
  }

  lemma {:induction false} SkipBlanksAppend(p: string, q: string)
    requires ']' in p
    ensures SkipBlanks(p + q) == SkipBlanks(p) + q && ']' in SkipBlanks(p)
  {
    assert (p + q)[0] == p[0];
    assert (p + q)[1..] == p[1..] + q;
    if p[0] == ' ' || p[0] == '\t' {
      SkipBlanksAppend(p[1..], q);
    }
  }

  lemma FenceByStart(p: string, q: string)
    requires ']' in p
    ensures IsFence(p + q) <==> IsFence(p)
  {
    SkipBlanksAppend(p, q);
    var s := SkipBlanks(p);
    var k :| 0 <= k < |s| && s[k] == ']';
    assert forall i :: 0 <= i < |s| ==> (s + q)[i] == s[i];
  }

  lemma FenceOfSame(a: string, b: string)
    requires SameStart(a, b)
    ensures IsFence(a) <==> IsFence(b)
  {
    if a != b {
      var p, q, r :| Shares(a, b, p, q, r);
      FenceByStart(p, q);
      FenceByStart(p, r);
    }
  }

  lemma SubLinksSameStart(s: string, f: string -> string, tail: string, tail': string)
    requires tail == tail' || NextLink(s, 0).Some?
    ensures SameStart(s + tail, SubLinks(s, f) + tail')
  {
    if NextLink(s, 0).Some? {
      var i, j := FirstLink(s, f);
      SharedBracket(s, i, f(s[i..j]), SubLinks(s[j..], f), tail, tail');
    }
  }

  lemma SharedBracket(s: string, i: nat, u: string, more: string, tail: string, tail': string)
    requires 2 <= i <= |s| && s[i - 2] == ']'
    ensures SameStart(s + tail, s[..i] + u + more + tail')
  {
    assert s[..i][i - 2] == ']';
    assert s == s[..i] + s[i..];
    assert s + tail == s[..i] + (s[i..] + tail);
    assert s[..i] + u + more + tail' == s[..i] + (u + more + tail');
    assert Shares(s + tail, s[..i] + u + more + tail', s[..i], s[i..] + tail, u + more + tail');
  }

  lemma SameStartLater(p: string, a: string, b: string)
    requires SameStart(a, b)
    ensures SameStart(p + a, p + b)
  {
    if a != b {
      var p', q, r :| Shares(a, b, p', q, r);
      assert p + a == (p + p') + q && p + b == (p + p') + r;
      assert ']' in p + p';
      assert Shares(p + a, p + b, p + p', q, r);
    }
  }

  lemma NoTail(s: string)
    ensures s + "" == s
  {
  }

  lemma {:induction false} RewrittenSameStart(s: string, f: string -> string)
    ensures SameStart(s, Rewritten(s, f))
    decreases |s|
  {
    if Narrow(s) {
      RewrittenNarrow(s, f);
      SubLinksSameStart(s, f, "", "");
      NoTail(s);
      NoTail(SubLinks(s, f));
    } else {
      var prose, code, rest := RewrittenStart(s, f);
      if NextLink(prose, 0).Some? {
        SubLinksSameStart(prose, f, code + rest, code + Rewritten(rest, f));
      } else {
        RewrittenSameStart(rest, f);
        SameStartLater(code, rest, Rewritten(rest, f));
        SameStartLater(prose, code + rest, code + Rewritten(rest, f));
      }
    }
  }

  /** A rewritten line is a fence line exactly if the line was. */
  lemma FenceOfRewritten(s: string, f: string -> string)
    ensures IsFence(Rewritten(s, f)) <==> IsFence(s)
  {
    RewrittenSameStart(s, f);
    FenceOfSame(s, Rewritten(s, f));
  }

  // ----- what characters a rewritten line holds -----

  ghost predicate FreeAt(f: string -> string, c: char, t: string) {
    c !in t ==> c !in f(t)
  }

  ghost predicate AddsNo(f: string -> string, c: char) {
    forall t :: FreeAt(f, c, t)
  }

  lemma {:induction false} SubLinksFree(s: string, f: string -> string, c: char)
    requires AddsNo(f, c) && c !in s
    ensures c !in SubLinks(s, f)
    decreases |s|
  {
    if NextLink(s, 0).Some? {
      var i, j := FirstLink(s, f);
      assert FreeAt(f, c, s[i..j]);
      SubLinksFree(s[j..], f, c);
    }
  }

  lemma {:induction false} RewrittenFree(s: string, f: string -> string, c: char)
    requires AddsNo(f, c) && c !in s
    ensures c !in Rewritten(s, f)
    decreases |s|
  {
    if Narrow(s) {
      RewrittenNarrow(s, f);
      SubLinksFree(s, f, c);
    } else {
      var prose, code, rest := RewrittenStart(s, f);
      SubLinksFree(prose, f, c);
      RewrittenFree(rest, f, c);
    }
  }
}
