/** The three path operations the link rewrite resolves a target with, as `posixpath` defines them. */
module PosixPath {
  import opened Text

  predicate AllSlashes(s: string) {
    forall i :: 0 <= i < |s| ==> s[i] == '/'
  }

  function RStripSlashes(s: string): (r: string)
    ensures r <= s && AllSlashes(s[|r|..])
  {
    if s == [] || s[|s| - 1] != '/' then s
    else RStripSlashes(s[..|s| - 1])
  }

  /** What is before the last separator, itself included. */
  function UpToLastSlash(s: string): (r: string)
    ensures r <= s && '/' !in s[|r|..]
    ensures r == [] || r[|r| - 1] == '/'
  {
    if s == [] || s[|s| - 1] == '/' then s
    else UpToLastSlash(s[..|s| - 1])
  }

  function Dirname(p: string): string {
    var head := UpToLastSlash(p);
    if AllSlashes(head) then head else RStripSlashes(head)
  }

  function JoinPath(a: string, b: string): string {
    if b != [] && b[0] == '/' then b
    else if a == [] || a[|a| - 1] == '/' then a + b
    else a + "/" + b
  }

  /** One more component onto the ones kept so far. */
  function Keep(kept: seq<string>, comp: string, rooted: bool): seq<string> {
    if comp == "" || comp == "." then kept
    else if comp != ".." || (!rooted && kept == []) || (kept != [] && kept[|kept| - 1] == "..") then kept + [comp]
    else if kept != [] then kept[..|kept| - 1]
    else kept
  }

  function KeepAll(kept: seq<string>, comps: seq<string>, rooted: bool): seq<string>
    decreases comps
  {
    if comps == [] then kept else KeepAll(Keep(kept, comps[0], rooted), comps[1..], rooted)
  }

  function InitialSlashes(p: string): string {
    if p == [] || p[0] != '/' then ""
    else if |p| >= 2 && p[1] == '/' && !(|p| >= 3 && p[2] == '/') then "//"
    else "/"
  }

  function Normpath(p: string): string {
    if p == "" then "."
    else
      var path := InitialSlashes(p) + Join(KeepAll([], Split(p, '/'), InitialSlashes(p) != ""), '/');
      if path == "" then "." else path
  }

  // ----- which characters come out -----

  lemma {:induction false} JoinFree(parts: seq<string>, sep: char, c: char)
    requires c != sep && forall i :: 0 <= i < |parts| ==> c !in parts[i]
    ensures c !in Join(parts, sep)
  {
    if |parts| > 1 {
      JoinFree(parts[1..], sep, c);
    }
  }

  lemma {:induction false} SplitFree(s: string, sep: char, c: char)
    requires c !in s
    ensures forall i :: 0 <= i < |Split(s, sep)| ==> c !in Split(s, sep)[i]
  {
    if s != [] {
      SplitFree(s[1..], sep, c);
    }
  }

  ghost predicate AllFree(parts: seq<string>, c: char) {
    forall i :: 0 <= i < |parts| ==> c !in parts[i]
  }

  lemma {:induction false} KeepAllFree(kept: seq<string>, comps: seq<string>, rooted: bool, c: char)
    requires AllFree(kept, c) && AllFree(comps, c)
    ensures AllFree(KeepAll(kept, comps, rooted), c)
    decreases comps
  {
    if comps != [] {
      KeepAllFree(Keep(kept, comps[0], rooted), comps[1..], rooted, c);
    }
  }

  lemma NormpathFree(p: string, c: char)
    requires c !in p && c != '/' && c != '.'
    ensures c !in Normpath(p)
  {
    if p != "" {
      SplitFree(p, '/', c);
      var rooted := InitialSlashes(p) != "";
      KeepAllFree([], Split(p, '/'), rooted, c);
      JoinFree(KeepAll([], Split(p, '/'), rooted), '/', c);
    }
  }

  lemma NormpathNotEmpty(p: string)
    ensures Normpath(p) != ""
  {
  }

  // ----- one marked component -----

  ghost predicate MarkedBetween(parts: seq<string>, left: seq<string>, mark: string, right: seq<string>, c: char) {
    parts == left + [mark] + right && AllFree(left, c) && AllFree(right, c)
  }

  /** `mark` is the only component that may hold `c`, if it is there at all. */
  ghost predicate OneMarked(parts: seq<string>, mark: string, c: char) {
    AllFree(parts, c) || exists left, right :: MarkedBetween(parts, left, mark, right, c)
  }

  lemma KeepMarked(kept: seq<string>, comp: string, rooted: bool, mark: string, c: char)
    requires OneMarked(kept, mark, c) && c !in comp
    ensures OneMarked(Keep(kept, comp, rooted), mark, c)
  {
    var after := Keep(kept, comp, rooted);
    if AllFree(kept, c) {
      assert AllFree(after, c);
    } else {
      var left, right :| MarkedBetween(kept, left, mark, right, c);
      if after == kept + [comp] {
        assert MarkedBetween(after, left, mark, right + [comp], c);
      } else if after == kept[..|kept| - 1] {
        if right == [] {
          assert after == left;
        } else {
          assert MarkedBetween(after, left, mark, right[..|right| - 1], c);
        }
      }
    }
  }

  lemma {:induction false} KeepAllMarked(kept: seq<string>, comps: seq<string>, rooted: bool, mark: string, c: char)
    requires OneMarked(kept, mark, c) && AllFree(comps, c)
    ensures OneMarked(KeepAll(kept, comps, rooted), mark, c)
    decreases comps
  {
    if comps != [] {
      KeepMarked(kept, comps[0], rooted, mark, c);
      KeepAllMarked(Keep(kept, comps[0], rooted), comps[1..], rooted, mark, c);
    }
  }

  lemma {:induction false} KeepAllAppend(kept: seq<string>, a: seq<string>, b: seq<string>, rooted: bool)
    ensures KeepAll(kept, a + b, rooted) == KeepAll(KeepAll(kept, a, rooted), b, rooted)
    decreases a
  {
    if a == [] {
      assert a + b == b;
    } else {
      KeepAllAppend(Keep(kept, a[0], rooted), a[1..], b, rooted);
      assert (a + b)[1..] == a[1..] + b;
    }
  }

  /** Of components of which only `mark` is marked, what is kept has only `mark` marked, if anything. */
  lemma KeepsOneMarked(left: seq<string>, mark: string, right: seq<string>, rooted: bool, c: char)
    requires AllFree(left, c) && AllFree(right, c) && c in mark && c != '.'
    ensures OneMarked(KeepAll([], left + [mark] + right, rooted), mark, c)
  {
    KeepAllAppend([], left + [mark], right, rooted);
    KeepAllAppend([], left, [mark], rooted);
    var kept := KeepAll([], left, rooted);
    KeepAllFree([], left, rooted, c);
    assert c !in "" && c !in "." && c !in "..";
    assert KeepAll(kept, [mark], rooted) == kept + [mark] by {
      assert [mark][1..] == [];
      assert KeepAll(kept, [mark], rooted) == Keep(kept, mark, rooted);
    }
    assert MarkedBetween(kept + [mark], kept, mark, [], c);
    KeepAllMarked(kept + [mark], right, rooted, mark, c);
  }

  lemma {:induction false} JoinMarked(left: seq<string>, mark: string, right: seq<string>, c: char)
    returns (x: string, y: string)
    requires AllFree(left, c) && AllFree(right, c) && c != '/'
    ensures Join(left + [mark] + right, '/') == x + mark + y && c !in x && c !in y
  {
    var parts := left + [mark] + right;
    if left == [] {
      if right == [] {
        x, y := "", "";
      } else {
        assert parts[1..] == right;
        JoinFree(right, '/', c);
        x, y := "", "/" + Join(right, '/');
        assert Join(parts, '/') == mark + ['/'] + Join(right, '/');
      }
    } else {
      assert parts[1..] == left[1..] + [mark] + right;
      var x', y' := JoinMarked(left[1..], mark, right, c);
      x, y := left[0] + ['/'] + x', y';
      assert Join(parts, '/') == left[0] + ['/'] + (x' + mark + y');
    }
  }
}
