/** What a rewritten target points at. */
module LinkTargets {
  import opened Wrappers
  import opened Text
  import opened PosixPath
  import opened Markdown
  import opened LinkRewriter

  // ----- the twin a link asks for is the twin the build writes -----

  /** A page's URL is empty or ends in a slash. */
  predicate IsPageUrl(url: string) {
    url == "" || url[|url| - 1] == '/'
  }

  lemma UrlForIsPageUrl(src: string)
    requires EndsWith(src, ".md")
    ensures IsPageUrl(UrlFor(src))
  {
  }

  lemma StripOne(base: string)
    ensures RStripSlashes(base + "/") == base <==> base == "" || base[|base| - 1] != '/'
  {
    assert (base + "/")[..|base|] == base;
    assert RStripSlashes(base + "/") == RStripSlashes(base);
  }

  lemma TwinUriOf(base: string)
    ensures TwinUri(base + "/" + "index.html") == Some(base + ".md")
  {
    var dest := base + "/" + "index.html";
    assert dest[|base|..] == "/index.html";
    assert dest[..|base|] == base;
  }

  /** The two ways to a twin's place agree on a page's URL exactly if it does not end in two slashes. */
  lemma TwinsOfUrlAgreeIff(url: string)
    requires IsPageUrl(url)
    ensures TwinUri(url + "index.html") == Some(TwinFor(url)) <==> !EndsWith(url, "//")
  {
    if url == "" {
      assert url + "index.html" == "index.html";
    } else {
      var base := url[..|url| - 1];
      assert url == base + "/";
      TwinUriOf(base);
      StripOne(base);
      SameDot(RStripSlashes(url), base);
      assert EndsWith(url, "//") <==> base != "" && base[|base| - 1] == '/' by {
        if |url| >= 2 {
          assert url[|url| - 2..] == [url[|url| - 2], url[|url| - 1]];
        }
      }
    }
  }

  lemma SameDot(a: string, b: string)
    ensures a + ".md" == b + ".md" <==> a == b
  {
    if a + ".md" == b + ".md" {
      assert a == (a + ".md")[..|a|];
      assert b == (b + ".md")[..|b|];
    }
  }

  // ----- which source pages have such a URL -----

  lemma EndsWithSplit(s: string, a: string, b: string)
    requires EndsWith(s, b)
    ensures EndsWith(s, a + b) <==> EndsWith(s[..|s| - |b|], a)
  {
    var h := s[..|s| - |b|];
    assert s == h + b;
    if |h| >= |a| {
      assert s[|s| - |a + b|..] == h[|h| - |a|..] + b;
      SameTail(h[|h| - |a|..], a, b);
    }
  }

  lemma SameTail(a: string, a': string, b: string)
    requires |a| == |a'|
    ensures a + b == a' + b <==> a == a'
  {
    assert (a + b)[..|a|] == a && (a' + b)[..|a'|] == a';
  }

  lemma EndsWithTail(s: string, a: string, b: string)
    requires EndsWith(s, a + b)
    ensures EndsWith(s, b)
  {
    assert s[|s| - |b|..] == s[|s| - |a + b|..][|a|..];
  }

  /** A path ends in `dir` and `name`, `dir` ending in a slash, exactly if that is its name and `dir` ends its head. */
  lemma NamedIff(src: string, dir: string, name: string)
    requires '/' !in name && dir != "" && dir[|dir| - 1] == '/'
    ensures var head := UpToLastSlash(src);
            EndsWith(src, dir + name) <==> src[|head|..] == name && EndsWith(head, dir)
  {
    var head := UpToLastSlash(src);
    if EndsWith(src, dir + name) {
      EndsWithTail(src, dir, name);
      EndsWithSplit(src, dir, name);
      var h := src[..|src| - |name|];
      assert src == h + name;
      assert h[|h| - 1] == h[|h| - |dir|..][|dir| - 1];
      LastSlash(h, name);
    }
    if src[|head|..] == name && EndsWith(head, dir) {
      assert src == head + name;
      assert src[..|src| - |name|] == head;
      EndsWithSplit(src, dir, name);
    }
  }

  /** A page called just `.md` in a directory, or an index page behind a doubled slash. */
  predicate IsOddPage(src: string) {
    EndsWith(src, "/.md") || EndsWith(src, "//index.md") || EndsWith(src, "//README.md")
  }

  lemma DotPageIff(src: string)
    ensures var head := UpToLastSlash(src);
            EndsWith(src, "/.md") <==> src[|head|..] == ".md" && head != ""
  {
    var head := UpToLastSlash(src);
    assert "/" + ".md" == "/.md";
    NamedIff(src, "/", ".md");
    assert head != "" ==> head[|head| - 1..] == "/";
  }

  lemma DoubledIndexIff(src: string)
    ensures var head := UpToLastSlash(src);
            EndsWith(src, "//index.md") <==> src[|head|..] == "index.md" && EndsWith(head, "//")
  {
    assert "//" + "index.md" == "//index.md";
    NamedIff(src, "//", "index.md");
  }

  lemma DoubledReadmeIff(src: string)
    ensures var head := UpToLastSlash(src);
            EndsWith(src, "//README.md") <==> src[|head|..] == "README.md" && EndsWith(head, "//")
  {
    assert "//" + "README.md" == "//README.md";
    NamedIff(src, "//", "README.md");
  }

  lemma OddIff(src: string)
    ensures var head := UpToLastSlash(src);
            var name := src[|head|..];
            IsOddPage(src) <==> (name == ".md" && head != "") || (IsIndexName(name) && EndsWith(head, "//"))
  {
    DotPageIff(src);
    DoubledIndexIff(src);
    DoubledReadmeIff(src);
  }

  predicate EndsInSlash(s: string) {
    s != "" && s[|s| - 1] == '/'
  }

  lemma DoubledIff(base: string)
    ensures EndsWith(base + "/", "//") <==> EndsInSlash(base)
  {
    var url := base + "/";
    if base != "" {
      assert url[|url| - 2..] == [base[|base| - 1], '/'];
    }
  }

  lemma DotIff(base: string)
    ensures EndsWith(base + ".md", "/.md") <==> EndsInSlash(base)
  {
    var src := base + ".md";
    if base != "" {
      assert src[|src| - 4..] == [base[|base| - 1]] + ".md";
      SameTail([base[|base| - 1]], "/", ".md");
      assert "/" + ".md" == "/.md";
    }
  }

  lemma PlainUrlIff(src: string)
    requires EndsWith(src, ".md") && !IsIndexName(src[|UpToLastSlash(src)|..])
    ensures EndsWith(UrlFor(src), "//") <==> EndsWith(src, "/.md")
  {
    var base := src[..|src| - 3];
    assert src == base + ".md";
    DoubledIff(base);
    DotIff(base);
  }

  /**
  For every source page: the place a link looks for its twin is the place the build writes it, exactly if the
  page is not one of the odd ones.
  */
  lemma TwinsAgreeIff(src: string)
    requires EndsWith(src, ".md")
    ensures TwinUri(UrlFor(src) + "index.html") == Some(TwinFor(UrlFor(src))) <==> !IsOddPage(src)
  {
    var head := UpToLastSlash(src);
    UrlForIsPageUrl(src);
    TwinsOfUrlAgreeIff(UrlFor(src));
    OddIff(src);
    if IsIndexName(src[|head|..]) {
      assert UrlFor(src) == if |head| > 1 then head else "";
    } else {
      PlainUrlIff(src);
      DotPageIff(src);
    }
  }

  /** One of them. */
  lemma TwinsDisagree(src: string)
    requires src == "a/.md"
    ensures TwinFor(UrlFor(src)) == "a.md" && TwinUri(UrlFor(src) + "index.html") == Some("a/.md")
  {
    assert src == "a/" + ".md";
    LastSlash("a/", ".md");
    assert UrlFor(src) == "a/" + "/";
    TwinUriOf("a/");
    assert RStripSlashes("a") == "a";
    assert ("a/")[..1] == "a" && ("a//")[..2] == "a/";
    assert RStripSlashes("a/") == "a" && RStripSlashes("a//") == "a";
  }

  // ----- a relative target climbs and descends from the page's directory -----

  /** A name a directory can have. */
  predicate IsName(s: string) {
    s != "" && s != "." && s != ".." && '/' !in s && '#' !in s
  }

  ghost predicate Names(ns: seq<string>) {
    forall i :: 0 <= i < |ns| ==> IsName(ns[i])
  }

  function Ups(k: nat): (ups: seq<string>)
    ensures |ups| == k && forall i :: 0 <= i < k ==> ups[i] == ".."
  {
    seq(k, i => "..")
  }

  lemma {:induction false} KeepNames(kept: seq<string>, ns: seq<string>, rooted: bool)
    requires Names(ns)
    ensures KeepAll(kept, ns, rooted) == kept + ns
    decreases ns
  {
    if ns != [] {
      assert IsName(ns[0]);
      KeepNames(kept + [ns[0]], ns[1..], rooted);
    }
  }

  lemma {:induction false} KeepUps(kept: seq<string>, k: nat, rooted: bool)
    requires Names(kept) && k <= |kept|
    ensures KeepAll(kept, Ups(k), rooted) == kept[..|kept| - k]
    decreases k
  {
    if k > 0 {
      assert IsName(kept[|kept| - 1]);
      assert Ups(k)[1..] == Ups(k - 1);
      KeepUps(kept[..|kept| - 1], k - 1, rooted);
    }
  }

  lemma Resolved(dirs: seq<string>, k: nat, names: seq<string>)
    requires Names(dirs) && Names(names) && k <= |dirs|
    ensures KeepAll([], dirs + Ups(k) + names, false) == dirs[..|dirs| - k] + names
  {
    KeepNames([], dirs, false);
    KeepUps(dirs, k, false);
    KeepNames(dirs[..|dirs| - k], names, false);
    KeepThree(dirs, Ups(k), names);
    assert [] + dirs == dirs;
  }

  lemma KeepThree(a: seq<string>, b: seq<string>, c: seq<string>)
    ensures KeepAll([], a + b + c, false) == KeepAll(KeepAll(KeepAll([], a, false), b, false), c, false)
  {
    KeepAllAppend([], a + b, c, false);
    KeepAllAppend([], a, b, false);
  }

  ghost predicate Plain(parts: seq<string>) {
    forall i :: 0 <= i < |parts| ==> parts[i] != "" && '/' !in parts[i] && '#' !in parts[i]
  }

  lemma {:induction false} JoinEnds(parts: seq<string>)
    requires Plain(parts) && parts != []
    ensures var s := Join(parts, '/'); s != "" && s[0] != '/' && s[|s| - 1] != '/'
  {
    if |parts| > 1 {
      JoinEnds(parts[1..]);
    }
  }

  lemma {:induction false} JoinAppend(a: seq<string>, b: seq<string>)
    requires a != [] && b != []
    ensures Join(a + b, '/') == Join(a, '/') + "/" + Join(b, '/')
  {
    assert (a + b)[0] == a[0] && (a + b)[1..] == a[1..] + b;
    if |a| > 1 {
      JoinAppend(a[1..], b);
    } else {
      assert (a + b)[1..] == b;
    }
  }

  lemma {:induction false} LastSlash(head: string, name: string)
    requires '/' !in name && (head == "" || head[|head| - 1] == '/')
    ensures UpToLastSlash(head + name) == head
    decreases |name|
  {
    var s := head + name;
    if name == "" {
      assert s == head;
    } else {
      assert s[..|s| - 1] == head + name[..|name| - 1];
      LastSlash(head, name[..|name| - 1]);
    }
  }

  lemma DirnameOf(dirs: seq<string>, file: string)
    requires Names(dirs) && '/' !in file
    ensures Dirname(Join(dirs + [file], '/')) == Join(dirs, '/')
  {
    if dirs == [] {
      assert dirs + [file] == [file];
      LastSlash("", file);
      assert "" + file == file;
    } else {
      var dir := Join(dirs, '/');
      JoinAppend(dirs, [file]);
      JoinEnds(dirs);
      LastSlash(dir + "/", file);
      StripOne(dir);
      assert (dir + "/")[0] != '/';
    }
  }

  lemma JoinPathOf(dirs: seq<string>, parts: seq<string>)
    requires Plain(dirs) && Plain(parts) && parts != []
    ensures JoinPath(Join(dirs, '/'), Join(parts, '/')) == Join(dirs + parts, '/')
  {
    JoinEnds(parts);
    if dirs == [] {
      assert dirs + parts == parts;
    } else {
      JoinEnds(dirs);
      JoinAppend(dirs, parts);
    }
  }

  lemma NormpathOf(parts: seq<string>)
    requires Plain(parts) && parts != [] && KeepAll([], parts, false) != [] && Plain(KeepAll([], parts, false))
    ensures Normpath(Join(parts, '/')) == Join(KeepAll([], parts, false), '/')
  {
    JoinEnds(parts);
    JoinEnds(KeepAll([], parts, false));
    SplitJoin(parts, '/');
  }

  predicate IsFragment(frag: string) {
    frag == "" || frag[0] == '#'
  }

  lemma {:induction false} PathAndFragment(path: string, frag: string)
    requires '#' !in path && IsFragment(frag)
    ensures UpTo(path + frag, '#') == path
  {
    var t := path + frag;
    if path == "" {
      assert t == frag;
    } else {
      PathAndFragment(path[1..], frag);
      assert t[0] == path[0] && t[1..] == path[1..] + frag;
      assert path == [path[0]] + path[1..];
    }
  }

  /**
  From a page in `dirs`, a target that climbs `k` directories and then descends through `names` becomes the
  site's address and the place that path is served from, and keeps its fragment.
  */
  lemma TargetResolves(dirs: seq<string>, page: string, k: nat, names: seq<string>, frag: string, site: string)
    requires Names(dirs) && '/' !in page && Names(names) && names != [] && k <= |dirs| && IsFragment(frag)
    requires !IsAbsolute(Join(Ups(k) + names, '/') + frag)
    ensures Absolutise(Join(Ups(k) + names, '/') + frag, Join(dirs + [page], '/'), site)
         == site + Served(Join(dirs[..|dirs| - k] + names, '/')) + frag
  {
    var path := Join(Ups(k) + names, '/');
    JoinFree(Ups(k) + names, '/', '#');
    PathAndFragment(path, frag);
    JoinEnds(Ups(k) + names);
    ResolvedPath(dirs, page, k, names);
    assert (path + frag)[|path|..] == frag;
  }

  lemma ResolvedPath(dirs: seq<string>, page: string, k: nat, names: seq<string>)
    requires Names(dirs) && '/' !in page && Names(names) && names != [] && k <= |dirs|
    ensures Normpath(JoinPath(Dirname(Join(dirs + [page], '/')), Join(Ups(k) + names, '/')))
         == Join(dirs[..|dirs| - k] + names, '/')
  {
    JoinedPath(dirs, page, Ups(k) + names);
    NormalPath(dirs, k, names);
  }

  lemma JoinedPath(dirs: seq<string>, page: string, parts: seq<string>)
    requires Names(dirs) && '/' !in page && Plain(parts) && parts != []
    ensures JoinPath(Dirname(Join(dirs + [page], '/')), Join(parts, '/')) == Join(dirs + parts, '/')
  {
    DirnameOf(dirs, page);
    JoinPathOf(dirs, parts);
  }

  lemma NormalPath(dirs: seq<string>, k: nat, names: seq<string>)
    requires Names(dirs) && Names(names) && names != [] && k <= |dirs|
    ensures Normpath(Join(dirs + (Ups(k) + names), '/')) == Join(dirs[..|dirs| - k] + names, '/')
  {
    Regroup(dirs, Ups(k), names);
    Resolved(dirs, k, names);
    PlainParts(dirs, k, names);
    NormpathOf(dirs + Ups(k) + names);
  }

  lemma Regroup(a: seq<string>, b: seq<string>, c: seq<string>)
    ensures a + (b + c) == a + b + c
  {
  }

  lemma PlainParts(dirs: seq<string>, k: nat, names: seq<string>)
    requires Names(dirs) && Names(names) && names != [] && k <= |dirs|
    ensures Plain(dirs + Ups(k) + names) && dirs + Ups(k) + names != []
    ensures Plain(dirs[..|dirs| - k] + names) && dirs[..|dirs| - k] + names != []
  {
  }

  lemma SameDirectory(file: string, name: string, site: string)
    requires '/' !in file && IsName(name) && !IsAbsolute(name)
    ensures Absolutise(name, file, site) == site + Served(name)
  {
    assert [] + [file] == [file] && Ups(0) + [name] == [name];
    assert name + "" == name;
    TargetResolves([], file, 0, [name], "", site);
    assert site + Served(name) + "" == site + Served(name);
  }

  // ----- all of it written out -----

  /** A target that climbs, or whose first name has no colon, is relative. */
  lemma IsRelative(k: nat, names: seq<string>, frag: string)
    requires Names(names) && names != [] && IsFragment(frag) && (k > 0 || ':' !in names[0])
    ensures !IsAbsolute(Join(Ups(k) + names, '/') + frag)
  {
    var parts := Ups(k) + names;
    var first, t := parts[0], Join(parts, '/') + frag;
    var after := JoinStarts(parts, frag);
    AbsoluteIff(t);
    assert t[0] == first[0];
    assert k == 0 ==> IsName(names[0]);
    forall m
      ensures !HasScheme(t, m)
    {
      if HasScheme(t, m) {
        SchemeStops(first, after, m);
      }
    }
  }

  lemma JoinStarts(parts: seq<string>, frag: string) returns (after: string)
    requires parts != [] && IsFragment(frag)
    ensures Join(parts, '/') + frag == parts[0] + after && (after == "" || after[0] == '/' || after[0] == '#')
  {
    after := (if |parts| == 1 then "" else "/" + Join(parts[1..], '/')) + frag;
  }

  /** A scheme ends at the first colon, so that what ends it cannot come after a slash or a hash. */
  lemma SchemeStops(first: string, after: string, m: int)
    requires first != "" && (after == "" || after[0] == '/' || after[0] == '#') && HasScheme(first + after, m)
    ensures m < |first| && ':' in first && first[0] != '.'
  {
    var t := first + after;
    HasSchemeIff(t, m);
    assert t[0] == first[0];
    assert after != "" ==> t[1..][|first| - 1] == after[0];
    assert forall i :: 0 <= i < |first| ==> t[i] == first[i];
  }

  predicate IsIndex(file: string) {
    file == "index.md" || file == "README.md"
  }

  /** Where a path is served from: an index page at its directory's name, everything else where it is. */
  lemma ServedExactly(parents: seq<string>, file: string)
    requires Names(parents + [file]) && file != ".md"
    ensures Served(Join(parents + [file], '/')) ==
            if !IsIndex(file) then Join(parents + [file], '/')
            else if parents == [] then "index.md"
            else Join(parents, '/') + ".md"
  {
    assert (parents + [file])[|parents|] == file;
    assert Names(parents) by {
      assert forall i :: 0 <= i < |parents| ==> (parents + [file])[i] == parents[i];
    }
    var head := HeadOf(parents, file);
    var path := head + file;
    LastSlash(head, file);
    assert path[|head|..] == file;
    if IsIndex(file) {
      IndexEndsInMd(head, file);
      if parents != [] {
        JoinEnds(parents);
        StripOne(Join(parents, '/'));
      }
    } else if EndsWith(path, ".md") {
      PlainServed(head, file);
    }
  }

  lemma HeadOf(parents: seq<string>, file: string) returns (head: string)
    requires Names(parents)
    ensures Join(parents + [file], '/') == head + file && (head == "" || head[|head| - 1] == '/')
    ensures head == if parents == [] then "" else Join(parents, '/') + "/"
    ensures |head| != 1
  {
    if parents == [] {
      head := "";
      assert parents + [file] == [file];
    } else {
      head := Join(parents, '/') + "/";
      JoinAppend(parents, [file]);
      JoinEnds(parents);
    }
  }

  lemma IndexEndsInMd(head: string, file: string)
    requires IsIndex(file)
    ensures EndsWith(head + file, ".md")
  {
    assert (head + file)[|head + file| - 3..] == file[|file| - 3..];
    assert "index.md"[5..] == ".md" && "README.md"[6..] == ".md";
  }

  lemma PlainServed(head: string, file: string)
    requires UpToLastSlash(head + file) == head && file != "" && '/' !in file && file != ".md" && !IsIndex(file)
    requires EndsWith(head + file, ".md")
    ensures Served(head + file) == head + file
  {
    var path := head + file;
    var base := path[..|path| - 3];
    assert path[|head|..] == file;
    BaseOf(path, base);
    ServedPlain(path, base);
    assert |file| > 3 by {
      if |file| <= 3 {
        ShortTail(head, file);
      }
    }
    assert base[|base| - 1] == file[|file| - 4];
    StripOne(base);
  }

  /** A shorter end of `.md` would need the separator's neighbour to be one of its letters. */
  lemma ShortTail(head: string, file: string)
    requires EndsWith(head + file, ".md") && UpToLastSlash(head + file) == head && 0 < |file| <= 3 && '/' !in file
    ensures file == ".md"
  {
    var path := head + file;
    assert forall i :: |path| - 3 <= i < |path| ==> path[i] == path[|path| - 3..][i - (|path| - 3)];
    assert path[|path| - 3] == '.' && path[|path| - 2] == 'm' && path[|path| - 1] == 'd';
    assert head != "" ==> path[|head| - 1] == head[|head| - 1];
    assert |file| == 3 ==> file == path[|path| - 3..];
  }

  lemma NamesThere(dirs: seq<string>, n: nat, down: seq<string>, file: string)
    requires Names(dirs) && n <= |dirs| && Names(down + [file])
    ensures Names(dirs[..n] + down + [file])
  {
    assert dirs[..n] + down + [file] == dirs[..n] + (down + [file]);
    assert forall i :: 0 <= i < |down + [file]| ==> IsName((down + [file])[i]);
  }

  /**
  The rewrite of every relative target there is between two places of the tree: from the page `page` in `dirs`, up
  `k` directories, down through `down` to `file`.
  */
  lemma LinkLeadsTo(dirs: seq<string>, page: string, k: nat, down: seq<string>, file: string, frag: string,
                    site: string)
    requires Names(dirs) && '/' !in page && k <= |dirs| && Names(down + [file]) && file != ".md" && IsFragment(frag)
    requires k > 0 || ':' !in (down + [file])[0]
    ensures var there := dirs[..|dirs| - k] + down;
            Absolutise(Join(Ups(k) + (down + [file]), '/') + frag, Join(dirs + [page], '/'), site) ==
            site + (if !IsIndex(file) then Join(there + [file], '/')
                    else if there == [] then "index.md"
                    else Join(there, '/') + ".md") + frag
  {
    var there := dirs[..|dirs| - k] + down;
    IsRelative(k, down + [file], frag);
    TargetResolves(dirs, page, k, down + [file], frag, site);
    assert dirs[..|dirs| - k] + (down + [file]) == there + [file];
    NamesThere(dirs, |dirs| - k, down, file);
    ServedExactly(there, file);
  }

  // ----- the laws of path normalisation -----

  /** Empty and dot components do nothing, a name and the way back up cancel, and nothing is above a root. */
  lemma ComponentLaws(a: seq<string>, b: seq<string>, name: string, rooted: bool)
    requires name != "" && name != "." && name != ".."
    ensures KeepAll([], a + [""] + b, rooted) == KeepAll([], a + b, rooted)
    ensures KeepAll([], a + ["."] + b, rooted) == KeepAll([], a + b, rooted)
    ensures KeepAll([], a + [name, ".."] + b, rooted) == KeepAll([], a + b, rooted)
    ensures KeepAll([], [".."] + b, true) == KeepAll([], b, true)
  {
    var kept := KeepAll([], a, rooted);
    KeepAllAppend([], a, b, rooted);
    KeepMore(a, [""], b, rooted);
    KeepMore(a, ["."], b, rooted);
    KeepMore(a, [name, ".."], b, rooted);
    assert [name, ".."][1..] == [".."] && [".."][1..] == [] && [""][1..] == [] && ["."][1..] == [];
    assert (kept + [name])[..|kept|] == kept;
    assert KeepAll(kept, [name, ".."], rooted) == KeepAll(kept + [name], [".."], rooted) == kept;
    assert ([".."] + b)[1..] == b;
  }

  lemma KeepMore(a: seq<string>, m: seq<string>, b: seq<string>, rooted: bool)
    ensures KeepAll([], a + m + b, rooted) == KeepAll(KeepAll(KeepAll([], a, rooted), m, rooted), b, rooted)
  {
    KeepAllAppend([], a + m, b, rooted);
    KeepAllAppend([], a, m, rooted);
  }

  /** One leading slash stays one, two stay two, and three or more are one. */
  lemma LeadingSlashes(names: seq<string>)
    requires Names(names) && names != []
    ensures Normpath("/" + Join(names, '/')) == "/" + Join(names, '/')
    ensures Normpath("//" + Join(names, '/')) == "//" + Join(names, '/')
    ensures Normpath("///" + Join(names, '/')) == "/" + Join(names, '/')
  {
    JoinEnds(names);
    Rooted(names, 1);
    Rooted(names, 2);
    Rooted(names, 3);
    assert Slashes(1) == "/" && Slashes(2) == "//" && Slashes(3) == "///";
  }

  function Slashes(n: nat): (s: string)
    ensures |s| == n && forall i :: 0 <= i < n ==> s[i] == '/'
  {
    seq(n, i => '/')
  }

  lemma Rooted(names: seq<string>, n: nat)
    requires Names(names) && names != [] && 1 <= n <= 3
    ensures Normpath(Slashes(n) + Join(names, '/')) == (if n == 2 then "//" else "/") + Join(names, '/')
  {
    var path := Join(names, '/');
    var s := Slashes(n) + path;
    JoinEnds(names);
    assert n == 2 ==> s[2] == path[0];
    assert n == 1 ==> s[1] == path[0];
    assert InitialSlashes(s) == if n == 2 then "//" else "/";
    SplitSlashes(n, names);
    KeepEmpties(n, names);
  }

  lemma {:induction false} SplitSlashes(n: nat, names: seq<string>)
    requires Names(names) && names != []
    ensures Split(Slashes(n) + Join(names, '/'), '/') == Empties(n) + names
  {
    var path := Join(names, '/');
    if n == 0 {
      assert Slashes(0) + path == path && Empties(0) + names == names;
      SplitJoin(names, '/');
    } else {
      SplitSlashes(n - 1, names);
      var s := Slashes(n) + path;
      assert s[0] == '/' && s[1..] == Slashes(n - 1) + path;
      assert Empties(n) + names == [""] + (Empties(n - 1) + names);
    }
  }

  function Empties(n: nat): (e: seq<string>)
    ensures |e| == n && forall i :: 0 <= i < n ==> e[i] == ""
  {
    seq(n, i => "")
  }

  lemma {:induction false} KeepEmpties(n: nat, names: seq<string>)
    requires Names(names)
    ensures KeepAll([], Empties(n) + names, true) == names
  {
    if n == 0 {
      assert Empties(0) + names == names;
      KeepNames([], names, true);
    } else {
      KeepEmpties(n - 1, names);
      assert (Empties(n) + names)[0] == "" && (Empties(n) + names)[1..] == Empties(n - 1) + names;
    }
  }

  /** A target from the root is resolved from the root, wherever the page is. */
  lemma RootedTarget(src: string, names: seq<string>, frag: string, site: string)
    requires Names(names) && names != [] && IsFragment(frag)
    ensures Absolutise("/" + Join(names, '/') + frag, src, site) == site + Served("/" + Join(names, '/')) + frag
  {
    var path := "/" + Join(names, '/');
    var t := path + frag;
    JoinEnds(names);
    JoinFree(names, '/', '#');
    PathAndFragment(path, frag);
    assert t[0] == '/' && t[1] == Join(names, '/')[0];
    AbsoluteIff(t);
    LeadingSlashes(names);
    assert t[|path|..] == frag;
  }
}
