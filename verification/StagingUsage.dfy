/**
The bytes a staging volume uses: a worklist walk that counts an inode once, stays on one device and
saturates, against the sum over the distinct inodes it can reach.
*/
module StagingUsage {
  type Path = seq<string>

  datatype Meta = Meta(dev: nat, ino: nat, nlink: nat, blocks: nat, isDir: bool)

  /**
  A volume as the walk finds it.  `listing` is what each readable directory returns, in whatever order;
  a listed name without metadata is an entry that has vanished since.
  */
  datatype Volume = Volume(meta: map<Path, Meta>, listing: map<Path, seq<string>>)

  const MAX: nat := 0xFFFF_FFFF_FFFF_FFFF

  function Sat(n: nat): (r: nat)
    ensures r <= 0xFFFF_FFFF_FFFF_FFFF && (n <= 0xFFFF_FFFF_FFFF_FFFF ==> r == n)
    ensures n > 0xFFFF_FFFF_FFFF_FFFF ==> r == 0xFFFF_FFFF_FFFF_FFFF
  {
    if n <= MAX then n else MAX
  }

  /** One inode more, added with saturation to a saturated total. */
  function AddBlocks(total: nat, blocks: nat): (r: nat)
    ensures r <= MAX
  {
    Sat(total + Sat(blocks * 512))
  }

  function Names(v: Volume, p: Path): seq<string> {
    if p in v.listing then v.listing[p] else []
  }

  /** A directory lists a name once. */
  predicate NamesOnce(v: Volume) {
    forall p, i, j :: p in v.listing && 0 <= i < j < |v.listing[p]| ==> v.listing[p][i] != v.listing[p][j]
  }

  // ----- what can be reached -----

  function Parent(p: Path): Path
    requires p != []
  {
    p[..|p| - 1]
  }

  /** `p` is there, on the root's device, and below the root only through directories of that device. */
  predicate Visible(v: Volume, root: Path, p: Path) {
    root in v.meta && p in v.meta && v.meta[p].dev == v.meta[root].dev &&
    (p == root ||
     (|p| > |root| && Visible(v, root, Parent(p)) && v.meta[Parent(p)].isDir && p[|p| - 1] in Names(v, Parent(p))))
  }

  function Reached(v: Volume, root: Path): set<Path> {
    set p | p in v.meta && Visible(v, root, p)
  }

  /** An inode reached by two paths has more than one link, is no directory, and is the same inode. */
  ghost predicate LinksAreCounted(v: Volume, reached: set<Path>)
    requires reached <= v.meta.Keys
  {
    forall p, q :: p in reached && q in reached && p != q && v.meta[p].ino == v.meta[q].ino ==>
      v.meta[p].nlink > 1 && !v.meta[p].isDir && v.meta[p].blocks == v.meta[q].blocks
  }

  /** `blocks` gives each reached inode its blocks, and nothing else. */
  ghost predicate IsInodeTable(v: Volume, reached: set<Path>, blocks: map<nat, nat>)
    requires reached <= v.meta.Keys
  {
    && (forall p :: p in reached ==> v.meta[p].ino in blocks && blocks[v.meta[p].ino] == v.meta[p].blocks)
    && (forall i :: i in blocks ==> exists p :: p in reached && v.meta[p].ino == i)
  }

  ghost function Total(m: map<nat, nat>): nat {
    if m == map[] then 0
    else
      var i :| i in m;
      m[i] + Total(m - {i})
  }

  lemma {:induction false} TotalOne(m: map<nat, nat>, i: nat)
    requires i in m
    ensures Total(m) == m[i] + Total(m - {i})
    decreases |m|
  {
    var j :| j in m && Total(m) == m[j] + Total(m - {j});
    if j != i {
      TotalOne(m - {j}, i);
      TotalOne(m - {i}, j);
      assert m - {j} - {i} == m - {i} - {j};
    }
  }

  lemma TotalInsert(m: map<nat, nat>, i: nat, n: nat)
    requires i !in m
    ensures Total(m[i := n]) == Total(m) + n
  {
    TotalOne(m[i := n], i);
    assert m[i := n] - {i} == m;
  }

  /** `total` is what the table's blocks come to, saturated. */
  ghost predicate Tallied(total: nat, blocks: map<nat, nat>) {
    total == Sat(512 * Total(blocks))
  }

  lemma TallyOne(total: nat, m: map<nat, nat>, m': map<nat, nat>, blocks: nat)
    requires Tallied(total, m) && Total(m') == Total(m) + blocks
    ensures Tallied(AddBlocks(total, blocks), m')
  {
  }

  /** There is one such table at most, so its total is the volume's and not the walk's. */
  lemma TableIsUnique(v: Volume, reached: set<Path>, a: map<nat, nat>, b: map<nat, nat>)
    requires reached <= v.meta.Keys && IsInodeTable(v, reached, a) && IsInodeTable(v, reached, b)
    ensures a == b
  {
  }

  // ----- the walk -----

  /** An entry of a reached directory. */
  ghost predicate ListedIn(v: Volume, root: Path, reached: set<Path>, p: Path) {
    && |p| > |root| && Parent(p) in reached && Parent(p) in v.meta
    && v.meta[Parent(p)].isDir && p[|p| - 1] in Names(v, Parent(p))
  }

  /** The reached set, one step at a time. */
  ghost predicate IsReach(v: Volume, root: Path, reached: set<Path>) {
    && root in reached && reached <= v.meta.Keys
    && forall p :: p in v.meta ==>
         (p in reached <==> v.meta[p].dev == v.meta[root].dev && (p == root || ListedIn(v, root, reached, p)))
  }

  lemma ReachedIsReach(v: Volume, root: Path)
    requires root in v.meta
    ensures IsReach(v, root, Reached(v, root))
  {
    var reached := Reached(v, root);
    assert Visible(v, root, root);
    forall p | p in v.meta
      ensures p in reached <==> v.meta[p].dev == v.meta[root].dev && (p == root || ListedIn(v, root, reached, p))
    {
      if |p| > |root| {
        assert Visible(v, root, Parent(p)) <==> Parent(p) in reached;
      }
    }
  }

  lemma {:induction false} OnTheWay(v: Volume, root: Path, reached: set<Path>, path: Path, p: Path)
    requires IsReach(v, root, reached) && p in reached && |root| <= |path| < |p| && path <= p
    ensures path in reached && v.meta[path].isDir && p[|path|] in Names(v, path)
    decreases |p|
  {
    assert p in v.meta && ListedIn(v, root, reached, p);
    if |path| < |p| - 1 {
      OnTheWay(v, root, reached, path, Parent(p));
    } else {
      assert Parent(p) == path;
    }
  }

  lemma {:induction false} BelowRoot(v: Volume, root: Path, reached: set<Path>, p: Path)
    requires IsReach(v, root, reached) && p in reached
    ensures root <= p
    decreases |p|
  {
    assert p in v.meta;
    if p != root {
      BelowRoot(v, root, reached, Parent(p));
    }
  }

  function Entries(v: Volume, path: Path): seq<Path> {
    seq(|Names(v, path)|, i requires 0 <= i < |Names(v, path)| => path + [Names(v, path)[i]])
  }

  predicate OpensInto(v: Volume, q: Path, name: string) {
    q in v.meta && v.meta[q].isDir && q in v.listing && name in v.listing[q]
  }

  predicate OnDevice(v: Volume, root: Path, q: Path) {
    root in v.meta && q in v.meta && v.meta[q].dev == v.meta[root].dev
  }

  /**
  Said path by path: below the root, everything on the way down there and on the root's device, each directory
  on it readable and listing the next name.
  */
  ghost predicate OpenAllTheWay(v: Volume, root: Path, p: Path) {
    && root <= p
    && (forall n :: |root| <= n <= |p| ==> OnDevice(v, root, p[..n]))
    && (forall n :: |root| <= n < |p| ==> OpensInto(v, p[..n], p[n]))
  }

  lemma WayUp(v: Volume, root: Path, p: Path)
    requires |p| > |root|
    ensures OpenAllTheWay(v, root, p) <==>
            OpenAllTheWay(v, root, Parent(p)) && OnDevice(v, root, p) && OpensInto(v, Parent(p), p[|p| - 1])
  {
    var q, m := Parent(p), |p| - 1;
    assert forall n :: 0 <= n <= m ==> q[..n] == p[..n];
    assert p[..|p|] == p && p[..m] == q;
    assert root <= p <==> root <= q;
    assert forall n :: 0 <= n < m ==> q[n] == p[n];
  }

  lemma VisibleUp(v: Volume, root: Path, p: Path)
    requires |p| > |root|
    ensures Visible(v, root, p) <==>
            Visible(v, root, Parent(p)) && OnDevice(v, root, p) && OpensInto(v, Parent(p), p[|p| - 1])
  {
  }

  lemma {:induction false} VisibleIff(v: Volume, root: Path, p: Path)
    ensures Visible(v, root, p) <==> OpenAllTheWay(v, root, p)
    decreases |p|
  {
    if |p| > |root| {
      VisibleIff(v, root, Parent(p));
      VisibleUp(v, root, p);
      WayUp(v, root, p);
    } else {
      assert p[..|p|] == p;
      assert root <= p ==> p == root;
    }
  }

  /** What is reached is exactly what can be walked down to. */
  lemma ReachedIff(v: Volume, root: Path, p: Path)
    ensures p in Reached(v, root) <==> OpenAllTheWay(v, root, p)
  {
    VisibleIff(v, root, p);
  }

  ghost predicate NoTwice(s: seq<Path>) {
    forall i, j :: 0 <= i < j < |s| ==> s[i] != s[j]
  }

  /** Each path is pushed once: only when its parent is popped, and that happens once. */
  ghost predicate PushedOnce(v: Volume, root: Path, reached: set<Path>, pending: seq<Path>, done: set<Path>) {
    && NoTwice(pending)
    && (forall i :: 0 <= i < |pending| ==>
          && pending[i] !in done
          && (pending[i] == root || (ListedIn(v, root, reached, pending[i]) && Parent(pending[i]) in done)))
    && (forall p :: p in done ==> p == root || (|p| > |root| && Parent(p) in done))
  }

  /** Nothing reachable is forgotten: it was popped, or it is at or below a pending path. */
  ghost predicate Covered(reached: set<Path>, pending: seq<Path>, done: set<Path>) {
    forall p :: p in reached ==> p in done || exists i :: 0 <= i < |pending| && pending[i] <= p
  }

  /** The inodes counted so far are those of the reachable paths popped so far. */
  ghost predicate Counted(v: Volume, reached: set<Path>, done: set<Path>, linked: set<nat>, seen: map<nat, nat>)
    requires reached <= v.meta.Keys
  {
    && IsInodeTable(v, reached * done, seen)
    && linked <= seen.Keys
    && forall p :: p in reached * done && v.meta[p].nlink > 1 ==> v.meta[p].ino in linked
  }

  lemma EntriesAreNew(v: Volume, root: Path, reached: set<Path>, before: seq<Path>, done: set<Path>)
    requires NamesOnce(v) && IsReach(v, root, reached) && PushedOnce(v, root, reached, before, done) && before != []
    requires before[|before| - 1] in reached && v.meta[before[|before| - 1]].isDir
    ensures var path := before[|before| - 1];
            var entries := Entries(v, path);
            && NoTwice(entries)
            && forall i :: 0 <= i < |entries| ==>
                 && entries[i] !in done + {path} && entries[i] !in before
                 && Parent(entries[i]) == path && ListedIn(v, root, reached, entries[i])
  {
    var path := before[|before| - 1];
    var entries := Entries(v, path);
    BelowRoot(v, root, reached, path);
    forall i | 0 <= i < |entries|
      ensures entries[i] !in done + {path} && entries[i] !in before
      ensures Parent(entries[i]) == path && ListedIn(v, root, reached, entries[i])
    {
      assert Parent(entries[i]) == path && path !in done;
    }
    forall i, j | 0 <= i < j < |entries|
      ensures entries[i] != entries[j]
    {
      assert entries[i][|path|] == Names(v, path)[i] && entries[j][|path|] == Names(v, path)[j];
    }
  }

  lemma PopKeeps(v: Volume, root: Path, reached: set<Path>, before: seq<Path>, done: set<Path>)
    requires PushedOnce(v, root, reached, before, done) && before != []
    ensures var path := before[|before| - 1];
            PushedOnce(v, root, reached, before[..|before| - 1], done + {path})
    ensures forall p :: p in before[..|before| - 1] ==> p in before
  {
    var rest := before[..|before| - 1];
    assert forall i :: 0 <= i < |rest| ==> rest[i] == before[i];
  }

  lemma PushKeeps(v: Volume, root: Path, reached: set<Path>, rest: seq<Path>, path: Path, entries: seq<Path>,
                  done: set<Path>)
    requires PushedOnce(v, root, reached, rest, done) && path in done && NoTwice(entries)
    requires forall i :: 0 <= i < |entries| ==>
               && entries[i] !in done && entries[i] !in rest && entries[i] != []
               && Parent(entries[i]) == path && ListedIn(v, root, reached, entries[i])
    ensures PushedOnce(v, root, reached, rest + entries, done)
  {
    var all := rest + entries;
    assert forall i :: 0 <= i < |all| ==> all[i] == if i < |rest| then rest[i] else entries[i - |rest|];
  }

  lemma StepPushesOnce(v: Volume, root: Path, reached: set<Path>, before: seq<Path>, done: set<Path>, push: bool)
    requires NamesOnce(v) && IsReach(v, root, reached) && PushedOnce(v, root, reached, before, done) && before != []
    requires push ==> before[|before| - 1] in reached && v.meta[before[|before| - 1]].isDir
    ensures var path := before[|before| - 1];
            var after := before[..|before| - 1] + (if push then Entries(v, path) else []);
            PushedOnce(v, root, reached, after, done + {path})
  {
    var path := before[|before| - 1];
    var rest := before[..|before| - 1];
    PopKeeps(v, root, reached, before, done);
    if push {
      EntriesAreNew(v, root, reached, before, done);
      PushKeeps(v, root, reached, rest, path, Entries(v, path), done + {path});
    } else {
      assert rest + [] == rest;
    }
  }

  lemma StepCovers(v: Volume, root: Path, reached: set<Path>, before: seq<Path>, done: set<Path>, push: bool)
    requires IsReach(v, root, reached) && Covered(reached, before, done) && before != []
    requires |before[|before| - 1]| >= |root|
    requires before[|before| - 1] in reached && v.meta[before[|before| - 1]].isDir ==> push
    ensures var path := before[|before| - 1];
            Covered(reached, before[..|before| - 1] + (if push then Entries(v, path) else []), done + {path})
  {
    var path := before[|before| - 1];
    var rest := before[..|before| - 1];
    var more := if push then Entries(v, path) else [];
    PushCovers(v, root, reached, before, rest, path, more, rest + more, done);
  }

  lemma PushCovers(v: Volume, root: Path, reached: set<Path>, before: seq<Path>, rest: seq<Path>, path: Path,
                   more: seq<Path>, after: seq<Path>, done: set<Path>)
    requires IsReach(v, root, reached) && Covered(reached, before, done) && |path| >= |root|
    requires before == rest + [path] && after == rest + more
    requires path in reached && v.meta[path].isDir ==> more == Entries(v, path)
    ensures Covered(reached, after, done + {path})
  {
    forall p | p in reached && p !in done && p != path
      ensures exists i :: 0 <= i < |after| && after[i] <= p
    {
      var i :| 0 <= i < |before| && before[i] <= p;
      var k := StillCovered(v, root, reached, rest, path, more, i, p);
    }
  }

  lemma StillCovered(v: Volume, root: Path, reached: set<Path>, rest: seq<Path>, path: Path, more: seq<Path>, i: nat,
                     p: Path)
    returns (k: nat)
    requires IsReach(v, root, reached) && p in reached && p != path && |path| >= |root|
    requires path in reached && v.meta[path].isDir ==> more == Entries(v, path)
    requires i <= |rest| && (if i < |rest| then rest[i] else path) <= p
    ensures k < |rest + more| && (rest + more)[k] <= p
  {
    if i < |rest| {
      k := i;
    } else {
      k := EntryOnTheWay(v, root, reached, path, p);
      LaterEntry(rest, more, k);
      k := |rest| + k;
    }
  }

  lemma LaterEntry(rest: seq<Path>, more: seq<Path>, k: nat)
    requires k < |more|
    ensures (rest + more)[|rest| + k] == more[k]
  {
  }

  lemma EntryOnTheWay(v: Volume, root: Path, reached: set<Path>, path: Path, p: Path) returns (k: nat)
    requires IsReach(v, root, reached) && p in reached && path <= p && p != path && |path| >= |root|
    ensures path in reached && v.meta[path].isDir && k < |Entries(v, path)| && Entries(v, path)[k] <= p
  {
    OnTheWay(v, root, reached, path, p);
    var names := Names(v, path);
    k :| 0 <= k < |names| && names[k] == p[|path|];
    NextOnTheWay(path, p);
  }

  lemma NextOnTheWay(path: Path, p: Path)
    requires path <= p && path != p
    ensures path + [p[|path|]] <= p
  {
  }

  /** An inode met before has a second link, and so is on the list of those; it is no directory. */
  lemma MetBefore(v: Volume, reached: set<Path>, done: set<Path>, linked: set<nat>, seen: map<nat, nat>, path: Path)
    requires reached <= v.meta.Keys && LinksAreCounted(v, reached) && Counted(v, reached, done, linked, seen)
    requires path in reached && path !in done
    ensures v.meta[path].ino in seen <==> v.meta[path].nlink > 1 && v.meta[path].ino in linked
    ensures v.meta[path].ino in seen ==> !v.meta[path].isDir && v.meta[path].blocks == seen[v.meta[path].ino]
  {
  }

  lemma CountOne(v: Volume, reached: set<Path>, done: set<Path>, linked: set<nat>, seen: map<nat, nat>, path: Path)
    requires reached <= v.meta.Keys && Counted(v, reached, done, linked, seen)
    requires path in reached && path !in done && v.meta[path].ino !in seen
    ensures var m := v.meta[path];
            && Total(seen[m.ino := m.blocks]) == Total(seen) + m.blocks
            && Counted(v, reached, done + {path}, NextLinked(m, linked), seen[m.ino := m.blocks])
  {
    var m := v.meta[path];
    TotalInsert(seen, m.ino, m.blocks);
    assert reached * (done + {path}) == reached * done + {path};
    var seen' := seen[m.ino := m.blocks];
    forall i | i in seen'
      ensures exists p :: p in reached * (done + {path}) && v.meta[p].ino == i
    {
      if i == m.ino {
        assert path in reached * (done + {path});
      } else {
        var p :| p in reached * done && v.meta[p].ino == i;
        assert p in reached * (done + {path});
      }
    }
  }

  lemma SkipOne(v: Volume, reached: set<Path>, done: set<Path>, linked: set<nat>, seen: map<nat, nat>, path: Path)
    requires reached <= v.meta.Keys && LinksAreCounted(v, reached) && Counted(v, reached, done, linked, seen)
    requires path !in done && (path in reached ==> v.meta[path].nlink > 1 && v.meta[path].ino in linked)
    ensures Counted(v, reached, done + {path}, linked, seen)
  {
    if path in reached {
      MetBefore(v, reached, done, linked, seen, path);
      assert reached * (done + {path}) == reached * done + {path};
    } else {
      assert reached * (done + {path}) == reached * done;
    }
  }

  /** What holds between two rounds of the walk. */
  ghost predicate WalkInv(v: Volume, root: Path, reached: set<Path>, pending: seq<Path>, done: set<Path>,
                          linked: set<nat>, seen: map<nat, nat>)
    requires reached <= v.meta.Keys
  {
    && PushedOnce(v, root, reached, pending, done)
    && (LinksAreCounted(v, reached) ==> Covered(reached, pending, done) && Counted(v, reached, done, linked, seen))
  }

  /** A path that has vanished, lies on another device, or is a second link. */
  predicate IsPassedOver(v: Volume, device: nat, linked: set<nat>, path: Path) {
    path !in v.meta || v.meta[path].dev != device || (v.meta[path].nlink > 1 && v.meta[path].ino in linked)
  }

  /** A path that has vanished, lies on another device, or is a second link is passed over. */
  lemma SkipKeeps(v: Volume, root: Path, reached: set<Path>, before: seq<Path>, done: set<Path>,
                  linked: set<nat>, seen: map<nat, nat>)
    requires NamesOnce(v) && IsReach(v, root, reached) && before != []
    requires WalkInv(v, root, reached, before, done, linked, seen)
    requires IsPassedOver(v, v.meta[root].dev, linked, before[|before| - 1])
    ensures WalkInv(v, root, reached, before[..|before| - 1], done + {before[|before| - 1]}, linked, seen)
    ensures |v.meta.Keys - (done + {before[|before| - 1]})| <= |v.meta.Keys - done|
  {
    PopShrinks(v.meta.Keys, done, before[|before| - 1]);
    var path := before[|before| - 1];
    assert before[..|before| - 1] + [] == before[..|before| - 1];
    StepPushesOnce(v, root, reached, before, done, false);
    if LinksAreCounted(v, reached) {
      if path in reached {
        MetBefore(v, reached, done, linked, seen, path);
      }
      SkipOne(v, reached, done, linked, seen, path);
      StepCovers(v, root, reached, before, done, false);
    }
  }

  function NextPending(v: Volume, pending: seq<Path>): seq<Path>
    requires pending != [] && pending[|pending| - 1] in v.meta
  {
    var path := pending[|pending| - 1];
    pending[..|pending| - 1] + if v.meta[path].isDir then Entries(v, path) else []
  }

  function NextLinked(m: Meta, linked: set<nat>): set<nat> {
    if m.nlink > 1 then linked + {m.ino} else linked
  }

  /** Any other path is counted, and opened if it is a directory. */
  lemma CountKeeps(v: Volume, root: Path, reached: set<Path>, before: seq<Path>, done: set<Path>,
                   linked: set<nat>, seen: map<nat, nat>)
    requires NamesOnce(v) && IsReach(v, root, reached) && before != []
    requires WalkInv(v, root, reached, before, done, linked, seen)
    requires !IsPassedOver(v, v.meta[root].dev, linked, before[|before| - 1])
    ensures var path := before[|before| - 1];
            var m := v.meta[path];
            && WalkInv(v, root, reached, NextPending(v, before), done + {path}, NextLinked(m, linked),
                       seen[m.ino := m.blocks])
            && (LinksAreCounted(v, reached) ==> Total(seen[m.ino := m.blocks]) == Total(seen) + m.blocks)
            && |v.meta.Keys - (done + {path})| < |v.meta.Keys - done|
  {
    var path := before[|before| - 1];
    PopShrinks(v.meta.Keys, done, path);
    assert path in reached;
    StepPushesOnce(v, root, reached, before, done, v.meta[path].isDir);
    if LinksAreCounted(v, reached) {
      MetBefore(v, reached, done, linked, seen, path);
      CountOne(v, reached, done, linked, seen, path);
      StepCovers(v, root, reached, before, done, v.meta[path].isDir);
    }
  }

  /** The walk from a root that is there.  The ghost parameter is the set of paths that can be reached. */
  method Walk(v: Volume, root: Path, ghost reached: set<Path>) returns (total: nat, ghost seen: map<nat, nat>)
    requires NamesOnce(v) && IsReach(v, root, reached)
    ensures total <= MAX
    ensures LinksAreCounted(v, reached) ==> IsInodeTable(v, reached, seen) && Tallied(total, seen)
  {
    var device := v.meta[root].dev;
    var linked: set<nat> := {};
    var pending: seq<Path> := [root];
    total, seen := 0, map[];
    ghost var done: set<Path> := {};
    WalkStarts(v, root, reached);
    while pending != []
      invariant WalkInv(v, root, reached, pending, done, linked, seen)
      invariant LinksAreCounted(v, reached) ==> Tallied(total, seen)
      invariant total <= MAX
      decreases |v.meta.Keys - done|, |pending|
    {
      var path := pending[|pending| - 1];
      if IsPassedOver(v, device, linked, path) {
        SkipKeeps(v, root, reached, pending, done, linked, seen);
        pending, done := pending[..|pending| - 1], done + {path};
        continue;
      }
      var meta := v.meta[path];
      CountKeeps(v, root, reached, pending, done, linked, seen);
      if LinksAreCounted(v, reached) {
        TallyOne(total, seen, seen[meta.ino := meta.blocks], meta.blocks);
      }
      linked := NextLinked(meta, linked);
      total := AddBlocks(total, meta.blocks);
      pending := NextPending(v, pending);
      seen, done := seen[meta.ino := meta.blocks], done + {path};
    }
    if LinksAreCounted(v, reached) {
      WalkEnds(v, root, reached, done, linked, seen);
    }
  }

  lemma WalkStarts(v: Volume, root: Path, reached: set<Path>)
    requires IsReach(v, root, reached)
    ensures WalkInv(v, root, reached, [root], {}, {}, map[]) && Total(map[]) == 0
  {
    RootCovers(v, root, reached);
    assert reached * {} == {};
  }

  lemma WalkEnds(v: Volume, root: Path, reached: set<Path>, done: set<Path>, linked: set<nat>, seen: map<nat, nat>)
    requires reached <= v.meta.Keys && WalkInv(v, root, reached, [], done, linked, seen) && LinksAreCounted(v, reached)
    ensures IsInodeTable(v, reached, seen)
  {
    assert forall p :: p in reached ==> p in done;
    assert reached * done == reached;
  }

  lemma RootCovers(v: Volume, root: Path, reached: set<Path>)
    requires IsReach(v, root, reached)
    ensures Covered(reached, [root], {})
  {
    forall p | p in reached
      ensures [root][0] <= p
    {
      BelowRoot(v, root, reached, p);
    }
  }

  lemma PopShrinks(keys: set<Path>, done: set<Path>, path: Path)
    requires path !in done
    ensures path in keys ==> |keys - (done + {path})| < |keys - done|
    ensures path !in keys ==> keys - (done + {path}) == keys - done
  {
    if path in keys {
      assert keys - (done + {path}) == (keys - done) - {path};
    }
  }

  /** 512 times the blocks of each distinct inode reached, or the largest 64-bit number if that is less. */
  ghost predicate IsUsage(v: Volume, root: Path, total: nat) {
    exists blocks :: IsInodeTable(v, Reached(v, root), blocks) && IsCapped(total, 512 * Total(blocks))
  }

  ghost predicate IsCapped(total: nat, exact: nat) {
    if exact <= 0xFFFF_FFFF_FFFF_FFFF then total == exact else total == 0xFFFF_FFFF_FFFF_FFFF
  }

  /**
  The walk ends on every finite volume, and the result is 512 times the blocks of each distinct inode
  reached, counted once and saturated, whatever order the entries come in.
  */
  method UsageBytes(v: Volume, root: Path) returns (total: nat)
    requires NamesOnce(v)
    ensures total <= 0xFFFF_FFFF_FFFF_FFFF
    ensures root !in v.meta ==> total == 0
    ensures LinksAreCounted(v, Reached(v, root)) ==> IsUsage(v, root, total)
  {
    if root !in v.meta {
      assert IsInodeTable(v, Reached(v, root), map[]) && IsCapped(0, 512 * Total(map[]));
      return 0;
    }
    ReachedIsReach(v, root);
    ghost var seen;
    total, seen := Walk(v, root, Reached(v, root));
    if LinksAreCounted(v, Reached(v, root)) {
      assert IsInodeTable(v, Reached(v, root), seen) && IsCapped(total, 512 * Total(seen));
    }
  }

  // ----- the order of entries -----

  ghost predicate SameEntries(a: Volume, b: Volume) {
    a.meta == b.meta && forall p, n :: n in Names(a, p) <==> n in Names(b, p)
  }

  /** What is reached, and so what is measured, does not depend on the order directories return their entries in. */
  lemma AnyOrderReachesTheSame(a: Volume, b: Volume, root: Path)
    requires SameEntries(a, b)
    ensures Reached(a, root) == Reached(b, root)
  {
    forall p | p in a.meta
      ensures Visible(a, root, p) <==> Visible(b, root, p)
    {
      VisibleInAnyOrder(a, b, root, p);
    }
  }

  /** So two volumes that differ in that order only have one and the same usage. */
  lemma AnyOrderUsesTheSame(a: Volume, b: Volume, root: Path, x: nat, y: nat)
    requires SameEntries(a, b) && IsUsage(a, root, x) && IsUsage(b, root, y)
    ensures x == y
  {
    AnyOrderReachesTheSame(a, b, root);
    var reached := Reached(a, root);
    var s :| IsInodeTable(a, reached, s) && IsCapped(x, 512 * Total(s));
    var t :| IsInodeTable(b, reached, t) && IsCapped(y, 512 * Total(t));
    assert IsInodeTable(a, reached, t);
    TableIsUnique(a, reached, s, t);
  }

  lemma {:induction false} VisibleInAnyOrder(a: Volume, b: Volume, root: Path, p: Path)
    requires SameEntries(a, b)
    ensures Visible(a, root, p) <==> Visible(b, root, p)
    decreases |p|
  {
    if |p| > |root| {
      VisibleInAnyOrder(a, b, root, Parent(p));
    }
  }
}
