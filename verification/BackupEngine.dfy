/**
The backup engine as a crash-prone writer.

What a run captures is fixed by the cluster's answers: each planned claim's extraction, and the
non-claim artifacts with the manifest last, as writes made in order.  A `World` holds the staging
directory and the repository; every call on it may fail, a `restic backup` that reports failure may
have written its snapshot all the same, and a failed extraction leaves what it had written so far.
*/
module BackupEngine {
  import opened Numbers
  import opened Wrappers
  import RunTag
  import Text

  // ----- trees and writes -----

  datatype Node = Dir | File(content: string)

  type Path = seq<string>

  type Tree = map<Path, Node>

  datatype Write = Write(path: Path, node: Node)

  /** The tree after writing `ws` in order onto `t`. */
  function Put(t: Tree, ws: seq<Write>): Tree {
    if ws == [] then t
    else Put(t, ws[..|ws| - 1])[ws[|ws| - 1].path := ws[|ws| - 1].node]
  }

  function Written(ws: seq<Write>): Tree {
    Put(map[], ws)
  }

  lemma {:induction false} PutAppend(t: Tree, a: seq<Write>, b: seq<Write>)
    ensures Put(t, a + b) == Put(Put(t, a), b)
  {
    if b == [] {
      assert a + b == a;
    } else {
      var init := b[..|b| - 1];
      PutAppend(t, a, init);
      assert (a + b)[..|a + b| - 1] == a + init;
    }
  }

  /** Writing onto a tree is overlaying it with what is written. */
  lemma {:induction false} PutIsOverlay(t: Tree, ws: seq<Write>)
    ensures Put(t, ws) == t + Written(ws)
  {
    if ws != [] {
      PutIsOverlay(t, ws[..|ws| - 1]);
    }
  }

  // ----- what a run captures -----

  datatype DataKind = Pg | Redis | Volume | JetStream

  function PayloadDir(k: DataKind): string {
    match k case Pg => "pg" case Redis => "redis" case Volume => "volumes" case JetStream => "jetstream"
  }

  /** One planned claim: the files its extraction writes, in order, below its kind's payload directory. */
  datatype Item = Item(kind: DataKind, files: seq<Write>)

  function ItemWrites(item: Item): seq<Write> {
    seq(|item.files|, i requires 0 <= i < |item.files| =>
      Write([PayloadDir(item.kind)] + item.files[i].path, item.files[i].node))
  }

  datatype Section = Crs | Secrets | Certs

  function SectionDir(s: Section): string {
    match s case Crs => "crs" case Secrets => "secrets" case Certs => "certs"
  }

  const MANIFEST: Path := ["manifest.json"]

  /** The custom resources, secrets and certificates of a run, and its manifest. */
  datatype Artifacts = Artifacts(files: seq<(Section, Write)>, manifest: string)

  function CommitWrites(a: Artifacts): seq<Write> {
    seq(|a.files|, i requires 0 <= i < |a.files| =>
      Write([SectionDir(a.files[i].0)] + a.files[i].1.path, a.files[i].1.node))
    + [Write(MANIFEST, File(a.manifest))]
  }

  function AllItemWrites(plan: seq<Item>): seq<Write> {
    if plan == [] then [] else AllItemWrites(plan[..|plan| - 1]) + ItemWrites(plan[|plan| - 1])
  }

  function MonolithicWrites(plan: seq<Item>, a: Artifacts): seq<Write> {
    AllItemWrites(plan) + CommitWrites(a)
  }

  datatype Opts = Opts(clusterUid: string, createdAt: string, namespaces: seq<string>, isSubset: bool)

  function Tag(opts: Opts): string {
    RunTag.RunTag(opts.clusterUid, opts.createdAt, if opts.isSubset then opts.namespaces else [])
  }

  /** The tag in full: a subset run names its namespaces, any other does not. */
  lemma TagOfRun(opts: Opts)
    ensures !opts.isSubset || opts.namespaces == [] ==> Tag(opts) == opts.clusterUid + "-" + opts.createdAt
    ensures opts.isSubset && opts.namespaces != [] ==>
              Tag(opts) == opts.clusterUid + "-" + opts.createdAt + "-ns-" + Text.Join(opts.namespaces, '_')
  {
    RunTag.TagText(opts.clusterUid, opts.createdAt, if opts.isSubset then opts.namespaces else []);
  }

  // ----- what a tree holds, said without the functions that write it -----

  /** `p` is where a claim of this kind keeps `path`. */
  ghost predicate AtKind(k: DataKind, p: Path, path: Path) {
    match k
    case Pg => p == ["pg"] + path
    case Redis => p == ["redis"] + path
    case Volume => p == ["volumes"] + path
    case JetStream => p == ["jetstream"] + path
  }

  ghost predicate AtSection(s: Section, p: Path, path: Path) {
    match s
    case Crs => p == ["crs"] + path
    case Secrets => p == ["secrets"] + path
    case Certs => p == ["certs"] + path
  }

  /** The claim's `j`th file belongs at `p`. */
  ghost predicate FileAt(item: Item, j: int, p: Path) {
    0 <= j < |item.files| && AtKind(item.kind, p, item.files[j].path)
  }

  /** Everything the claim's extraction wrote, each path with what was written to it last, and nothing else. */
  ghost predicate HoldsClaim(t: Tree, item: Item) {
    && (forall p :: p in t <==> exists j :: FileAt(item, j, p))
    && (forall p, j :: FileAt(item, j, p) && (forall m :: m > j ==> !FileAt(item, m, p)) ==>
          p in t && t[p] == item.files[j].node)
  }

  ghost predicate ArtifactAt(a: Artifacts, j: int, p: Path) {
    0 <= j < |a.files| && AtSection(a.files[j].0, p, a.files[j].1.path)
  }

  /** The manifest, and every artifact where its section keeps it. */
  ghost predicate HoldsCommit(t: Tree, a: Artifacts) {
    && (forall p :: p in t <==> p == ["manifest.json"] || exists j :: ArtifactAt(a, j, p))
    && ["manifest.json"] in t && t[["manifest.json"]] == File(a.manifest)
    && (forall p, j :: ArtifactAt(a, j, p) && (forall m :: m > j ==> !ArtifactAt(a, m, p)) ==>
          p in t && t[p] == a.files[j].1.node)
  }

  ghost predicate PlanFileAt(plan: seq<Item>, i: int, j: int, p: Path) {
    0 <= i < |plan| && FileAt(plan[i], j, p)
  }

  predicate Later(i: int, j: int, k: int, m: int) {
    k > i || (k == i && m > j)
  }

  /** Every claim's files, a later claim's and a later write's over the earlier ones. */
  ghost predicate HoldsPlan(t: Tree, plan: seq<Item>) {
    && (forall p :: p in t <==> exists i, j :: PlanFileAt(plan, i, j, p))
    && (forall p, i, j :: PlanFileAt(plan, i, j, p) && IsLastAt(plan, i, j, p) ==>
          p in t && t[p] == plan[i].files[j].node)
  }

  ghost predicate IsLastAt(plan: seq<Item>, i: int, j: int, p: Path) {
    forall k, m :: Later(i, j, k, m) ==> !PlanFileAt(plan, k, m, p)
  }

  /** The whole: what the plan holds and what the commit holds, which share no path. */
  ghost predicate HoldsAll(t: Tree, plan: seq<Item>, a: Artifacts) {
    exists claims, commit :: IsBoth(t, claims, commit, plan, a)
  }

  ghost predicate IsBoth(t: Tree, claims: Tree, commit: Tree, plan: seq<Item>, a: Artifacts) {
    HoldsPlan(claims, plan) && HoldsCommit(commit, a) && claims.Keys !! commit.Keys && t == claims + commit
  }

  lemma {:induction false} WrittenPaths(ws: seq<Write>, p: Path)
    ensures p in Written(ws) <==> exists i :: 0 <= i < |ws| && ws[i].path == p
  {
    if ws != [] {
      var init := ws[..|ws| - 1];
      WrittenPaths(init, p);
      assert forall i :: 0 <= i < |init| ==> init[i] == ws[i];
    }
  }

  /** What was written to a path last is what is there. */
  lemma {:induction false} LastNode(ws: seq<Write>, i: nat)
    requires i < |ws| && forall m :: i < m < |ws| ==> ws[m].path != ws[i].path
    ensures ws[i].path in Written(ws) && Written(ws)[ws[i].path] == ws[i].node
  {
    if i < |ws| - 1 {
      LastNode(ws[..|ws| - 1], i);
    }
  }

  lemma ClaimFile(item: Item, j: int, p: Path)
    ensures FileAt(item, j, p) <==> 0 <= j < |item.files| && ItemWrites(item)[j].path == p
    ensures FileAt(item, j, p) ==> ItemWrites(item)[j].node == item.files[j].node
  {
    if 0 <= j < |item.files| {
      assert AtKind(item.kind, p, item.files[j].path) <==> p == [PayloadDir(item.kind)] + item.files[j].path;
    }
  }

  lemma ClaimPaths(item: Item, p: Path)
    ensures p in Written(ItemWrites(item)) <==> exists j :: FileAt(item, j, p)
  {
    var ws := ItemWrites(item);
    WrittenPaths(ws, p);
    if j :| FileAt(item, j, p) {
      ClaimFile(item, j, p);
    }
    if i :| 0 <= i < |ws| && ws[i].path == p {
      ClaimFile(item, i, p);
    }
  }

  lemma ClaimNode(item: Item, j: int, p: Path)
    requires FileAt(item, j, p) && forall m :: m > j ==> !FileAt(item, m, p)
    ensures p in Written(ItemWrites(item)) && Written(ItemWrites(item))[p] == item.files[j].node
  {
    var ws := ItemWrites(item);
    ClaimFile(item, j, p);
    forall m | j < m < |ws|
      ensures ws[m].path != p
    {
      ClaimFile(item, m, p);
    }
    LastNode(ws, j);
  }

  /** A claim's snapshot holds the claim. */
  lemma ClaimIsHeld(item: Item)
    ensures HoldsClaim(Written(ItemWrites(item)), item)
  {
    var t := Written(ItemWrites(item));
    forall p
      ensures p in t <==> exists j :: FileAt(item, j, p)
    {
      ClaimPaths(item, p);
    }
    forall p, j | FileAt(item, j, p) && forall m :: m > j ==> !FileAt(item, m, p)
      ensures p in t && t[p] == item.files[j].node
    {
      ClaimNode(item, j, p);
    }
  }

  lemma CommitFile(a: Artifacts, j: int, p: Path)
    ensures ArtifactAt(a, j, p) <==> 0 <= j < |a.files| && CommitWrites(a)[j].path == p
    ensures ArtifactAt(a, j, p) ==> CommitWrites(a)[j].node == a.files[j].1.node && p != ["manifest.json"]
    ensures ArtifactAt(a, j, p) ==> p != [] && p[0] == SectionDir(a.files[j].0)
  {
    if 0 <= j < |a.files| {
      var s, path := a.files[j].0, a.files[j].1.path;
      assert AtSection(s, p, path) <==> p == [SectionDir(s)] + path;
      assert ([SectionDir(s)] + path)[0] == SectionDir(s);
      NoSectionIsTheManifest(s);
    }
  }

  lemma NoSectionIsTheManifest(s: Section)
    ensures SectionDir(s) != "manifest.json"
  {
    assert |"crs"| == 3 && |"secrets"| == 7 && |"certs"| == 5 && |"manifest.json"| == 13;
  }

  lemma ManifestWrite(a: Artifacts)
    ensures var ws := CommitWrites(a);
            |ws| == |a.files| + 1 && ws[|a.files|] == Write(["manifest.json"], File(a.manifest))
  {
  }

  lemma CommitPaths(a: Artifacts, p: Path)
    ensures p in Written(CommitWrites(a)) <==> p == ["manifest.json"] || exists j :: ArtifactAt(a, j, p)
  {
    var ws := CommitWrites(a);
    ManifestWrite(a);
    WrittenPaths(ws, p);
    if j :| ArtifactAt(a, j, p) {
      CommitFile(a, j, p);
    }
    if i :| 0 <= i < |ws| && ws[i].path == p {
      CommitFile(a, i, p);
    }
  }

  lemma CommitNode(a: Artifacts, j: int, p: Path)
    requires ArtifactAt(a, j, p) && forall m :: m > j ==> !ArtifactAt(a, m, p)
    ensures p in Written(CommitWrites(a)) && Written(CommitWrites(a))[p] == a.files[j].1.node
  {
    var ws := CommitWrites(a);
    ManifestWrite(a);
    CommitFile(a, j, p);
    forall m | j < m < |ws|
      ensures ws[m].path != p
    {
      CommitFile(a, m, p);
    }
    LastNode(ws, j);
  }

  /** The commit snapshot holds the artifacts and the manifest. */
  lemma CommitIsHeld(a: Artifacts)
    ensures HoldsCommit(Written(CommitWrites(a)), a)
  {
    var t := Written(CommitWrites(a));
    forall p
      ensures p in t <==> p == ["manifest.json"] || exists j :: ArtifactAt(a, j, p)
    {
      CommitPaths(a, p);
    }
    ManifestWrite(a);
    LastNode(CommitWrites(a), |a.files|);
    forall p, j | ArtifactAt(a, j, p) && forall m :: m > j ==> !ArtifactAt(a, m, p)
      ensures p in t && t[p] == a.files[j].1.node
    {
      CommitNode(a, j, p);
    }
  }

  lemma PlanPaths(plan: seq<Item>, p: Path)
    ensures p in Written(AllItemWrites(plan)) <==> exists i, j :: PlanFileAt(plan, i, j, p)
    decreases |plan|
  {
    if plan != [] {
      var n := |plan| - 1;
      PlanPaths(plan[..n], p);
      ClaimPaths(plan[n], p);
      PlanSplits(plan);
      if i, j :| PlanFileAt(plan[..n], i, j, p) {
        assert PlanFileAt(plan, i, j, p);
      }
      if j :| FileAt(plan[n], j, p) {
        assert PlanFileAt(plan, n, j, p);
      }
      if i, j :| PlanFileAt(plan, i, j, p) {
        assert i == n || PlanFileAt(plan[..n], i, j, p);
      }
    }
  }

  lemma PlanSplits(plan: seq<Item>)
    requires plan != []
    ensures var n := |plan| - 1;
            Written(AllItemWrites(plan)) == Written(AllItemWrites(plan[..n])) + Written(ItemWrites(plan[n]))
  {
    var n := |plan| - 1;
    PutAppend(map[], AllItemWrites(plan[..n]), ItemWrites(plan[n]));
    PutIsOverlay(Written(AllItemWrites(plan[..n])), ItemWrites(plan[n]));
  }

  lemma {:induction false} PlanNode(plan: seq<Item>, i: int, j: int, p: Path)
    requires PlanFileAt(plan, i, j, p) && IsLastAt(plan, i, j, p)
    ensures p in Written(AllItemWrites(plan)) && Written(AllItemWrites(plan))[p] == plan[i].files[j].node
    decreases |plan|
  {
    var n := |plan| - 1;
    PlanSplits(plan);
    if i == n {
      forall m | m > j
        ensures !FileAt(plan[n], m, p)
      {
        assert Later(i, j, n, m) && (FileAt(plan[n], m, p) ==> PlanFileAt(plan, n, m, p));
      }
      ClaimNode(plan[n], j, p);
    } else {
      forall m
        ensures !FileAt(plan[n], m, p)
      {
        assert Later(i, j, n, m) && (FileAt(plan[n], m, p) ==> PlanFileAt(plan, n, m, p));
      }
      ClaimPaths(plan[n], p);
      forall k, m | Later(i, j, k, m)
        ensures !PlanFileAt(plan[..n], k, m, p)
      {
        assert PlanFileAt(plan[..n], k, m, p) ==> PlanFileAt(plan, k, m, p);
      }
      PlanNode(plan[..n], i, j, p);
    }
  }

  lemma PlanIsHeld(plan: seq<Item>)
    ensures HoldsPlan(Written(AllItemWrites(plan)), plan)
  {
    var t := Written(AllItemWrites(plan));
    forall p
      ensures p in t <==> exists i, j :: PlanFileAt(plan, i, j, p)
    {
      PlanPaths(plan, p);
    }
    forall p, i, j | PlanFileAt(plan, i, j, p) && IsLastAt(plan, i, j, p)
      ensures p in t && t[p] == plan[i].files[j].node
    {
      PlanNode(plan, i, j, p);
    }
  }

  /** A claim's first directory is never a section's, nor the manifest. */
  lemma KindIsNoSection(k: DataKind, s: Section)
    ensures PayloadDir(k) != SectionDir(s) && PayloadDir(k) != "manifest.json"
  {
    assert "pg"[0] == 'p' && "redis"[0] == 'r' && "volumes"[0] == 'v' && "jetstream"[0] == 'j';
    assert "crs"[0] == 'c' && "secrets"[0] == 's' && "certs"[0] == 'c' && "manifest.json"[0] == 'm';
  }

  lemma ClaimsAndCommitApart(plan: seq<Item>, a: Artifacts, p: Path)
    requires p in Written(AllItemWrites(plan))
    ensures p !in Written(CommitWrites(a))
  {
    PlanPaths(plan, p);
    var i, j :| PlanFileAt(plan, i, j, p);
    ClaimFile(plan[i], j, p);
    KindIsNoSection(plan[i].kind, Crs);
    assert p[0] == PayloadDir(plan[i].kind);
    CommitPaths(a, p);
    if m :| ArtifactAt(a, m, p) {
      CommitFile(a, m, p);
      KindIsNoSection(plan[i].kind, a.files[m].0);
    }
  }

  /** A monolithic snapshot holds all of it. */
  lemma AllIsHeld(plan: seq<Item>, a: Artifacts)
    ensures HoldsAll(Written(MonolithicWrites(plan, a)), plan, a)
  {
    var claims, commit := Written(AllItemWrites(plan)), Written(CommitWrites(a));
    PlanIsHeld(plan);
    CommitIsHeld(a);
    forall p | p in claims
      ensures p !in commit
    {
      ClaimsAndCommitApart(plan, a, p);
    }
    PutAppend(map[], AllItemWrites(plan), CommitWrites(a));
    PutIsOverlay(claims, CommitWrites(a));
    assert IsBoth(Written(MonolithicWrites(plan, a)), claims, commit, plan, a);
  }

  // ----- the world -----

  datatype DirName = DataDir | ClaimDir(i: nat) | CommitDir

  datatype Snapshot = Snapshot(tag: string, root: DirName, tree: Tree)

  type Stage = map<DirName, Tree>

  /** Which calls fail, and which failing backups wrote their snapshot before they failed. */
  datatype Faults = Faults(fails: nat -> bool, wroteAnyway: nat -> bool)

  class World {
    const faults: Faults
    var calls: nat
    var staging: Stage
    var repo: seq<Snapshot>
    // Every snapshot restic was asked for, and every state the staging directory has been in.
    var attempts: seq<Snapshot>
    ghost var history: seq<Stage>

    constructor (faults: Faults)
      ensures this.faults == faults && staging == map[] && repo == [] && attempts == [] && history == []
    {
      this.faults := faults;
      calls, staging, repo, attempts, history := 0, map[], [], [], [];
    }

    method Call() returns (ok: bool)
      modifies this`calls
      ensures ok == !faults.fails(old(calls)) && calls == old(calls) + 1
    {
      ok := !faults.fails(calls);
      calls := calls + 1;
    }

    method MakeDir(d: DirName) returns (ok: bool)
      requires d !in staging
      modifies this`calls, this`staging, this`history
      ensures staging == if ok then old(staging)[d := map[]] else old(staging)
      ensures history == if ok then old(history) + [staging] else old(history)
    {
      ok := Call();
      if ok {
        staging := staging[d := map[]];
        history := history + [staging];
      }
    }

    /** Writes in order until one fails; what was written before that stays. */
    method WriteAll(d: DirName, ws: seq<Write>) returns (ok: bool)
      requires staging == map[d := map[]]
      modifies this`calls, this`staging, this`history
      ensures ok ==> staging == map[d := Written(ws)] && history == old(history) + WriteStages(d, ws)
      ensures old(history) <= history <= old(history) + WriteStages(d, ws)
    {
      for n := 0 to |ws|
        invariant staging == map[d := Written(ws[..n])]
        invariant history == old(history) + WriteStages(d, ws)[..n]
      {
        var done := Call();
        if !done {
          return false;
        }
        assert ws[..n + 1][..n] == ws[..n];
        staging := map[d := staging[d][ws[n].path := ws[n].node]];
        history := history + [staging];
        assert WriteStages(d, ws)[..n + 1] == WriteStages(d, ws)[..n] + [staging];
      }
      assert ws[..|ws|] == ws;
      assert WriteStages(d, ws)[..|ws|] == WriteStages(d, ws);
      return true;
    }

    /** One `restic backup` of a staged directory; on success the id it reports, if any, is the snapshot's. */
    method Backup(d: DirName, tag: string) returns (r: Result<Option<nat>>)
      requires d in staging
      modifies this`calls, this`repo, this`attempts
      ensures attempts == old(attempts) + [Snapshot(tag, d, staging[d])]
      ensures r.Ok? ==> repo == old(repo) + [Snapshot(tag, d, staging[d])]
      ensures r.Ok? && r.value.Some? ==> r.value.value == |old(repo)|
      ensures r.Err? ==> repo == old(repo) || repo == old(repo) + [Snapshot(tag, d, staging[d])]
    {
      var snapshot := Snapshot(tag, d, staging[d]);
      attempts := attempts + [snapshot];
      var ok := Call();
      if ok {
        var reported := Call();
        r := Ok(if reported then Some(|repo|) else None);
        repo := repo + [snapshot];
      } else {
        r := Err;
        if faults.wroteAnyway(calls) {
          repo := repo + [snapshot];
        }
      }
    }

    method RemoveDir(d: DirName) returns (ok: bool)
      requires staging.Keys == {d}
      modifies this`calls, this`staging, this`history
      ensures ok ==> staging == map[] && history == old(history) + [staging]
      ensures !ok ==> staging == old(staging) && history == old(history)
    {
      ok := Call();
      if ok {
        staging := staging - {d};
        assert staging == map[];
        history := history + [staging];
      }
    }
  }

  function WriteStages(d: DirName, ws: seq<Write>): seq<Stage> {
    seq(|ws|, n requires 0 <= n < |ws| => map[d := Written(ws[..n + 1])])
  }

  // ----- what the runs are to do -----

  /** The snapshots a sequential run is to write, in order: one per claim, and the commit point last. */
  function Planned(plan: seq<Item>, a: Artifacts, tag: string): seq<Snapshot> {
    ClaimSnapshots(plan, tag) + [Snapshot(tag, CommitDir, Written(CommitWrites(a)))]
  }

  function ClaimSnapshots(plan: seq<Item>, tag: string): seq<Snapshot> {
    seq(|plan|, i requires 0 <= i < |plan| => ClaimSnapshot(i, plan[i], tag))
  }

  function ClaimSnapshot(i: nat, item: Item, tag: string): Snapshot {
    Snapshot(tag, ClaimDir(i), Written(ItemWrites(item)))
  }

  /** The states the staging directory is to pass through. */
  function ClaimStages(i: nat, item: Item): seq<Stage> {
    [map[ClaimDir(i) := map[]]] + WriteStages(ClaimDir(i), ItemWrites(item)) + [map[]]
  }

  function PlanStages(plan: seq<Item>): seq<Stage> {
    if plan == [] then [] else PlanStages(plan[..|plan| - 1]) + ClaimStages(|plan| - 1, plan[|plan| - 1])
  }

  function SequentialStages(plan: seq<Item>, a: Artifacts): seq<Stage> {
    PlanStages(plan) + [map[CommitDir := map[]]] + WriteStages(CommitDir, CommitWrites(a))
  }

  function MonolithicStages(plan: seq<Item>, a: Artifacts): seq<Stage> {
    [map[DataDir := map[]]] + WriteStages(DataDir, MonolithicWrites(plan, a))
  }

  lemma {:induction false} PlanStagesPrefix(plan: seq<Item>, k: nat)
    requires k <= |plan|
    ensures PlanStages(plan[..k]) <= PlanStages(plan)
  {
    if k < |plan| {
      PlanStagesPrefix(plan[..|plan| - 1], k);
      assert plan[..|plan| - 1][..k] == plan[..k];
    } else {
      assert plan[..k] == plan;
    }
  }

  /** The repository gained every snapshot attempted, except perhaps the last one. */
  ghost predicate OneShort(attempts0: seq<Snapshot>, attempts: seq<Snapshot>,
                           repo0: seq<Snapshot>, repo: seq<Snapshot>)
  {
    attempts0 <= attempts &&
    var made := attempts[|attempts0|..];
    repo == repo0 + made || (made != [] && repo == repo0 + made[..|made| - 1])
  }

  function OpenStages(d: DirName, ws: seq<Write>): seq<Stage> {
    [map[d := map[]]] + WriteStages(d, ws)
  }

  /** Stage one directory and back it up. */
  method StageAndBackup(w: World, d: DirName, ws: seq<Write>, tag: string) returns (r: Result<Option<nat>>)
    requires w.staging == map[]
    modifies w
    ensures old(w.history) <= w.history <= old(w.history) + OpenStages(d, ws)
    ensures old(w.attempts) <= w.attempts <= old(w.attempts) + [Snapshot(tag, d, Written(ws))]
    ensures OneShort(old(w.attempts), w.attempts, old(w.repo), w.repo)
    ensures r.Ok? ==>
              && w.history == old(w.history) + OpenStages(d, ws)
              && w.staging == map[d := Written(ws)]
              && w.attempts == old(w.attempts) + [Snapshot(tag, d, Written(ws))]
              && w.repo == old(w.repo) + [Snapshot(tag, d, Written(ws))]
              && (r.value.Some? ==> r.value.value == |old(w.repo)|)
  {
    var ok := w.MakeDir(d);
    if !ok {
      return Err;
    }
    ok := w.WriteAll(d, ws);
    if !ok {
      return Err;
    }
    r := w.Backup(d, tag);
  }

  /** Longer runs gain the same way: attempts that all succeeded, then one short. */
  lemma OneShortAfter(attempts0: seq<Snapshot>, attempts: seq<Snapshot>, repo0: seq<Snapshot>, repo: seq<Snapshot>,
                      done: seq<Snapshot>)
    requires OneShort(attempts0 + done, attempts, repo0 + done, repo)
    ensures OneShort(attempts0, attempts, repo0, repo)
  {
    var made := attempts[|attempts0 + done|..];
    assert attempts[..|attempts0 + done|] == attempts0 + done;
    assert attempts == attempts0 + done + made;
    assert attempts == attempts0 + (done + made);
    OneShortMade(attempts0, repo0, repo, done, made);
  }

  lemma OneShortMade(attempts0: seq<Snapshot>, repo0: seq<Snapshot>, repo: seq<Snapshot>, done: seq<Snapshot>,
                     made: seq<Snapshot>)
    requires repo == repo0 + done + made || (made != [] && repo == repo0 + done + made[..|made| - 1])
    ensures OneShort(attempts0, attempts0 + (done + made), repo0, repo)
  {
    assert (attempts0 + (done + made))[|attempts0|..] == done + made;
    if made != [] {
      assert (done + made)[..|done + made| - 1] == done + made[..|made| - 1];
    }
  }

  lemma PrefixAfter<T>(s: seq<T>, start: seq<T>, done: seq<T>, next: seq<T>, all: seq<T>)
    requires start + done <= s <= start + done + next && done + next <= all
    ensures start <= s <= start + all
  {
    assert (start + all)[..|start + done + next|] == start + done + next;
  }

  /** One claim: stage it, back it up, remove it. */
  method StageClaim(w: World, i: nat, item: Item, tag: string) returns (r: Result<Option<nat>>)
    requires w.staging == map[]
    modifies w
    ensures old(w.history) <= w.history <= old(w.history) + ClaimStages(i, item)
    ensures old(w.attempts) <= w.attempts <= old(w.attempts) + [ClaimSnapshot(i, item, tag)]
    ensures OneShort(old(w.attempts), w.attempts, old(w.repo), w.repo)
    ensures r.Ok? ==>
              && w.history == old(w.history) + ClaimStages(i, item)
              && w.staging == map[]
              && w.attempts == old(w.attempts) + [ClaimSnapshot(i, item, tag)]
              && w.repo == old(w.repo) + [ClaimSnapshot(i, item, tag)]
              && (r.value.Some? ==> r.value.value == |old(w.repo)|)
  {
    assert OpenStages(ClaimDir(i), ItemWrites(item)) + [map[]] == ClaimStages(i, item);
    r := StageAndBackup(w, ClaimDir(i), ItemWrites(item), tag);
    if r.Err? {
      return;
    }
    var ok := w.RemoveDir(ClaimDir(i));
    if !ok {
      r := Err;
    }
  }

  lemma OneMore<T>(s: seq<T>, i: nat)
    requires i < |s|
    ensures s[..i] + [s[i]] == s[..i + 1]
  {
  }

  lemma AllOf<T>(s: seq<T>)
    ensures s[..|s|] == s
  {
  }

  /** Each claim in turn: stage it, back it up, remove it.  Whatever fails, nothing after it is attempted. */
  method StageClaims(w: World, plan: seq<Item>, tag: string) returns (r: Result<Option<nat>>)
    requires w.staging == map[]
    modifies w
    ensures old(w.attempts) <= w.attempts <= old(w.attempts) + ClaimSnapshots(plan, tag)
    ensures old(w.history) <= w.history <= old(w.history) + PlanStages(plan)
    ensures OneShort(old(w.attempts), w.attempts, old(w.repo), w.repo)
    ensures r.Ok? ==>
              && w.attempts == old(w.attempts) + ClaimSnapshots(plan, tag)
              && w.repo == old(w.repo) + ClaimSnapshots(plan, tag)
              && w.history == old(w.history) + PlanStages(plan)
              && w.staging == map[]
              && (r.value.Some? ==> |old(w.repo)| <= r.value.value < |w.repo|)
  {
    var id: Option<nat> := None;
    ghost var snapshots := ClaimSnapshots(plan, tag);
    ghost var attempts0, repo0, history0 := w.attempts, w.repo, w.history;
    for i := 0 to |plan|
      invariant w.staging == map[]
      invariant w.attempts == attempts0 + snapshots[..i]
      invariant w.repo == repo0 + snapshots[..i]
      invariant w.history == history0 + PlanStages(plan[..i])
      invariant id.Some? ==> |repo0| <= id.value < |w.repo|
    {
      ghost var done, stages := snapshots[..i], PlanStages(plan[..i]);
      PlanStagesNext(plan, i);
      OneMore(snapshots, i);
      var claim := StageClaim(w, i, plan[i], tag);
      PrefixAfter(w.attempts, attempts0, done, [snapshots[i]], snapshots);
      OneShortAfter(attempts0, w.attempts, repo0, w.repo, done);
      PrefixAfter(w.history, history0, stages, ClaimStages(i, plan[i]), PlanStages(plan));
      if claim.Err? {
        return Err;
      }
      id := claim.value;
    }
    AllOf(plan);
    AllOf(snapshots);
    r := Ok(id);
  }

  lemma PlanStagesNext(plan: seq<Item>, i: nat)
    requires i < |plan|
    ensures PlanStages(plan[..i + 1]) == PlanStages(plan[..i]) + ClaimStages(i, plan[i])
    ensures PlanStages(plan[..i]) + ClaimStages(i, plan[i]) <= PlanStages(plan)
  {
    assert plan[..i + 1][..i] == plan[..i];
    PlanStagesPrefix(plan, i + 1);
  }

  /** The calls of a sequential run, in order, cut off wherever one fails. */
  method SequentialPass(w: World, opts: Opts, plan: seq<Item>, a: Artifacts) returns (r: Result<Option<nat>>)
    requires w.staging == map[]
    modifies w
    ensures old(w.attempts) <= w.attempts <= old(w.attempts) + Planned(plan, a, Tag(opts))
    ensures OneShort(old(w.attempts), w.attempts, old(w.repo), w.repo)
    ensures old(w.history) <= w.history <= old(w.history) + SequentialStages(plan, a)
    ensures r.Ok? ==>
              && w.repo == old(w.repo) + Planned(plan, a, Tag(opts))
              && w.history == old(w.history) + SequentialStages(plan, a)
              && (r.value.Some? ==> |old(w.repo)| <= r.value.value < |w.repo|)
  {
    var tag := Tag(opts);
    // Listing the claims, then the repository probe and init.
    var ok := w.Call();
    if !ok {
      return Err;
    }
    ok := w.Call();
    if !ok {
      return Err;
    }
    var claims := StageClaims(w, plan, tag);
    if claims.Err? {
      return Err;
    }
    ghost var done, last := ClaimSnapshots(plan, tag), [Snapshot(tag, CommitDir, Written(CommitWrites(a)))];
    ghost var stages, lastStages := PlanStages(plan), OpenStages(CommitDir, CommitWrites(a));
    assert stages + lastStages == SequentialStages(plan, a);
    var commit := StageAndBackup(w, CommitDir, CommitWrites(a), tag);
    PrefixAfter(w.attempts, old(w.attempts), done, last, Planned(plan, a, tag));
    PrefixAfter(w.history, old(w.history), stages, lastStages, SequentialStages(plan, a));
    OneShortAfter(old(w.attempts), w.attempts, old(w.repo), w.repo, done);
    if commit.Err? {
      return Err;
    }
    r := Ok(if commit.value.Some? then commit.value else claims.value);
  }

  /**
  What the repository gained since `repo0` is one run's: one snapshot for each claim in turn, holding that claim, then
  the commit's, the run's tag on all of them, and a manifest only on the whole.
  */
  ghost predicate GainedOneRun(repo0: seq<Snapshot>, repo: seq<Snapshot>, plan: seq<Item>, a: Artifacts, tag: string) {
    && repo0 <= repo && |repo| <= |repo0| + |plan| + 1
    && (forall i :: 0 <= i < |plan| && i < |repo| - |repo0| ==> HoldsClaim(repo[|repo0| + i].tree, plan[i]))
    && (|repo| == |repo0| + |plan| + 1 ==> HoldsCommit(repo[|repo0| + |plan|].tree, a))
    && (forall i :: |repo0| <= i < |repo| ==> repo[i].tag == tag)
    && ((exists i :: |repo0| <= i < |repo| && HasManifest(repo[i])) ==> repo == repo0 + Planned(plan, a, tag))
  }

  /**
  A sequential run, cut off wherever a call fails: what it attempts is a beginning of the plan, what it adds
  carries its one tag, a manifest only if it is complete, and at no moment is more staged than its largest part,
  nor than the monolithic run would stage.
  */
  method RunSequential(w: World, opts: Opts, plan: seq<Item>, a: Artifacts) returns (r: Result<Option<nat>>)
    requires w.staging == map[]
    modifies w
    ensures old(w.attempts) <= w.attempts <= old(w.attempts) + Planned(plan, a, Tag(opts))
    ensures OneShort(old(w.attempts), w.attempts, old(w.repo), w.repo)
    ensures old(w.history) <= w.history <= old(w.history) + SequentialStages(plan, a)
    ensures r.Ok? ==>
              && w.repo == old(w.repo) + Planned(plan, a, Tag(opts))
              && w.history == old(w.history) + SequentialStages(plan, a)
              && (r.value.Some? ==> |old(w.repo)| <= r.value.value < |w.repo|)
    ensures GainedOneRun(old(w.repo), w.repo, plan, a, Tag(opts))
    ensures r.Ok? ==> |w.repo| == |old(w.repo)| + |plan| + 1
    ensures (exists i :: |old(w.attempts)| <= i < |w.attempts| && HasManifest(w.attempts[i])) ==>
              old(w.repo) + ClaimSnapshots(plan, Tag(opts)) <= w.repo
    ensures var peak := PeakOver(w.history[|old(w.history)|..]);
            && peak <= Max(LargestClaim(plan), PeakOf(CommitWrites(a)))
            && peak <= PeakOver(MonolithicStages(plan, a))
  {
    ghost var attempts0, repo0, history0 := w.attempts, w.repo, w.history;
    r := SequentialPass(w, opts, plan, a);
    RunGains(plan, a, Tag(opts), attempts0, w.attempts, repo0, w.repo);
    CutShortPeak(history0, w.history, plan, a);
  }

  lemma RunGains(plan: seq<Item>, a: Artifacts, tag: string,
                 attempts0: seq<Snapshot>, attempts: seq<Snapshot>, repo0: seq<Snapshot>, repo: seq<Snapshot>)
    requires attempts0 <= attempts <= attempts0 + Planned(plan, a, tag)
    requires OneShort(attempts0, attempts, repo0, repo)
    ensures GainedOneRun(repo0, repo, plan, a, tag)
    ensures (exists i :: |attempts0| <= i < |attempts| && HasManifest(attempts[i])) ==>
              repo0 + ClaimSnapshots(plan, tag) <= repo
    ensures repo == repo0 + Planned(plan, a, tag) ==> |repo| == |repo0| + |plan| + 1
  {
    CommitPoint(plan, a, tag, attempts0, attempts, repo0, repo);
    RepoWithinPlan(Planned(plan, a, tag), attempts0, attempts, repo0, repo);
    GainedHolds(plan, a, tag, repo0, repo);
  }

  lemma RepoWithinPlan(planned: seq<Snapshot>, attempts0: seq<Snapshot>, attempts: seq<Snapshot>,
                       repo0: seq<Snapshot>, repo: seq<Snapshot>)
    requires attempts0 <= attempts <= attempts0 + planned && OneShort(attempts0, attempts, repo0, repo)
    ensures repo0 <= repo <= repo0 + planned
  {
    SinceThen(attempts0, attempts, planned);
    var made := attempts[|attempts0|..];
    var n := |repo| - |repo0|;
    assert made == planned[..|made|];
    assert made != [] ==> made[..|made| - 1] == planned[..|made| - 1];
    assert repo == repo0 + planned[..n];
    assert repo0 + planned == repo0 + planned[..n] + planned[n..];
  }

  lemma GainedHolds(plan: seq<Item>, a: Artifacts, tag: string, repo0: seq<Snapshot>, repo: seq<Snapshot>)
    requires repo0 <= repo <= repo0 + Planned(plan, a, tag)
    ensures |repo| <= |repo0| + |plan| + 1
    ensures forall i :: 0 <= i < |plan| && i < |repo| - |repo0| ==> HoldsClaim(repo[|repo0| + i].tree, plan[i])
    ensures |repo| == |repo0| + |plan| + 1 ==> HoldsCommit(repo[|repo0| + |plan|].tree, a)
  {
    var planned := Planned(plan, a, tag);
    forall i | 0 <= i < |plan| && i < |repo| - |repo0|
      ensures HoldsClaim(repo[|repo0| + i].tree, plan[i])
    {
      assert repo[|repo0| + i] == planned[i] == ClaimSnapshot(i, plan[i], tag);
      ClaimIsHeld(plan[i]);
    }
    CommitIsHeld(a);
    if |repo| == |repo0| + |plan| + 1 {
      assert repo[|repo0| + |plan|] == planned[|plan|];
    }
  }

  lemma CutShortPeak(history0: seq<Stage>, history: seq<Stage>, plan: seq<Item>, a: Artifacts)
    requires history0 <= history <= history0 + SequentialStages(plan, a)
    ensures var peak := PeakOver(history[|history0|..]);
            && peak <= Max(LargestClaim(plan), PeakOf(CommitWrites(a)))
            && peak <= PeakOver(MonolithicStages(plan, a))
  {
    SinceThen(history0, history, SequentialStages(plan, a));
    CutShortPeaksLower(history[|history0|..], SequentialStages(plan, a));
    SequentialPeak(plan, a);
    SequentialNeedsNoMore(plan, a);
  }

  lemma SinceThen<T>(start: seq<T>, s: seq<T>, all: seq<T>)
    requires start <= s <= start + all
    ensures s[|start|..] <= all
  {
    assert (start + all)[|start|..] == all;
  }

  /** A monolithic run: everything staged, then one snapshot of it. */
  method RunMonolithic(w: World, opts: Opts, plan: seq<Item>, a: Artifacts) returns (r: Result<Option<nat>>)
    requires w.staging == map[]
    modifies w
    ensures var whole := Snapshot(Tag(opts), DataDir, Written(MonolithicWrites(plan, a)));
            && old(w.attempts) <= w.attempts <= old(w.attempts) + [whole]
            && OneShort(old(w.attempts), w.attempts, old(w.repo), w.repo)
            && (r.Ok? ==> w.repo == old(w.repo) + [whole])
    ensures r.Ok? ==> w.repo != [] && HoldsAll(w.repo[|w.repo| - 1].tree, plan, a)
    ensures old(w.history) <= w.history <= old(w.history) + MonolithicStages(plan, a)
    ensures r.Ok? ==> w.history == old(w.history) + MonolithicStages(plan, a)
  {
    var ok := w.MakeDir(DataDir);
    if !ok {
      return Err;
    }
    ok := w.Call();
    if !ok {
      return Err;
    }
    ok := w.WriteAll(DataDir, MonolithicWrites(plan, a));
    if !ok {
      return Err;
    }
    ok := w.Call();
    if !ok {
      return Err;
    }
    AllIsHeld(plan, a);
    r := w.Backup(DataDir, Tag(opts));
  }

  // ----- the commit point -----

  predicate HasManifest(s: Snapshot) {
    MANIFEST in s.tree
  }

  /** Of the planned snapshots, exactly the last one carries the manifest. */
  lemma ManifestIsLast(plan: seq<Item>, a: Artifacts, tag: string, i: nat)
    requires i < |Planned(plan, a, tag)|
    ensures HasManifest(Planned(plan, a, tag)[i]) <==> i == |plan|
  {
    if i == |plan| {
      var ws := CommitWrites(a);
      WrittenPaths(ws, MANIFEST);
      assert ws[|ws| - 1].path == MANIFEST;
    } else {
      var ws := ItemWrites(plan[i]);
      WrittenPaths(ws, MANIFEST);
      forall j | 0 <= j < |ws|
        ensures ws[j].path != MANIFEST
      {
        assert ws[j].path[0] == PayloadDir(plan[i].kind);
      }
    }
  }

  /**
  Wherever a sequential run is cut off: everything it adds carries its one tag; if the manifest snapshot
  was so much as attempted, every claim's snapshot is in the repository; and a run that did not attempt
  it adds no manifest.
  */
  lemma CommitPoint(plan: seq<Item>, a: Artifacts, tag: string,
                    attempts0: seq<Snapshot>, attempts: seq<Snapshot>, repo0: seq<Snapshot>, repo: seq<Snapshot>)
    requires attempts0 <= attempts <= attempts0 + Planned(plan, a, tag)
    requires OneShort(attempts0, attempts, repo0, repo)
    ensures repo0 <= repo && forall i :: |repo0| <= i < |repo| ==> repo[i].tag == tag
    ensures (exists i :: |attempts0| <= i < |attempts| && HasManifest(attempts[i])) ==>
              repo0 + ClaimSnapshots(plan, tag) <= repo && attempts == attempts0 + Planned(plan, a, tag)
    ensures (exists i :: |repo0| <= i < |repo| && HasManifest(repo[i])) ==>
              repo == repo0 + Planned(plan, a, tag)
  {
    var planned := Planned(plan, a, tag);
    var made := attempts[|attempts0|..];
    var n := |made|;
    assert attempts == attempts0 + made;
    assert made == planned[..n];
    forall i | 0 <= i < |planned|
      ensures planned[i].tag == tag
      ensures HasManifest(planned[i]) <==> i == |plan|
    {
      ManifestIsLast(plan, a, tag, i);
    }
    if n == |planned| {
      assert planned[..n] == planned;
      assert planned[..n - 1] == ClaimSnapshots(plan, tag);
    }
    assert forall i :: |repo0| <= i < |repo| ==> repo[i] == planned[i - |repo0|];
    assert forall i :: |attempts0| <= i < |attempts| ==> attempts[i] == planned[i - |attempts0|];
  }

  // ----- a sequential run captures what a monolithic one does -----

  /** The snapshots' trees laid over each other in order, each relative to its staged root. */
  function Overlay(snapshots: seq<Snapshot>): Tree {
    if snapshots == [] then map[] else Overlay(snapshots[..|snapshots| - 1]) + snapshots[|snapshots| - 1].tree
  }

  lemma {:induction false} OverlayOfClaims(plan: seq<Item>, tag: string)
    ensures Overlay(ClaimSnapshots(plan, tag)) == Written(AllItemWrites(plan))
  {
    if plan != [] {
      var init, last := plan[..|plan| - 1], plan[|plan| - 1];
      OverlayOfClaims(init, tag);
      assert ClaimSnapshots(plan, tag)[..|plan| - 1] == ClaimSnapshots(init, tag);
      PutAppend(map[], AllItemWrites(init), ItemWrites(last));
      PutIsOverlay(Written(AllItemWrites(init)), ItemWrites(last));
    }
  }

  lemma SequentialCapturesTheSame(plan: seq<Item>, a: Artifacts, tag: string)
    ensures Overlay(Planned(plan, a, tag)) == Written(MonolithicWrites(plan, a))
  {
    var planned := Planned(plan, a, tag);
    assert planned[..|planned| - 1] == ClaimSnapshots(plan, tag);
    OverlayOfClaims(plan, tag);
    PutAppend(map[], AllItemWrites(plan), CommitWrites(a));
    PutIsOverlay(Written(AllItemWrites(plan)), CommitWrites(a));
  }

  // ----- staged bytes -----

  function Size(n: Node): nat {
    match n case Dir => 0 case File(content) => |content|
  }

  ghost function Bytes(t: Tree): nat {
    if t == map[] then 0
    else
      var p :| p in t;
      Size(t[p]) + Bytes(t - {p})
  }

  lemma {:induction false} BytesOne(t: Tree, p: Path)
    requires p in t
    ensures Bytes(t) == Size(t[p]) + Bytes(t - {p})
    decreases |t|
  {
    var q :| q in t && Bytes(t) == Size(t[q]) + Bytes(t - {q});
    if q != p {
      BytesOne(t - {q}, p);
      BytesOne(t - {p}, q);
      assert t - {q} - {p} == t - {p} - {q};
    }
  }

  lemma {:induction false} BytesGrow(small: Tree, big: Tree)
    requires forall p :: p in small ==> p in big && big[p] == small[p]
    ensures Bytes(small) <= Bytes(big)
    decreases |small|
  {
    if small != map[] {
      var p :| p in small;
      BytesOne(small, p);
      BytesOne(big, p);
      BytesGrow(small - {p}, big - {p});
    }
  }

  /** The most bytes staged at once while `ws` are written into an empty directory. */
  ghost function PeakOf(ws: seq<Write>): nat {
    if ws == [] then 0 else Max(PeakOf(ws[..|ws| - 1]), Bytes(Written(ws)))
  }

  ghost function StagedBytes(s: Stage): nat {
    if s == map[] then 0
    else
      var d :| d in s;
      Bytes(s[d]) + StagedBytes(s - {d})
  }

  /** The peak over the states the staging directory has been in. */
  ghost function PeakOver(history: seq<Stage>): nat {
    if history == [] then 0 else Max(PeakOver(history[..|history| - 1]), StagedBytes(history[|history| - 1]))
  }

  lemma StagedOne(d: DirName, t: Tree)
    ensures StagedBytes(map[d := t]) == Bytes(t)
  {
    var s: Stage := map[d := t];
    assert d in s && s != map[];
    var e :| e in s && StagedBytes(s) == Bytes(s[e]) + StagedBytes(s - {e});
    assert s - {e} == map[];
  }

  lemma {:induction false} PeakAppend(a: seq<Stage>, b: seq<Stage>)
    ensures PeakOver(a + b) == Max(PeakOver(a), PeakOver(b))
  {
    if b == [] {
      assert a + b == a;
    } else {
      PeakAppend(a, b[..|b| - 1]);
      ButLast(a, b);
    }
  }

  lemma ButLast<T>(a: seq<T>, b: seq<T>)
    requires b != []
    ensures (a + b)[..|a + b| - 1] == a + b[..|b| - 1] && (a + b)[|a + b| - 1] == b[|b| - 1]
  {
  }

  lemma {:induction false} PeakOfStages(d: DirName, ws: seq<Write>)
    ensures PeakOver(WriteStages(d, ws)) == PeakOf(ws)
  {
    if ws != [] {
      var stages, init := WriteStages(d, ws), ws[..|ws| - 1];
      PeakOfStages(d, init);
      StagesButLast(d, ws);
      StagedOne(d, Written(ws));
    }
  }

  lemma StagesButLast(d: DirName, ws: seq<Write>)
    requires ws != []
    ensures var stages := WriteStages(d, ws);
            && |stages| == |ws| && stages[|ws| - 1] == map[d := Written(ws)]
            && stages[..|ws| - 1] == WriteStages(d, ws[..|ws| - 1])
  {
    var stages, init := WriteStages(d, ws), ws[..|ws| - 1];
    forall n | 0 <= n < |init|
      ensures stages[n] == WriteStages(d, init)[n]
    {
      assert ws[..n + 1] == init[..n + 1];
    }
    assert ws[..|ws|] == ws;
  }

  lemma PeakOfOpenStages(d: DirName, ws: seq<Write>)
    ensures PeakOver(OpenStages(d, ws)) == PeakOf(ws)
  {
    var first: Stage := map[d := map[]];
    PeakAppend([first], WriteStages(d, ws));
    PeakOfStages(d, ws);
    StagedOne(d, map[]);
    assert PeakOver([first]) == StagedBytes(first);
  }

  /** Sizes are what files hold: a new file adds its length, a new directory nothing. */
  lemma BytesOfNew(t: Tree, p: Path, content: string)
    requires p !in t
    ensures Bytes(t[p := File(content)]) == Bytes(t) + |content|
    ensures Bytes(t[p := Dir]) == Bytes(t)
    ensures Bytes(map[]) == 0
  {
    BytesOne(t[p := File(content)], p);
    BytesOne(t[p := Dir], p);
    assert t[p := File(content)] - {p} == t && t[p := Dir] - {p} == t;
  }

  /** A peak is the most there was at any moment. */
  lemma {:induction false} PeakIsTheMost(history: seq<Stage>)
    ensures forall k :: 0 <= k < |history| ==> StagedBytes(history[k]) <= PeakOver(history)
    ensures if history == [] then PeakOver(history) == 0
            else exists k :: 0 <= k < |history| && StagedBytes(history[k]) == PeakOver(history)
  {
    if history != [] {
      var n := |history| - 1;
      var init := history[..n];
      PeakIsTheMost(init);
      assert forall k :: 0 <= k < n ==> history[k] == init[k];
      if PeakOver(init) > StagedBytes(history[n]) {
        var k :| 0 <= k < n && StagedBytes(init[k]) == PeakOver(init);
        assert StagedBytes(history[k]) == PeakOver(history);
      } else {
        assert StagedBytes(history[n]) == PeakOver(history);
      }
    }
  }

  /** The largest peak of any one claim. */
  ghost function LargestClaim(plan: seq<Item>): nat {
    if plan == [] then 0 else Max(LargestClaim(plan[..|plan| - 1]), PeakOf(ItemWrites(plan[|plan| - 1])))
  }

  lemma {:induction false} PeakOfPlan(plan: seq<Item>)
    ensures PeakOver(PlanStages(plan)) == LargestClaim(plan)
  {
    if plan != [] {
      var init, i := plan[..|plan| - 1], |plan| - 1;
      var open := OpenStages(ClaimDir(i), ItemWrites(plan[i]));
      PeakOfPlan(init);
      assert ClaimStages(i, plan[i]) == open + [map[]];
      PeakAppend(open, [map[]]);
      PeakOfOpenStages(ClaimDir(i), ItemWrites(plan[i]));
      PeakAppend(PlanStages(init), ClaimStages(i, plan[i]));
      assert PeakOver([map[]]) == 0;
    }
  }

  /** The states a sequential run passes through hold one directory at most. */
  lemma OneDirectoryAtATime(plan: seq<Item>, a: Artifacts)
    ensures forall k :: 0 <= k < |SequentialStages(plan, a)| ==> |SequentialStages(plan, a)[k]| <= 1
  {
    OneDirectory(plan);
  }

  /** They peak at the largest part: the largest claim, or the commit's own files. */
  lemma SequentialPeak(plan: seq<Item>, a: Artifacts)
    ensures PeakOver(SequentialStages(plan, a)) == Max(LargestClaim(plan), PeakOf(CommitWrites(a)))
  {
    assert SequentialStages(plan, a) == PlanStages(plan) + OpenStages(CommitDir, CommitWrites(a));
    PeakOfPlan(plan);
    PeakOfOpenStages(CommitDir, CommitWrites(a));
    PeakAppend(PlanStages(plan), OpenStages(CommitDir, CommitWrites(a)));
  }

  lemma {:induction false} OneDirectory(plan: seq<Item>)
    ensures forall k :: 0 <= k < |PlanStages(plan)| ==> |PlanStages(plan)[k]| <= 1
  {
    if plan != [] {
      OneDirectory(plan[..|plan| - 1]);
    }
  }

  /** A run cut short peaks no higher. */
  lemma CutShortPeaksLower(history: seq<Stage>, all: seq<Stage>)
    requires history <= all
    ensures PeakOver(history) <= PeakOver(all)
  {
    PeakAppend(history, all[|history|..]);
    assert all == history + all[|history|..];
  }

  /** Writing after other files have been staged peaks at least as high as writing alone. */
  lemma {:induction false} PeakInContext(before: seq<Write>, ws: seq<Write>)
    ensures PeakOf(ws) <= PeakOf(before + ws) && PeakOf(before) <= PeakOf(before + ws)
  {
    if ws == [] {
      assert before + ws == before;
    } else {
      var init := ws[..|ws| - 1];
      PeakInContext(before, init);
      assert (before + ws)[..|before + ws| - 1] == before + init;
      PutAppend(map[], before, ws);
      PutIsOverlay(Written(before), ws);
      BytesGrow(Written(ws), Written(before + ws));
    }
  }

  lemma {:induction false} ClaimsInContext(plan: seq<Item>)
    ensures LargestClaim(plan) <= PeakOf(AllItemWrites(plan))
  {
    if plan != [] {
      var init := plan[..|plan| - 1];
      ClaimsInContext(init);
      PeakInContext(AllItemWrites(init), ItemWrites(plan[|plan| - 1]));
    }
  }

  /** On the same answers a sequential run never needs more disk than a monolithic one, whatever paths collide. */
  lemma SequentialNeedsNoMore(plan: seq<Item>, a: Artifacts)
    ensures PeakOver(SequentialStages(plan, a)) <= PeakOver(MonolithicStages(plan, a))
  {
    SequentialPeak(plan, a);
    assert MonolithicStages(plan, a) == OpenStages(DataDir, MonolithicWrites(plan, a));
    PeakOfOpenStages(DataDir, MonolithicWrites(plan, a));
    ClaimsInContext(plan);
    PeakInContext(AllItemWrites(plan), CommitWrites(a));
  }

  // ----- the maximum, and the sum -----

  /** No file is written twice; directories may be. */
  predicate FilesOnce(ws: seq<Write>) {
    forall i, j :: 0 <= i < j < |ws| && ws[i].path == ws[j].path ==> ws[i].node == Dir && ws[j].node == Dir
  }

  function TotalSize(ws: seq<Write>): nat {
    if ws == [] then 0 else TotalSize(ws[..|ws| - 1]) + Size(ws[|ws| - 1].node)
  }

  lemma {:induction false} TotalAppend(a: seq<Write>, b: seq<Write>)
    ensures TotalSize(a + b) == TotalSize(a) + TotalSize(b)
  {
    if b == [] {
      assert a + b == a;
    } else {
      TotalAppend(a, b[..|b| - 1]);
      assert (a + b)[..|a + b| - 1] == a + b[..|b| - 1];
    }
  }

  lemma {:induction false} OnceMeansTotal(ws: seq<Write>)
    requires FilesOnce(ws)
    ensures Bytes(Written(ws)) == TotalSize(ws) == PeakOf(ws)
  {
    if ws != [] {
      var init, last := ws[..|ws| - 1], ws[|ws| - 1];
      OnceMeansTotal(init);
      var t, t' := Written(init), Written(ws);
      BytesOne(t', last.path);
      if last.path in t {
        WrittenPaths(init, last.path);
        var i :| 0 <= i < |init| && init[i].path == last.path;
        assert ws[i] == init[i] && last == ws[|ws| - 1];
        LastWriteWins(init, last.path);
        BytesOne(t, last.path);
        assert t' - {last.path} == t - {last.path};
      } else {
        assert t' - {last.path} == t;
      }
    }
  }

  lemma {:induction false} LastWriteWins(ws: seq<Write>, p: Path)
    requires p in Written(ws)
    ensures exists i :: 0 <= i < |ws| && ws[i].path == p && Written(ws)[p] == ws[i].node
  {
    var init, last := ws[..|ws| - 1], ws[|ws| - 1];
    if last.path == p {
      assert ws[|ws| - 1].path == p;
    } else {
      LastWriteWins(init, p);
      var i :| 0 <= i < |init| && init[i].path == p && Written(init)[p] == init[i].node;
      assert ws[i] == init[i];
    }
  }

  /** The sizes of the claims' trees, summed, and their maximum. */
  ghost function SumOfClaims(plan: seq<Item>): nat {
    if plan == [] then 0 else SumOfClaims(plan[..|plan| - 1]) + Bytes(Written(ItemWrites(plan[|plan| - 1])))
  }

  ghost function MaxOfClaims(plan: seq<Item>): nat {
    if plan == [] then 0 else Max(MaxOfClaims(plan[..|plan| - 1]), Bytes(Written(ItemWrites(plan[|plan| - 1]))))
  }

  lemma FilesOnceParts(a: seq<Write>, b: seq<Write>)
    requires FilesOnce(a + b)
    ensures FilesOnce(a) && FilesOnce(b)
  {
    assert forall i :: 0 <= i < |a| ==> (a + b)[i] == a[i];
    forall i, j | 0 <= i < j < |b| && b[i].path == b[j].path
      ensures b[i].node == Dir && b[j].node == Dir
    {
      assert (a + b)[|a| + i] == b[i] && (a + b)[|a| + j] == b[j];
    }
  }

  lemma {:induction false} PlanSums(plan: seq<Item>)
    requires FilesOnce(AllItemWrites(plan))
    ensures TotalSize(AllItemWrites(plan)) == SumOfClaims(plan) && LargestClaim(plan) == MaxOfClaims(plan)
  {
    if plan != [] {
      var init, last := plan[..|plan| - 1], plan[|plan| - 1];
      FilesOnceParts(AllItemWrites(init), ItemWrites(last));
      PlanSums(init);
      OnceMeansTotal(ItemWrites(last));
      TotalAppend(AllItemWrites(init), ItemWrites(last));
    }
  }

  /** With no file written twice, the peaks are the maximum and the sum of the trees' sizes. */
  lemma MaximumAgainstSum(plan: seq<Item>, a: Artifacts)
    requires FilesOnce(MonolithicWrites(plan, a))
    ensures PeakOver(SequentialStages(plan, a)) == Max(MaxOfClaims(plan), Bytes(Written(CommitWrites(a))))
    ensures PeakOver(MonolithicStages(plan, a)) == SumOfClaims(plan) + Bytes(Written(CommitWrites(a)))
  {
    FilesOnceParts(AllItemWrites(plan), CommitWrites(a));
    PlanSums(plan);
    OnceMeansTotal(CommitWrites(a));
    OnceMeansTotal(MonolithicWrites(plan, a));
    TotalAppend(AllItemWrites(plan), CommitWrites(a));
    SequentialPeak(plan, a);
    assert MonolithicStages(plan, a) == OpenStages(DataDir, MonolithicWrites(plan, a));
    PeakOfOpenStages(DataDir, MonolithicWrites(plan, a));
  }
}
