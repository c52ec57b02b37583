/**
The status record: what each run writes, how a record is merged onto the live one, and what the merged
record says after a whole history of them.
*/
module StatusRecord {
  import opened Wrappers
  import O = Outcome

  /** The figures of one reading of the repository, in the order the merge moves them. */
  datatype Figure = StatsAt | Snapshots | Blobs | Bytes

  const FIGURES := [StatsAt, Snapshots, Blobs, Bytes]

  /** The record's keys: a current figure, the same figure of the reading before, and the rest by name. */
  datatype Key =
    | Current(figure: Figure)
    | Previous(figure: Figure)
    | StatsRepo
    | LastRunFormat | LastSuccess | LastFailure | LastError
    | LastCheck | LastCheckResult | LastCheckError
    | LastPrune | LastPruneResult | LastPruneDetail | LastPruneBy
    | Another(name: string)

  type Data = map<Key, string>

  /** A JSON document: an object of string values, or anything else. */
  datatype Doc = Object(fields: Data) | NotAnObject

  // ----- the merge -----

  predicate SameRepo(was: Data, now: Data) {
    StatsRepo in was && StatsRepo in now && was[StatsRepo] == now[StatsRepo]
  }

  /** The old record made ready for a new reading: its figures are the previous ones now, or gone. */
  function Shifted(was: Data, same: bool): Data {
    (map k | k in was && !k.Current? && !k.Previous? :: was[k])
    + (map f | f in FIGURES && same && Current(f) in was :: Previous(f) := was[Current(f)])
  }

  lemma EveryFigure(f: Figure)
    ensures f in FIGURES
  {
    match f
    case StatsAt => assert FIGURES[0] == f;
    case Snapshots => assert FIGURES[1] == f;
    case Blobs => assert FIGURES[2] == f;
    case Bytes => assert FIGURES[3] == f;
  }

  /** The new fields over the old ones; a new reading first moves the old figures aside. */
  function Merge(was: Data, now: Data): Data {
    (if Current(StatsAt) in now then Shifted(was, SameRepo(was, now)) else was) + now
  }

  /** `merged` is `was` with the first `n` figures moved. */
  ghost predicate Moved(was: Data, same: bool, n: nat, merged: Data)
    requires n <= 4
  {
    forall k: Key ::
      if k.Current? && k.figure in FIGURES[..n] then k !in merged
      else if k.Previous? && k.figure in FIGURES[..n] then
        if same && Current(k.figure) in was then k in merged && merged[k] == was[Current(k.figure)] else k !in merged
      else (k in merged <==> k in was) && (k in was ==> merged[k] == was[k])
  }

  method MergeStatusData(was: Doc, now: Doc) returns (merged: Doc)
    ensures was.NotAnObject? ==> merged == now
    ensures was.Object? && now.NotAnObject? ==> merged == was
    ensures was.Object? && now.Object? ==> merged == Object(Merge(was.fields, now.fields))
  {
    if was.NotAnObject? {
      return now;
    }
    var m := was.fields;
    if now.Object? {
      if Current(StatsAt) in now.fields {
        m := MoveFigures(m, SameRepo(m, now.fields));
      }
      m := Overlay(m, now.fields);
    }
    merged := Object(m);
  }

  method MoveFigures(was: Data, same: bool) returns (m: Data)
    ensures m == Shifted(was, same)
  {
    m := was;
    for i := 0 to 4
      invariant Moved(was, same, i, m)
    {
      var key, prev := Current(FIGURES[i]), Previous(FIGURES[i]);
      assert FIGURES[..i + 1] == FIGURES[..i] + [FIGURES[i]];
      assert FIGURES[i] !in FIGURES[..i];
      if key in m && same {
        m := (m - {key})[prev := m[key]];
      } else {
        m := m - {key} - {prev};
      }
    }
    AllMoved(was, same, m);
  }

  lemma AllMoved(was: Data, same: bool, merged: Data)
    requires Moved(was, same, 4, merged)
    ensures merged == Shifted(was, same)
  {
    assert FIGURES[..4] == FIGURES;
    forall k: Key
      ensures k in merged <==> k in Shifted(was, same)
      ensures k in merged ==> merged[k] == Shifted(was, same)[k]
    {
      if k.Current? || k.Previous? {
        EveryFigure(k.figure);
      }
    }
  }

  method Overlay(m0: Data, n: Data) returns (m: Data)
    ensures m == m0 + n
  {
    m := m0;
    var todo := n.Keys;
    AllToDo(m0, n);
    while todo != {}
      invariant todo <= n.Keys
      invariant m == m0 + (n - todo)
      decreases |todo|
    {
      var k :| k in todo;
      OneKeyMore(m0, n, todo, k, n[k]);
      m := m[k := n[k]];
      todo := todo - {k};
    }
    NoneToDo(n);
  }

  lemma AllToDo(m0: Data, n: Data)
    ensures m0 + (n - n.Keys) == m0
  {
    assert n - n.Keys == map[];
  }

  lemma NoneToDo(n: Data)
    ensures n - {} == n
  {
  }

  lemma OneKeyMore(m0: Data, n: Data, todo: set<Key>, k: Key, v: string)
    requires k in todo && k in n && v == n[k]
    ensures (m0 + (n - todo))[k := v] == m0 + (n - (todo - {k}))
  {
    var a, b := (m0 + (n - todo))[k := v], m0 + (n - (todo - {k}));
    assert forall i: Key :: i in a <==> i in b;
    assert forall i: Key :: i in a ==> a[i] == b[i];
  }

  // ----- what is recorded -----

  datatype CheckResult = Passed | CheckFailed(error: string)

  function CheckRecord(result: CheckResult, now: string): Data {
    map[LastCheck := now,
        LastCheckResult := if result.Passed? then "passed" else "failed",
        LastCheckError := if result.Passed? then "" else result.error]
  }

  /** What became of a prune, with a sentence that says it. */
  datatype PruneRecord = Pruned(detail: string) | NothingToPrune(detail: string) | NotPermitted(detail: string)
                       | FailedPrune(detail: string)

  function ResultWord(record: PruneRecord): string {
    match record
    case Pruned(_) => "pruned"
    case NothingToPrune(_) => "nothing-to-prune"
    case NotPermitted(_) => "not-permitted"
    case FailedPrune(_) => "failed"
  }

  function PruneData(record: PruneRecord, who: string, now: string): Data {
    map[LastPrune := now, LastPruneResult := ResultWord(record), LastPruneDetail := record.detail, LastPruneBy := who]
  }

  /** A figure restic did not report is left out. */
  datatype RepoStats = RepoStats(bytes: string, snapshots: Option<string>, blobs: Option<string>)

  function StatsRecord(stats: RepoStats, repo: string, now: string): Data {
    map[Current(StatsAt) := now, StatsRepo := repo, Current(Bytes) := stats.bytes]
    + (if stats.snapshots.Some? then map[Current(Snapshots) := stats.snapshots.value] else map[])
    + (if stats.blobs.Some? then map[Current(Blobs) := stats.blobs.value] else map[])
  }

  datatype RunOutcome = Success | Failure(error: string)

  /** A success clears the last error and keeps when it last failed. */
  function BackupRecord(outcome: RunOutcome, format: string, now: string): Data {
    match outcome
    case Success => map[LastRunFormat := format, LastSuccess := now, LastError := ""]
    case Failure(error) => map[LastRunFormat := format, LastFailure := now, LastError := error]
  }

  /** What a stop writes: the failure of the backup, or of the step its check run was in; nothing after those. */
  function StopData(mode: O.Mode, phase: O.Phase, format: string, error: string, now: string): Data {
    match O.StopRecordFor(mode, phase)
    case BackupFailed => BackupRecord(Failure(error), format, now)
    case CheckFailed => CheckRecord(CheckFailed(error), now)
    case PruneFailed => PruneData(FailedPrune(error), "check", now)
    case NoRecord => map[]
  }

  // ----- histories -----

  predicate IsRepoKey(k: Key) {
    k.Current? || k.Previous? || k.StatsRepo?
  }

  /** A reading of the repository: its time, its repository, and figures of that reading only. */
  predicate IsReading(r: Data) {
    Current(StatsAt) in r && StatsRepo in r && forall k :: k in r ==> k.Current? || k.StatsRepo?
  }

  predicate IsPlain(r: Data) {
    forall k :: k in r ==> !IsRepoKey(k)
  }

  ghost predicate AreRecords(rs: seq<Data>) {
    forall i :: 0 <= i < |rs| ==> IsReading(rs[i]) || IsPlain(rs[i])
  }

  /** Everything the program writes is one or the other. */
  lemma RecordsAreWellFormed(c: CheckResult, p: PruneRecord, who: string, s: RepoStats, repo: string,
                             b: RunOutcome, format: string, now: string)
    ensures IsPlain(CheckRecord(c, now)) && IsPlain(PruneData(p, who, now)) && IsPlain(BackupRecord(b, format, now))
    ensures IsPlain(BackupRecord(b, format, now) + PruneData(p, who, now))
    ensures IsReading(StatsRecord(s, repo, now))
  {
    assert CheckRecord(c, now).Keys == {LastCheck, LastCheckResult, LastCheckError};
    assert PruneData(p, who, now).Keys == {LastPrune, LastPruneResult, LastPruneDetail, LastPruneBy};
    assert BackupRecord(b, format, now).Keys <= {LastRunFormat, LastSuccess, LastFailure, LastError};
    assert StatsRecord(s, repo, now).Keys <=
           {Current(StatsAt), StatsRepo, Current(Bytes), Current(Snapshots), Current(Blobs)};
  }

  /** A stop's record touches the step it stopped and nothing else, and is empty exactly when there is none to name. */
  lemma StopTouchesOneStep(mode: O.Mode, phase: O.Phase, format: string, error: string, now: string)
    ensures var d := StopData(mode, phase, format, error, now);
            && IsPlain(d)
            && (d == map[] <==> O.StopRecordFor(mode, phase) == O.NoRecord)
            && (LastPruneResult in d <==> mode == O.CheckJob && phase == O.PrunePhase)
            && (LastCheckResult in d <==> mode == O.CheckJob && phase == O.CheckPhase)
            && (LastFailure in d <==> mode == O.BackupJob)
            && LastSuccess !in d
  {
    var d := StopData(mode, phase, format, error, now);
    match O.StopRecordFor(mode, phase)
    case BackupFailed => assert d.Keys == {LastRunFormat, LastFailure, LastError};
    case CheckFailed => assert d.Keys == {LastCheck, LastCheckResult, LastCheckError};
    case PruneFailed => assert d.Keys == {LastPrune, LastPruneResult, LastPruneDetail, LastPruneBy};
    case NoRecord =>
  }

  /** The live record after a history of writes, one after another. */
  function After(start: Data, rs: seq<Data>): Data {
    if rs == [] then start else Merge(After(start, rs[..|rs| - 1]), rs[|rs| - 1])
  }

  ghost predicate AgreeOn(a: Data, b: Data, k: Key) {
    (k in a <==> k in b) && (k in a ==> a[k] == b[k])
  }

  /** A record leaves every key it does not write as it was, unless it is a reading and the key the repository's. */
  lemma MergeLeaves(m: Data, r: Data, k: Key)
    requires IsReading(r) || IsPlain(r)
    requires k !in r && (IsReading(r) ==> !IsRepoKey(k))
    ensures AgreeOn(Merge(m, r), m, k)
  {
  }

  /** Plain records after a state leave its repository keys alone. */
  lemma {:induction false} PlainLeaves(start: Data, rs: seq<Data>, i: nat, k: Key)
    requires i <= |rs| && IsRepoKey(k)
    requires forall j :: i <= j < |rs| ==> IsPlain(rs[j])
    ensures AgreeOn(After(start, rs), After(start, rs[..i]), k)
  {
    if i < |rs| {
      var init := rs[..|rs| - 1];
      PlainLeaves(start, init, i, k);
      assert init[..i] == rs[..i];
      MergeLeaves(After(start, init), rs[|rs| - 1], k);
    } else {
      assert rs[..i] == rs;
    }
  }

  ghost predicate LatestReading(rs: seq<Data>, i: nat) {
    i < |rs| && IsReading(rs[i]) && forall j :: i < j < |rs| ==> IsPlain(rs[j])
  }

  /** After any history the current figures, and the repository they name, are those of its latest reading. */
  lemma CurrentFigures(start: Data, rs: seq<Data>, i: nat, k: Key)
    requires AreRecords(rs) && LatestReading(rs, i)
    requires k.Current? || k.StatsRepo?
    ensures AgreeOn(After(start, rs), rs[i], k)
  {
    PlainLeaves(start, rs, i + 1, k);
    assert rs[..i + 1][..i] == rs[..i];
    var m := After(start, rs[..i]);
    assert After(start, rs[..i + 1]) == Merge(m, rs[i]);
    assert k.Current? ==> k !in Shifted(m, SameRepo(m, rs[i]));
  }

  /**
  And the previous figures are exactly those of the reading just before it, if both are of one
  repository; otherwise there are none.
  */
  lemma PreviousFigures(start: Data, rs: seq<Data>, j: nat, i: nat, f: Figure)
    requires AreRecords(rs) && LatestReading(rs, i)
    requires j < i && LatestReading(rs[..i], j)
    ensures if rs[j][StatsRepo] == rs[i][StatsRepo] && Current(f) in rs[j]
            then Previous(f) in After(start, rs) && After(start, rs)[Previous(f)] == rs[j][Current(f)]
            else Previous(f) !in After(start, rs)
  {
    CurrentFigures(start, rs[..i], j, Current(f));
    CurrentFigures(start, rs[..i], j, StatsRepo);
    PreviousStep(After(start, rs[..i]), rs[j], rs[i], f);
    AfterNext(start, rs, i);
    PlainLeaves(start, rs, i + 1, Previous(f));
  }

  lemma AfterNext(start: Data, rs: seq<Data>, i: nat)
    requires i < |rs|
    ensures After(start, rs[..i + 1]) == Merge(After(start, rs[..i]), rs[i])
  {
    assert rs[..i + 1][..i] == rs[..i];
  }

  /** A reading merged onto a record whose figures are those of `earlier`. */
  lemma PreviousStep(m: Data, earlier: Data, reading: Data, f: Figure)
    requires IsReading(earlier) && IsReading(reading)
    requires AgreeOn(m, earlier, Current(f)) && AgreeOn(m, earlier, StatsRepo)
    ensures if earlier[StatsRepo] == reading[StatsRepo] && Current(f) in earlier
            then Previous(f) in Merge(m, reading) && Merge(m, reading)[Previous(f)] == earlier[Current(f)]
            else Previous(f) !in Merge(m, reading)
  {
    MergedPrevious(m, reading, f);
  }

  lemma MergedPrevious(m: Data, reading: Data, f: Figure)
    requires IsReading(reading)
    ensures if SameRepo(m, reading) && Current(f) in m
            then Previous(f) in Merge(m, reading) && Merge(m, reading)[Previous(f)] == m[Current(f)]
            else Previous(f) !in Merge(m, reading)
  {
    EveryFigure(f);
  }

  /**
  With only one reading since a live record, of whatever contents: the previous figures are exactly that
  record's current ones if both are of one repository, otherwise absent.
  */
  lemma FirstReading(start: Data, rs: seq<Data>, i: nat, f: Figure)
    requires AreRecords(rs) && LatestReading(rs, i) && forall j :: 0 <= j < i ==> IsPlain(rs[j])
    ensures if SameRepo(start, rs[i]) && Current(f) in start
            then Previous(f) in After(start, rs) && After(start, rs)[Previous(f)] == start[Current(f)]
            else Previous(f) !in After(start, rs)
  {
    PlainPrefix(start, rs, i, Current(f));
    PlainPrefix(start, rs, i, StatsRepo);
    MergedPrevious(After(start, rs[..i]), rs[i], f);
    AfterNext(start, rs, i);
    PlainLeaves(start, rs, i + 1, Previous(f));
  }

  lemma PlainPrefix(start: Data, rs: seq<Data>, i: nat, k: Key)
    requires i <= |rs| && IsRepoKey(k) && forall j :: 0 <= j < i ==> IsPlain(rs[j])
    ensures AgreeOn(After(start, rs[..i]), start, k)
  {
    PlainLeaves(start, rs[..i], 0, k);
    assert rs[..i][..0] == [];
  }

  /** No record from the `i`th on writes `k`. */
  ghost predicate NotWrittenFrom(rs: seq<Data>, i: nat, k: Key) {
    forall j :: i <= j < |rs| ==> k !in rs[j]
  }

  /** A key nothing writes holds what it held. */
  lemma {:induction false} UnwrittenStays(start: Data, rs: seq<Data>, i: nat, k: Key)
    requires AreRecords(rs) && !IsRepoKey(k) && i <= |rs| && NotWrittenFrom(rs, i, k)
    ensures AgreeOn(After(start, rs), After(start, rs[..i]), k)
  {
    if i < |rs| {
      var init := rs[..|rs| - 1];
      UnwrittenStays(start, init, i, k);
      assert init[..i] == rs[..i];
      MergeLeaves(After(start, init), rs[|rs| - 1], k);
    } else {
      assert rs[..i] == rs;
    }
  }

  /** Every other key holds what its last writer wrote. */
  lemma LastWriter(start: Data, rs: seq<Data>, i: nat, k: Key)
    requires AreRecords(rs) && !IsRepoKey(k)
    requires i < |rs| && k in rs[i] && NotWrittenFrom(rs, i + 1, k)
    ensures AgreeOn(After(start, rs), rs[i], k)
  {
    UnwrittenStays(start, rs, i + 1, k);
    AfterNext(start, rs, i);
  }

  // ----- what a reader finds -----

  /** The last check's record: its time, `passed` exactly if it passed, and its error or none. */
  lemma CheckShown(start: Data, rs: seq<Data>, i: nat, result: CheckResult, now: string)
    requires AreRecords(rs) && i < |rs| && rs[i] == CheckRecord(result, now)
    requires NotWrittenFrom(rs, i + 1, LastCheck) && NotWrittenFrom(rs, i + 1, LastCheckResult)
    requires NotWrittenFrom(rs, i + 1, LastCheckError)
    ensures var d := After(start, rs);
            && LastCheck in d && d[LastCheck] == now
            && LastCheckResult in d && (d[LastCheckResult] == "passed" <==> result == Passed)
            && (d[LastCheckResult] == "failed" <==> result != Passed)
            && LastCheckError in d
            && match result case Passed => d[LastCheckError] == "" case CheckFailed(error) => d[LastCheckError] == error
  {
    LastWriter(start, rs, i, LastCheck);
    LastWriter(start, rs, i, LastCheckResult);
    LastWriter(start, rs, i, LastCheckError);
    assert "passed" != "failed";
  }

  /** The last prune's record: its time, its word, its sentence, and whose Job it was. */
  lemma PruneShown(start: Data, rs: seq<Data>, i: nat, record: PruneRecord, who: string, now: string, k: Key)
    requires AreRecords(rs) && i < |rs| && rs[i] == PruneData(record, who, now) && NotWrittenFrom(rs, i + 1, k)
    ensures var d := After(start, rs);
            && (k == LastPrune ==> k in d && d[k] == now)
            && (k == LastPruneResult ==>
                  k in d && d[k] == match record
                                    case Pruned(_) => "pruned"
                                    case NothingToPrune(_) => "nothing-to-prune"
                                    case NotPermitted(_) => "not-permitted"
                                    case FailedPrune(_) => "failed")
            && (k == LastPruneDetail ==> k in d && d[k] == record.detail)
            && (k == LastPruneBy ==> k in d && d[k] == who)
  {
    if k in rs[i] {
      LastWriter(start, rs, i, k);
    }
  }

  /** A failure after a success: when each of them was, and what failed. */
  lemma FailureKeepsSuccess(start: Data, rs: seq<Data>, i: nat, j: nat, f: string, g: string, t: string, u: string,
                            error: string)
    requires AreRecords(rs) && i < j < |rs|
    requires rs[i] == BackupRecord(Success, f, t) && NotWrittenFrom(rs, i + 1, LastSuccess)
    requires rs[j] == BackupRecord(Failure(error), g, u)
    requires NotWrittenFrom(rs, j + 1, LastFailure) && NotWrittenFrom(rs, j + 1, LastError)
    ensures var d := After(start, rs);
            && LastSuccess in d && d[LastSuccess] == t
            && LastFailure in d && d[LastFailure] == u
            && LastError in d && d[LastError] == error
  {
    LastWriter(start, rs, i, LastSuccess);
    LastWriter(start, rs, j, LastFailure);
    LastWriter(start, rs, j, LastError);
  }

  /** A success after a failure: the error is cleared, and when it last failed is kept. */
  lemma SuccessClearsError(start: Data, rs: seq<Data>, i: nat, j: nat, f: string, g: string, t: string, u: string,
                           error: string)
    requires AreRecords(rs) && i < j < |rs|
    requires rs[i] == BackupRecord(Failure(error), f, t) && NotWrittenFrom(rs, i + 1, LastFailure)
    requires rs[j] == BackupRecord(Success, g, u)
    requires NotWrittenFrom(rs, j + 1, LastSuccess) && NotWrittenFrom(rs, j + 1, LastError)
    requires NotWrittenFrom(rs, j + 1, LastRunFormat)
    ensures var d := After(start, rs);
            && LastFailure in d && d[LastFailure] == t
            && LastSuccess in d && d[LastSuccess] == u
            && LastError in d && d[LastError] == ""
            && LastRunFormat in d && d[LastRunFormat] == g
  {
    LastWriter(start, rs, i, LastFailure);
    LastWriter(start, rs, j, LastSuccess);
    LastWriter(start, rs, j, LastError);
    LastWriter(start, rs, j, LastRunFormat);
  }

  /** The latest reading: its time, its repository, and every figure restic reported and no other. */
  lemma FiguresShown(start: Data, rs: seq<Data>, i: nat, stats: RepoStats, repo: string, now: string)
    requires AreRecords(rs) && LatestReading(rs, i) && rs[i] == StatsRecord(stats, repo, now)
    ensures var d := After(start, rs);
            && Shows(d, Current(StatsAt), Some(now)) && Shows(d, StatsRepo, Some(repo))
            && Shows(d, Current(Bytes), Some(stats.bytes))
            && Shows(d, Current(Snapshots), stats.snapshots) && Shows(d, Current(Blobs), stats.blobs)
  {
    CurrentFigures(start, rs, i, Current(StatsAt));
    CurrentFigures(start, rs, i, StatsRepo);
    CurrentFigures(start, rs, i, Current(Bytes));
    CurrentFigures(start, rs, i, Current(Snapshots));
    CurrentFigures(start, rs, i, Current(Blobs));
  }

  predicate Shows(d: Data, k: Key, v: Option<string>) {
    match v case None => k !in d case Some(x) => k in d && d[k] == x
  }

  /** What a stop's record says of the step it stopped. */
  lemma StopSays(mode: O.Mode, phase: O.Phase, format: string, error: string, now: string)
    ensures var d := StopData(mode, phase, format, error, now);
            && (mode == O.BackupJob ==>
                  Shows(d, LastFailure, Some(now)) && Shows(d, LastError, Some(error))
                  && Shows(d, LastRunFormat, Some(format)))
            && (mode == O.CheckJob && phase == O.CheckPhase ==>
                  Shows(d, LastCheck, Some(now)) && Shows(d, LastCheckResult, Some("failed"))
                  && Shows(d, LastCheckError, Some(error)))
            && (mode == O.CheckJob && phase == O.PrunePhase ==>
                  Shows(d, LastPrune, Some(now)) && Shows(d, LastPruneResult, Some("failed"))
                  && Shows(d, LastPruneDetail, Some(error)) && Shows(d, LastPruneBy, Some("check")))
            && (mode == O.CheckJob && phase == O.StatsPhase ==> d == map[])
  {
  }

  /** Records that share no key may be written in either order. */
  lemma DisjointRecordsCommute(m: Data, a: Data, b: Data)
    requires (IsReading(a) || IsPlain(a)) && (IsReading(b) || IsPlain(b)) && a.Keys !! b.Keys
    ensures Merge(Merge(m, a), b) == Merge(Merge(m, b), a)
  {
    if IsReading(a) {
      ReadingCommutes(m, a, b);
    } else if IsReading(b) {
      ReadingCommutes(m, b, a);
    }
  }

  lemma ReadingCommutes(m: Data, reading: Data, plain: Data)
    requires IsReading(reading) && IsPlain(plain)
    ensures Merge(Merge(m, reading), plain) == Merge(Merge(m, plain), reading)
  {
    var shifted := Shifted(m, SameRepo(m, reading));
    ShiftOverPlain(m, plain, SameRepo(m, reading));
    assert Merge(m, plain) == m + plain;
    assert SameRepo(m + plain, reading) == SameRepo(m, reading);
    Swap(shifted, reading, plain);
  }

  lemma Swap(a: Data, b: Data, c: Data)
    requires b.Keys !! c.Keys
    ensures a + b + c == a + c + b
  {
  }

  lemma ShiftOverPlain(m: Data, plain: Data, same: bool)
    requires IsPlain(plain)
    ensures Shifted(m + plain, same) == Shifted(m, same) + plain
  {
    forall k: Key
      ensures k in Shifted(m + plain, same) <==> k in Shifted(m, same) + plain
      ensures k in Shifted(m + plain, same) ==> Shifted(m + plain, same)[k] == (Shifted(m, same) + plain)[k]
    {
      assert k.Current? || k.Previous? ==> k !in plain && Current(k.figure) !in plain;
    }
  }
}
