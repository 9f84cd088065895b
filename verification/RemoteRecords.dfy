/** Import of task reports from remote hosts: how one report is folded into the local
    record, and when the order in which reports arrive does not matter. */
module RemoteRecords {
  import opened Common
  import opened TaskSequences
  import opened SequenceHistory

  datatype Json = Text(string) | Number(nat) | Flag(bool) | Opaque(string)

  type Metadata = map<string, Json>

  /** A task record. `metadata` is None where the text is absent or not a JSON object;
      `task` holds the columns that numbering works on. */
  datatype Record = Record(
    title: string, description: string, status: string, updatedAt: nat,
    cwd: Option<string>, agentId: Option<string>, metadata: Option<Metadata>, task: Task)

  predicate Terminal(status: string) {
    "closed:" <= status
  }

  // ---- One report ----

  /** Whether the local status outlives the report. */
  predicate Preserves(current: Version, report: Record) {
    Terminal(current.status) &&
    if Terminal(report.status) then current.updatedAt > report.updatedAt
    else report.task.createdAt <= current.updatedAt
  }

  function Entries(metadata: Option<Metadata>): Metadata {
    if metadata.Some? then metadata.value else map[]
  }

  function Marked(merged: Metadata, report: Record, root: string, now: nat): Metadata {
    var m1 := if report.task.repoRoot.Some? then merged["remote_repo_root" := Text(report.task.repoRoot.value)] else merged;
    var m2 := if report.cwd.Some? then m1["remote_cwd" := Text(report.cwd.value)] else m1;
    var m3 := if report.task.sequence.Some? then m2["remote_sequence" := Number(report.task.sequence.value)] else m2;
    m3["canonical_repo_root" := Text(root)]["remote_status" := Text(report.status)]["remote_synced_at" := Number(now)]
  }

  function DescriptionFor(report: Record, existing: Option<Record>): string {
    if !IsBlank(report.description) then report.description
    else if existing.Some? then existing.value.description
    else "Remote task-flow work for " + report.title + "."
  }

  function Canonical(report: Record, existing: Option<Record>, root: string, now: nat): Record {
    var keep := existing.Some? && Preserves(VersionOf(existing.value), report);
    var had := if existing.Some? then existing.value.metadata else None;
    var local := existing.Some? && existing.value.task.repoRoot == Some(root);
    Record(
      report.title,
      DescriptionFor(report, existing),
      if keep then existing.value.status else report.status,
      if keep then existing.value.updatedAt else report.updatedAt,
      report.cwd.OrElse(if existing.Some? then existing.value.cwd else None),
      report.agentId.OrElse(if existing.Some? then existing.value.agentId else None),
      Some(Marked(Entries(had) + Entries(report.metadata), report, root, now)),
      Task(
        report.task.source,
        if local then existing.value.task.sequence else None,
        Some(root),
        if existing.Some? then existing.value.task.createdAt else now))
  }

  /** Edits a copy of the local record, or a new one, step by step. */
  method CanonicalRecord(report: Record, existing: Option<Record>, root: string, now: nat)
    returns (record: Record)
    ensures record == Canonical(report, existing, root, now)
  {
    if existing.Some? {
      record := existing.value;
    } else {
      var description := report.description;
      if IsBlank(description) {
        description := "Remote task-flow work for " + report.title + ".";
      }
      record := Record(report.title, description, report.status, now, report.cwd, report.agentId, None,
                       Task(report.task.source, None, Some(root), now));
    }
    record := record.(title := report.title, task := record.task.(source := report.task.source));
    if !IsBlank(report.description) {
      record := record.(description := report.description);
    }
    if !(existing.Some? && Preserves(VersionOf(existing.value), report)) {
      record := record.(status := report.status, updatedAt := report.updatedAt);
    }
    record := record.(task := record.task.(repoRoot := Some(root)));
    record := record.(cwd := report.cwd.OrElse(record.cwd), agentId := report.agentId.OrElse(record.agentId));
    var metadata := Entries(report.metadata);
    if existing.Some? && existing.value.metadata.Some? {
      metadata := FillMissing(metadata, existing.value.metadata.value);
    }
    assert metadata == Entries(if existing.Some? then existing.value.metadata else None) + Entries(report.metadata);
    metadata := Marked(metadata, report, root, now);
    record := record.(metadata := Some(metadata));
    var sequence := if existing.Some? && existing.value.task.repoRoot == Some(root)
                    then existing.value.task.sequence else None;
    record := record.(task := record.task.(sequence := sequence));
  }

  /** Every entry of `other` whose key is not taken. */
  method FillMissing(start: Metadata, other: Metadata) returns (metadata: Metadata)
    ensures metadata == other + start
  {
    metadata := start;
    var keys := other.Keys;
    while keys != {}
      invariant keys <= other.Keys
      invariant metadata.Keys == start.Keys + (other.Keys - keys)
      invariant forall k :: k in metadata ==> metadata[k] == if k in start then start[k] else other[k]
    {
      var key :| key in keys;
      if key !in metadata {
        metadata := metadata[key := other[key]];
      }
      keys := keys - {key};
    }
  }

  // ---- Many reports for one task ----

  /** The two columns that decide which report a record shows. */
  datatype Version = Version(status: string, updatedAt: nat)

  function VersionOf(record: Record): Version {
    Version(record.status, record.updatedAt)
  }

  function Merge(current: Option<Version>, report: Record): Version {
    if current.Some? && Preserves(current.value, report) then current.value else VersionOf(report)
  }

  function Folded(initial: Option<Version>, reports: seq<Record>): Option<Version> {
    if reports == [] then initial
    else Some(Merge(Folded(initial, reports[..|reports| - 1]), reports[|reports| - 1]))
  }

  predicate Unfinished(initial: Option<Version>) {
    initial.None? || !Terminal(initial.value.status)
  }

  /** `t` is a terminal report that no other report of the list can displace. */
  predicate Dominates(t: Record, r: Record) {
    Terminal(t.status) &&
    if Terminal(r.status) then r.updatedAt < t.updatedAt || VersionOf(r) == VersionOf(t)
    else r.task.createdAt <= t.updatedAt
  }

  ghost predicate Settles(reports: seq<Record>, t: Record) {
    t in reports && forall r :: r in reports ==> Dominates(t, r)
  }

  /** A dominating report wins wherever it stands in the list and however often any
      report is repeated. */
  lemma {:induction false} SettledEndsThere(initial: Option<Version>, reports: seq<Record>, t: Record)
    requires Unfinished(initial)
    requires forall r :: r in reports ==> Dominates(t, r)
    ensures
      var final := Folded(initial, reports);
      if t in reports then final == Some(VersionOf(t))
      else final.Some? && Terminal(final.value.status) ==>
        final.value.updatedAt < t.updatedAt || final.value == VersionOf(t)
  {
    if reports != [] {
      var front := reports[..|reports| - 1];
      var last := reports[|reports| - 1];
      assert reports == front + [last];
      assert last in reports && Dominates(t, last);
      SettledEndsThere(initial, front, t);
    }
  }

  lemma {:induction false} NoTerminalEndsWithLast(initial: Option<Version>, reports: seq<Record>)
    requires Unfinished(initial) && forall r :: r in reports ==> !Terminal(r.status)
    ensures Folded(initial, reports)
         == if reports == [] then initial else Some(VersionOf(reports[|reports| - 1]))
  {
    if reports != [] {
      NoTerminalEndsWithLast(initial, reports[..|reports| - 1]);
    }
  }

  ghost predicate Converges(initial: Option<Version>, reports: seq<Record>) {
    forall other: seq<Record> :: multiset(other) == multiset(reports) ==>
      Folded(initial, other) == Folded(initial, reports)
  }

  /** A terminal report with the latest update time. */
  lemma {:induction false} LatestTerminal(reports: seq<Record>) returns (t: Record)
    requires exists r :: r in reports && Terminal(r.status)
    ensures t in reports && Terminal(t.status)
    ensures forall r :: r in reports && Terminal(r.status) ==> r.updatedAt <= t.updatedAt
  {
    var front, last := reports[..|reports| - 1], reports[|reports| - 1];
    assert reports == front + [last];
    if exists r :: r in front && Terminal(r.status) {
      t := LatestTerminal(front);
      if Terminal(last.status) && last.updatedAt > t.updatedAt {
        t := last;
      }
    } else {
      t := last;
    }
  }

  /** The same reports with one occurrence of `r` moved to the end. */
  lemma MovedToEnd(reports: seq<Record>, r: Record) returns (front: seq<Record>)
    requires r in reports
    ensures multiset(front + [r]) == multiset(reports)
    ensures forall x :: x in front ==> x in reports
  {
    var i :| 0 <= i < |reports| && reports[i] == r;
    front := reports[..i] + reports[i + 1..];
    assert reports == reports[..i] + [r] + reports[i + 1..];
  }

  lemma FoldedLast(initial: Option<Version>, front: seq<Record>, r: Record)
    ensures Folded(initial, front + [r]) == Some(Merge(Folded(initial, front), r))
  {
    assert (front + [r])[..|front|] == front;
  }

  /** Every version a fold shows is the initial one or that of a report. */
  lemma {:induction false} FoldedIsReported(initial: Option<Version>, reports: seq<Record>)
    ensures Folded(initial, reports) == initial
         || exists i :: 0 <= i < |reports| && Folded(initial, reports) == Some(VersionOf(reports[i]))
  {
    hide Preserves;
    if reports != [] {
      var n := |reports| - 1;
      FoldedIsReported(initial, reports[..n]);
      if Folded(initial, reports) == Some(VersionOf(reports[n])) {
      } else if i :| 0 <= i < n && Folded(initial, reports[..n]) == Some(VersionOf(reports[..n][i])) {
        assert reports[..n][i] == reports[i];
      }
    }
  }

  /** A terminal report not older than any other wins when it comes last; a report created
      after every terminal update wins when it comes last. */
  lemma LastWins(initial: Option<Version>, front: seq<Record>, r: Record)
    requires Unfinished(initial)
    requires forall x :: x in front && Terminal(x.status) ==>
      if Terminal(r.status) then x.updatedAt <= r.updatedAt else x.updatedAt < r.task.createdAt
    ensures Folded(initial, front + [r]) == Some(VersionOf(r))
  {
    FoldedIsReported(initial, front);
    FoldedLast(initial, front, r);
  }

  ghost predicate HasTerminal(reports: seq<Record>) {
    exists r :: r in reports && Terminal(r.status)
  }

  ghost predicate SameVersions(reports: seq<Record>) {
    forall r, q :: r in reports && q in reports ==> VersionOf(r) == VersionOf(q)
  }

  /** For a task that is new or still open, the order of its reports is irrelevant exactly
      when one terminal report dominates (it is the latest, terminal reports that tie with
      it agree with it, and no open report was created after it), or when there is no
      terminal report and all reports show the same version. */
  lemma ConvergesIff(initial: Option<Version>, reports: seq<Record>)
    requires Unfinished(initial)
    ensures Converges(initial, reports) <==>
      if HasTerminal(reports) then exists t :: Settles(reports, t) else SameVersions(reports)
  {
    if HasTerminal(reports) {
      TerminalConvergesIff(initial, reports);
    } else {
      OpenConvergesIff(initial, reports);
    }
  }

  lemma OpenConvergesIff(initial: Option<Version>, reports: seq<Record>)
    requires Unfinished(initial) && !HasTerminal(reports)
    ensures Converges(initial, reports) <==> SameVersions(reports)
  {
    if SameVersions(reports) {
      forall other: seq<Record> | multiset(other) == multiset(reports)
        ensures Folded(initial, other) == Folded(initial, reports)
      {
        SameMembers(other, reports);
        assert |multiset(other)| == |other| && |multiset(reports)| == |reports|;
        NoTerminalEndsWithLast(initial, other);
        NoTerminalEndsWithLast(initial, reports);
      }
    } else {
      var r, q :| r in reports && q in reports && VersionOf(r) != VersionOf(q);
      var first := MovedToEnd(reports, r);
      var second := MovedToEnd(reports, q);
      NoTerminalEndsWithLast(initial, first + [r]);
      NoTerminalEndsWithLast(initial, second + [q]);
    }
  }

  lemma TerminalConvergesIff(initial: Option<Version>, reports: seq<Record>)
    requires Unfinished(initial) && HasTerminal(reports)
    ensures Converges(initial, reports) <==> exists t :: Settles(reports, t)
  {
    if t :| Settles(reports, t) {
      SettledEndsThere(initial, reports, t);
      forall other: seq<Record> | multiset(other) == multiset(reports)
        ensures Folded(initial, other) == Folded(initial, reports)
      {
        SameMembers(other, reports);
        SettledEndsThere(initial, other, t);
      }
    } else {
      var t := LatestTerminal(reports);
      assert !Settles(reports, t);
      var r :| r in reports && !Dominates(t, r);
      var closing := MovedToEnd(reports, t);
      var other := MovedToEnd(reports, r);
      LastWins(initial, closing, t);
      LastWins(initial, other, r);
      assert VersionOf(t) != VersionOf(r);
    }
  }

  lemma SameMembers(a: seq<Record>, b: seq<Record>)
    requires multiset(a) == multiset(b)
    ensures forall r :: r in a <==> r in b
  {
    forall r ensures r in a <==> r in b {
      assert r in a <==> r in multiset(a);
      assert r in b <==> r in multiset(b);
    }
  }

  // ---- The store ----

  datatype RecordDb = RecordDb(records: map<string, Record>, counters: map<string, int>)

  /** The numbering columns of the record table. */
  function Numbering(db: RecordDb): TaskDb {
    TaskDb(map id | id in db.records :: db.records[id].task, db.counters)
  }

  function Find(db: RecordDb, id: string): Option<Record> {
    if id in db.records then Some(db.records[id]) else None
  }

  function Shown(db: RecordDb, id: string): Option<Version> {
    if id in db.records then Some(VersionOf(db.records[id])) else None
  }

  function UpsertRecord(db: RecordDb, id: string, record: Record): Result<RecordDb, TaskError> {
    match UpsertStep(Numbering(db), id, record.task)
    case Err(e) => Err(e)
    case Ok(next) =>
      var stored := Find(db, id);
      var row := Record(
        record.title, record.description, record.status, record.updatedAt,
        record.cwd.OrElse(if stored.Some? then stored.value.cwd else None),
        record.agentId.OrElse(if stored.Some? then stored.value.agentId else None),
        record.metadata.OrElse(if stored.Some? then stored.value.metadata else None),
        next.tasks[id]);
      Ok(RecordDb(db.records[id := row], next.counters))
  }

  datatype Adapter = Adapter(launcher: string, name: string, legacy: bool)

  function WithAdapter(record: Record, adapter: Adapter): Record {
    record.(metadata := Some(Entries(record.metadata)
      ["remote_launcher" := Text(adapter.launcher)]
      ["remote_adapter" := Text(adapter.name)]
      ["remote_adapter_legacy_qcold" := Flag(adapter.legacy)]))
  }

  /** A report as received, with the local clock at the moment it is merged. */
  datatype Report = Report(id: string, record: Record, now: nat)
  datatype Import = Import(adapter: Adapter, remoteRoot: Option<string>, root: string)
  datatype Summary = Summary(imported: nat, skipped: nat)

  predicate Selected(report: Report, i: Import) {
    && (i.remoteRoot.None? || report.record.task.repoRoot == i.remoteRoot)
    && report.record.task.source == "task-flow"
  }

  function SyncOne(db: RecordDb, report: Report, i: Import): Result<RecordDb, TaskError> {
    UpsertRecord(db, report.id,
           WithAdapter(Canonical(report.record, Find(db, report.id), i.root, report.now), i.adapter))
  }

  /** The first failing upsert ends the import; what was stored before it stays. */
  function SyncAll(db: RecordDb, reports: seq<Report>, i: Import): (RecordDb, Result<Summary, TaskError>) {
    if reports == [] then (db, Ok(Summary(0, 0)))
    else
      var (next, summary) := SyncAll(db, reports[..|reports| - 1], i);
      var last := reports[|reports| - 1];
      if summary.Err? then (next, summary)
      else if !Selected(last, i) then
        (next, Ok(Summary(summary.value.imported, summary.value.skipped + 1)))
      else match SyncOne(next, last, i)
        case Err(e) => (next, Err(e))
        case Ok(stored) => (stored, Ok(Summary(summary.value.imported + 1, summary.value.skipped)))
  }

  class Store {
    var records: map<string, Record>
    var counters: map<string, int>

    ghost function Db(): RecordDb
      reads this
    {
      RecordDb(records, counters)
    }

    constructor ()
      ensures Db() == RecordDb(map[], map[])
    {
      records, counters := map[], map[];
    }

    method SyncReports(reports: seq<Report>, i: Import) returns (summary: Result<Summary, TaskError>)
      modifies this
      ensures (Db(), summary) == SyncAll(old(Db()), reports, i)
    {
      hide SyncAll, UpsertRecord, Canonical, WithAdapter;
      var imported, skipped := 0, 0;
      ghost var start := Db();
      NothingSynced(start, reports, i);
      for k := 0 to |reports|
        invariant (Db(), Ok(Summary(imported, skipped))) == SyncAll(start, reports[..k], i)
      {
        SyncStep(start, reports, i, k);
        var report := reports[k];
        if i.remoteRoot.Some? && report.record.task.repoRoot != i.remoteRoot {
          skipped := skipped + 1;
          continue;
        }
        if report.record.task.source != "task-flow" {
          skipped := skipped + 1;
          continue;
        }
        var existing := if report.id in records then Some(records[report.id]) else None;
        var record := CanonicalRecord(report.record, existing, i.root, report.now);
        match UpsertRecord(RecordDb(records, counters), report.id, WithAdapter(record, i.adapter)) {
          case Err(e) =>
            SyncStaysFailed(start, reports, i, k + 1);
            return Err(e);
          case Ok(next) =>
            records, counters := next.records, next.counters;
        }
        imported := imported + 1;
      }
      assert reports[..|reports|] == reports;
      summary := Ok(Summary(imported, skipped));
    }
  }

  lemma NothingSynced(db: RecordDb, reports: seq<Report>, i: Import)
    ensures SyncAll(db, reports[..0], i) == (db, Ok(Summary(0, 0)))
  {
  }

  lemma SyncStep(db: RecordDb, reports: seq<Report>, i: Import, k: nat)
    requires k < |reports| && SyncAll(db, reports[..k], i).1.Ok?
    ensures
      var (next, summary) := SyncAll(db, reports[..k], i);
      SyncAll(db, reports[..k + 1], i) ==
      if !Selected(reports[k], i) then (next, Ok(summary.value.(skipped := summary.value.skipped + 1)))
      else match SyncOne(next, reports[k], i)
        case Err(e) => (next, Err(e))
        case Ok(stored) => (stored, Ok(summary.value.(imported := summary.value.imported + 1)))
  {
    assert reports[..k + 1][..k] == reports[..k];
  }

  lemma {:induction false} SyncStaysFailed(db: RecordDb, reports: seq<Report>, i: Import, k: nat)
    requires k <= |reports| && SyncAll(db, reports[..k], i).1.Err?
    ensures SyncAll(db, reports, i) == SyncAll(db, reports[..k], i)
    decreases |reports|
  {
    if k == |reports| {
      assert reports[..k] == reports;
    } else {
      var front := reports[..|reports| - 1];
      assert front[..k] == reports[..k];
      SyncStaysFailed(db, front, i, k);
    }
  }

  /** The reports of one task that an import takes up, in order. */
  function ReportsFor(reports: seq<Report>, i: Import, id: string): seq<Record> {
    if reports == [] then []
    else
      var last := reports[|reports| - 1];
      ReportsFor(reports[..|reports| - 1], i, id) + if Selected(last, i) && last.id == id then [last.record] else []
  }

  lemma SyncOneShows(db: RecordDb, report: Report, i: Import, id: string)
    requires SyncOne(db, report, i).Ok?
    ensures Shown(SyncOne(db, report, i).value, id)
         == if id == report.id then Some(Merge(Shown(db, id), report.record)) else Shown(db, id)
  {
  }

  /** A completed import shows, for every task, the fold of that task's own reports. */
  lemma {:induction false} SyncFoldsEachTask(db: RecordDb, reports: seq<Report>, i: Import, id: string)
    requires SyncAll(db, reports, i).1.Ok?
    ensures Shown(SyncAll(db, reports, i).0, id) == Folded(Shown(db, id), ReportsFor(reports, i, id))
    ensures
      var summary := SyncAll(db, reports, i).1.value;
      summary.imported + summary.skipped == |reports|
  {
    hide SyncOne, Merge;
    if reports != [] {
      var front, last := reports[..|reports| - 1], reports[|reports| - 1];
      SyncFoldsEachTask(db, front, i, id);
      var next := SyncAll(db, front, i).0;
      var mine := ReportsFor(front, i, id);
      if Selected(last, i) {
        SyncOneShows(next, last, i, id);
        if last.id == id {
          FoldedLast(Shown(db, id), mine, last.record);
        } else {
          assert ReportsFor(reports, i, id) == mine;
        }
      } else {
        assert ReportsFor(reports, i, id) == mine;
      }
    }
  }

  /** Two imports that bring an open task the same reports, in any order and with any
      repetition, show the same status and time if one of the reports dominates. */
  lemma ImportsAgree(
    db: RecordDb, a: seq<Report>, b: seq<Report>, i: Import, id: string, t: Record)
    requires SyncAll(db, a, i).1.Ok? && SyncAll(db, b, i).1.Ok?
    requires Unfinished(Shown(db, id)) && Settles(ReportsFor(a, i, id), t)
    requires forall r :: r in ReportsFor(a, i, id) <==> r in ReportsFor(b, i, id)
    ensures Shown(SyncAll(db, a, i).0, id) == Shown(SyncAll(db, b, i).0, id) == Some(VersionOf(t))
  {
    SyncFoldsEachTask(db, a, i, id);
    SyncFoldsEachTask(db, b, i, id);
    SettledEndsThere(Shown(db, id), ReportsFor(a, i, id), t);
    SettledEndsThere(Shown(db, id), ReportsFor(b, i, id), t);
  }

  /** Keys the import writes itself. */
  const MARKERS: set<string> := {
    "remote_repo_root", "remote_cwd", "remote_sequence", "canonical_repo_root", "remote_status",
    "remote_synced_at", "remote_launcher", "remote_adapter", "remote_adapter_legacy_qcold" }

  function Entry(metadata: Option<Metadata>, key: string): Option<Json> {
    if key in Entries(metadata) then Some(Entries(metadata)[key]) else None
  }

  function EntryOf(db: RecordDb, id: string, key: string): Option<Json> {
    if id in db.records then Entry(db.records[id].metadata, key) else None
  }

  /** The value in the latest report that has the key, or else the one there before. */
  function LastEntry(initial: Option<Json>, reports: seq<Record>, key: string): Option<Json> {
    if reports == [] then initial
    else Entry(reports[|reports| - 1].metadata, key).OrElse(LastEntry(initial, reports[..|reports| - 1], key))
  }

  lemma CanonicalEntry(report: Record, existing: Option<Record>, root: string, now: nat, adapter: Adapter, key: string)
    requires key !in MARKERS
    ensures
      Entry(WithAdapter(Canonical(report, existing, root, now), adapter).metadata, key)
      == Entry(report.metadata, key).OrElse(if existing.Some? then Entry(existing.value.metadata, key) else None)
  {
  }

  lemma SyncOneEntry(db: RecordDb, report: Report, i: Import, id: string, key: string)
    requires SyncOne(db, report, i).Ok? && key !in MARKERS
    ensures EntryOf(SyncOne(db, report, i).value, id, key)
         == if id == report.id then Entry(report.record.metadata, key).OrElse(EntryOf(db, id, key))
            else EntryOf(db, id, key)
  {
    CanonicalEntry(report.record, Find(db, report.id), i.root, report.now, i.adapter, key);
    hide Canonical, Entry, UpsertStep;
  }

  lemma LastEntryLast(initial: Option<Json>, front: seq<Record>, r: Record, key: string)
    ensures LastEntry(initial, front + [r], key) == Entry(r.metadata, key).OrElse(LastEntry(initial, front, key))
  {
    assert (front + [r])[..|front|] == front;
  }

  /** Apart from the import's own markers, no metadata entry is ever lost, and each holds
      what the latest report with that key said. */
  lemma {:induction false} SyncKeepsMetadata(db: RecordDb, reports: seq<Report>, i: Import, id: string, key: string)
    requires SyncAll(db, reports, i).1.Ok? && key !in MARKERS
    ensures EntryOf(SyncAll(db, reports, i).0, id, key)
         == LastEntry(EntryOf(db, id, key), ReportsFor(reports, i, id), key)
  {
    hide SyncOne, Entry, EntryOf;
    if reports != [] {
      var front, last := reports[..|reports| - 1], reports[|reports| - 1];
      SyncKeepsMetadata(db, front, i, id, key);
      var next := SyncAll(db, front, i).0;
      var mine := ReportsFor(front, i, id);
      if Selected(last, i) {
        SyncOneEntry(next, last, i, id, key);
      }
      if Selected(last, i) && last.id == id {
        LastEntryLast(EntryOf(db, id, key), mine, last.record, key);
      } else {
        assert ReportsFor(reports, i, id) == mine;
      }
    }
  }

  // ---- What an import takes up, and what it stores ----

  /** A report of a task-flow task from the wanted repository, if one was named. */
  ghost predicate Wanted(report: Report, i: Import) {
    && report.record.task.source == "task-flow"
    && (i.remoteRoot.Some? ==> report.record.task.repoRoot.Some?
                               && report.record.task.repoRoot.value == i.remoteRoot.value)
  }

  ghost function WantedPlaces(reports: seq<Report>, i: Import): set<int> {
    set k | 0 <= k < |reports| && Wanted(reports[k], i)
  }

  ghost predicate Mentions(reports: seq<Report>, i: Import, id: string) {
    exists k :: 0 <= k < |reports| && Wanted(reports[k], i) && reports[k].id == id
  }

  /** A completed import counts exactly the wanted reports as imported, and the others
      as skipped. */
  lemma {:induction false} ImportCountsWanted(db: RecordDb, reports: seq<Report>, i: Import)
    requires SyncAll(db, reports, i).1.Ok?
    ensures
      var summary := SyncAll(db, reports, i).1.value;
      summary.imported == |WantedPlaces(reports, i)| && summary.imported + summary.skipped == |reports|
  {
    hide SyncOne;
    if reports == [] {
      assert WantedPlaces(reports, i) == {};
    } else {
      var n := |reports| - 1;
      var front := reports[..n];
      ImportCountsWanted(db, front, i);
      assert forall k :: 0 <= k < n ==> reports[k] == front[k];
      assert WantedPlaces(reports, i) == WantedPlaces(front, i) + if Wanted(reports[n], i) then {n} else {};
    }
  }

  /** Every task a wanted report is about has a record afterwards, no record is lost, and
      a task that no wanted report is about keeps what it had. */
  lemma {:induction false} ImportTakesWanted(db: RecordDb, reports: seq<Report>, i: Import, id: string)
    requires SyncAll(db, reports, i).1.Ok?
    ensures
      var after := SyncAll(db, reports, i).0;
      && (id in after.records <==> id in db.records || Mentions(reports, i, id))
      && (!Mentions(reports, i, id) ==> Find(after, id) == Find(db, id))
  {
    hide SyncOne, Mentions;
    if reports == [] {
      NothingMentioned(i, id);
    } else {
      var n := |reports| - 1;
      var front, last := reports[..n], reports[n];
      ImportTakesWanted(db, front, i, id);
      LastMentioned(reports, i, id);
      if Wanted(last, i) {
        SyncOneKeepsOthers(SyncAll(db, front, i).0, last, i);
      }
    }
  }

  lemma NothingMentioned(i: Import, id: string)
    ensures !Mentions([], i, id)
  {
  }

  lemma LastMentioned(reports: seq<Report>, i: Import, id: string)
    requires reports != []
    ensures
      var n := |reports| - 1;
      Mentions(reports, i, id) <==> Mentions(reports[..n], i, id) || (Wanted(reports[n], i) && reports[n].id == id)
  {
    var n := |reports| - 1;
    assert forall k :: 0 <= k < n ==> reports[..n][k] == reports[k];
    if k :| 0 <= k < n && Wanted(reports[..n][k], i) && reports[..n][k].id == id {
      assert Wanted(reports[k], i) && reports[k].id == id;
    }
  }

  lemma SyncOneKeepsOthers(db: RecordDb, report: Report, i: Import)
    requires SyncOne(db, report, i).Ok?
    ensures
      var after := SyncOne(db, report, i).value;
      && report.id in after.records
      && (forall id :: id in db.records ==> id in after.records)
      && (forall id :: id != report.id ==> Find(after, id) == Find(db, id))
  {
  }

  /** The record one report leaves, column by column: title and source are the report's;
      the description only if it is not blank; folder and agent only if it names them; the
      repository is the local one; the time of creation is never moved. */
  lemma ImportStores(db: RecordDb, report: Report, i: Import)
    requires SyncOne(db, report, i).Ok?
    ensures
      var had, remote := Find(db, report.id), report.record;
      var row := SyncOne(db, report, i).value.records[report.id];
      && row.title == remote.title && row.task.source == remote.task.source && row.task.repoRoot == Some(i.root)
      && row.description == (if !IsBlank(remote.description) then remote.description
                             else if had.Some? then had.value.description
                             else "Remote task-flow work for " + remote.title + ".")
      && row.cwd == (if remote.cwd.Some? then remote.cwd else if had.Some? then had.value.cwd else None)
      && row.agentId == (if remote.agentId.Some? then remote.agentId else if had.Some? then had.value.agentId else None)
      && row.task.createdAt == (if had.Some? then had.value.task.createdAt else report.now)
      && StatusTaken(had, remote, row)
  {
    hide Marked, WithAdapter, Advance, ChooseSequence, Clashes;
    AdapterKeepsColumns(Canonical(report.record, Find(db, report.id), i.root, report.now), i.adapter);
  }

  lemma AdapterKeepsColumns(record: Record, adapter: Adapter)
    ensures WithAdapter(record, adapter) == record.(metadata := WithAdapter(record, adapter).metadata)
    ensures WithAdapter(record, adapter).metadata.Some?
  {
  }

  /** A closed record keeps its status and time against an older closing and against an
      open report created no later than its update; otherwise the report's are taken. */
  ghost predicate StatusTaken(had: Option<Record>, remote: Record, row: Record) {
    if had.Some? && "closed:" <= had.value.status
       && (if "closed:" <= remote.status then had.value.updatedAt > remote.updatedAt
           else remote.task.createdAt <= had.value.updatedAt)
    then row.status == had.value.status && row.updatedAt == had.value.updatedAt
    else row.status == remote.status && row.updatedAt == remote.updatedAt
  }

  /** The import's own metadata entries. */
  lemma ImportMarks(db: RecordDb, report: Report, i: Import)
    requires SyncOne(db, report, i).Ok?
    ensures
      var remote, after := report.record, SyncOne(db, report, i).value;
      && EntryOf(after, report.id, "canonical_repo_root") == Some(Text(i.root))
      && EntryOf(after, report.id, "remote_status") == Some(Text(remote.status))
      && EntryOf(after, report.id, "remote_synced_at") == Some(Number(report.now))
      && EntryOf(after, report.id, "remote_launcher") == Some(Text(i.adapter.launcher))
      && EntryOf(after, report.id, "remote_adapter") == Some(Text(i.adapter.name))
      && EntryOf(after, report.id, "remote_adapter_legacy_qcold") == Some(Flag(i.adapter.legacy))
      && (remote.task.repoRoot.Some? ==>
            EntryOf(after, report.id, "remote_repo_root") == Some(Text(remote.task.repoRoot.value)))
      && (remote.cwd.Some? ==> EntryOf(after, report.id, "remote_cwd") == Some(Text(remote.cwd.value)))
      && (remote.task.sequence.Some? ==>
            EntryOf(after, report.id, "remote_sequence") == Some(Number(remote.task.sequence.value)))
  {
    MarksOf(report.record, Find(db, report.id), i.root, report.now, i.adapter);
    hide Canonical, Marked, WithAdapter, Entry, UpsertStep;
    AdapterKeepsColumns(Canonical(report.record, Find(db, report.id), i.root, report.now), i.adapter);
  }

  lemma MarksOf(remote: Record, had: Option<Record>, root: string, now: nat, adapter: Adapter)
    ensures
      var m := WithAdapter(Canonical(remote, had, root, now), adapter).metadata;
      && Entry(m, "canonical_repo_root") == Some(Text(root))
      && Entry(m, "remote_status") == Some(Text(remote.status))
      && Entry(m, "remote_synced_at") == Some(Number(now))
      && Entry(m, "remote_launcher") == Some(Text(adapter.launcher))
      && Entry(m, "remote_adapter") == Some(Text(adapter.name))
      && Entry(m, "remote_adapter_legacy_qcold") == Some(Flag(adapter.legacy))
      && (remote.task.repoRoot.Some? ==> Entry(m, "remote_repo_root") == Some(Text(remote.task.repoRoot.value)))
      && (remote.cwd.Some? ==> Entry(m, "remote_cwd") == Some(Text(remote.cwd.value)))
      && (remote.task.sequence.Some? ==> Entry(m, "remote_sequence") == Some(Number(remote.task.sequence.value)))
  {
  }

  // ---- Numbering of imported tasks ----

  /** The numbering columns that an import hands to the upsert. */
  function ImportedTask(db: RecordDb, report: Report, i: Import): Task {
    Canonical(report.record, Find(db, report.id), i.root, report.now).task
  }

  lemma ImportIsUpsert(db: RecordDb, report: Report, i: Import)
    ensures
      var step := UpsertStep(Numbering(db), report.id, ImportedTask(db, report, i));
      && (SyncOne(db, report, i).Ok? <==> step.Ok?)
      && (step.Ok? ==> Numbering(SyncOne(db, report, i).value) == step.value)
  {
    hide Canonical, UpsertRecord, UpsertStep, Numbering;
    UpsertNumbers(db, report.id,
                  WithAdapter(Canonical(report.record, Find(db, report.id), i.root, report.now), i.adapter));
  }

  /** An upsert of a record is one of its numbering columns. */
  lemma UpsertNumbers(db: RecordDb, id: string, record: Record)
    ensures
      var step := UpsertStep(Numbering(db), id, record.task);
      && (UpsertRecord(db, id, record).Ok? <==> step.Ok?)
      && (step.Ok? ==> Numbering(UpsertRecord(db, id, record).value) == step.value)
  {
    var step := UpsertStep(Numbering(db), id, record.task);
    if step.Ok? {
      UpsertPuts(Numbering(db), id, record.task);
      hide UpsertStep;
      assert Numbering(UpsertRecord(db, id, record).value).tasks == step.value.tasks;
    }
  }

  lemma UpsertPuts(db: TaskDb, id: string, record: Task)
    requires UpsertStep(db, id, record).Ok?
    ensures id in UpsertStep(db, id, record).value.tasks
    ensures UpsertStep(db, id, record).value.tasks == db.tasks[id := UpsertStep(db, id, record).value.tasks[id]]
  {
    hide Clashes;
  }

  /** The number of a task that already has one, here or without any repository. */
  lemma KeepsStoredNumber(db: TaskDb, id: string, record: Task, q: nat)
    requires Good(db) && id in db.tasks && db.tasks[id].sequence == Some(q)
    requires record.repoRoot.Some? && UsesSequence(record.source)
    requires db.tasks[id].repoRoot.None? || db.tasks[id].repoRoot == record.repoRoot
    ensures
      var step := UpsertStep(db, id, record);
      && (step.Ok? <==> !exists other :: other != id && Holds(db, other, record.repoRoot.value, q))
      && (step.Ok? ==> Holds(step.value, id, record.repoRoot.value, q))
  {
    assert ChooseSequence(db, id, record) == Ok((db, Some(q)));
    var advanced := Advance(db, record.repoRoot, Some(q));
    assert advanced.tasks == db.tasks;
    var task := Task(record.source, Some(q), record.repoRoot, db.tasks[id].createdAt);
    if other :| other != id && Holds(db, other, record.repoRoot.value, q) {
      assert other in advanced.tasks && advanced.tasks[other].sequence == task.sequence;
      assert Clashes(advanced, id, task);
    } else if Clashes(advanced, id, task) {
      var other :| other in advanced.tasks && other != id
        && advanced.tasks[other].repoRoot == task.repoRoot && advanced.tasks[other].sequence == task.sequence;
      assert Holds(db, other, record.repoRoot.value, q);
    }
  }

  /** An imported task keeps the number it has in the local repository; without one it
      takes the counter's, which no task of the repository holds; only a number stored
      without any repository can be refused, exactly when another task already holds it. */
  lemma ImportNumbers(db: RecordDb, report: Report, i: Import)
    requires Good(Numbering(db)) && !IsBlank(i.root) && Selected(report, i)
    ensures
      var before := Numbering(db);
      var existing := Find(db, report.id);
      var q := if existing.Some? then existing.value.task.sequence else None;
      var here := existing.Some? && existing.value.task.repoRoot == Some(i.root);
      var homeless := existing.Some? && existing.value.task.repoRoot.None?;
      var stored := SyncOne(db, report, i);
      var counter := CounterFor(before, i.root);
      if q.Some? && here then
        stored.Ok? && Holds(Numbering(stored.value), report.id, i.root, q.value)
      else if q.Some? && homeless then
        && (stored.Ok? <==> !exists other :: other != report.id && Holds(before, other, i.root, q.value))
        && (stored.Ok? ==> Holds(Numbering(stored.value), report.id, i.root, q.value))
      else
        && (stored.Ok? <==> counter < I64_MAX)
        && (stored.Ok? ==> Holds(Numbering(stored.value), report.id, i.root, counter)
                           && !Stored(before, i.root, counter))
    ensures SyncOne(db, report, i).Ok? ==> Good(Numbering(SyncOne(db, report, i).value))
  {
    hide SyncOne, UpsertStep, CounterFor;
    var before := Numbering(db);
    var task := ImportedTask(db, report, i);
    ImportIsUpsert(db, report, i);
    if SyncOne(db, report, i).Ok? {
      UpsertKeepsGood(before, report.id, task);
    }
    if Allocating(before, report.id, task) {
      AllocatingUpsertSucceeds(before, report.id, task);
      if CounterFor(before, i.root) < I64_MAX {
        CounterIsFree(before, i.root);
      }
    } else {
      var q := before.tasks[report.id].sequence.value;
      KeepsStoredNumber(before, report.id, task, q);
      if before.tasks[report.id].repoRoot == Some(i.root) {
        assert Holds(before, report.id, i.root, q);
      }
    }
  }

  lemma CounterIsFree(db: TaskDb, repo: string)
    requires Good(db) && !IsBlank(repo) && CounterFor(db, repo) < I64_MAX
    ensures CounterFor(db, repo) >= 0 && !Stored(db, repo, CounterFor(db, repo))
  {
    AllocateIsFresh(db, repo);
  }

  /** No task holds a number without a repository. */
  ghost predicate NoHomelessNumber(db: RecordDb) {
    forall id :: id in db.records && db.records[id].task.sequence.Some? ==> db.records[id].task.repoRoot.Some?
  }

  /** An import into a nonblank repository completes, whatever the reports are, as long as
      the counter has a number left for each of them and no number is homeless; it leaves
      the numbering as sound as it was. */
  lemma {:induction false} ImportCompletes(db: RecordDb, reports: seq<Report>, i: Import)
    requires Good(Numbering(db)) && NoHomelessNumber(db) && !IsBlank(i.root)
    requires CounterFor(Numbering(db), i.root) + |reports| <= I64_MAX
    ensures SyncAll(db, reports, i).1.Ok?
    ensures
      var after := SyncAll(db, reports, i).0;
      && Good(Numbering(after)) && NoHomelessNumber(after)
      && CounterFor(Numbering(after), i.root) <= CounterFor(Numbering(db), i.root) + |reports|
  {
    hide SyncOne, Good, NoHomelessNumber, Numbering, CounterFor, IsBlank;
    if reports != [] {
      var n := |reports| - 1;
      ImportCompletes(db, reports[..n], i);
      var next := SyncAll(db, reports[..n], i).0;
      if Selected(reports[n], i) {
        OneImportCompletes(next, reports[n], i);
      }
    }
  }

  lemma OneImportCompletes(db: RecordDb, report: Report, i: Import)
    requires Good(Numbering(db)) && NoHomelessNumber(db) && !IsBlank(i.root) && Selected(report, i)
    requires CounterFor(Numbering(db), i.root) < I64_MAX
    ensures SyncOne(db, report, i).Ok?
    ensures
      var after := SyncOne(db, report, i).value;
      && Good(Numbering(after)) && NoHomelessNumber(after)
      && CounterFor(Numbering(after), i.root) <= CounterFor(Numbering(db), i.root) + 1
  {
    ImportNumbers(db, report, i);
    ImportIsUpsert(db, report, i);
    ImportedRow(db, report, i);
    hide SyncOne, UpsertStep, Good, Canonical;
    ImportedCounter(Numbering(db), report.id, ImportedTask(db, report, i), i.root);
  }

  lemma ImportedRow(db: RecordDb, report: Report, i: Import)
    requires SyncOne(db, report, i).Ok?
    ensures
      var after := SyncOne(db, report, i).value;
      && after.records.Keys == db.records.Keys + {report.id}
      && after.records[report.id].task.repoRoot == Some(i.root)
      && forall id :: id in db.records && id != report.id ==> after.records[id] == db.records[id]
  {
    hide Canonical;
    assert Canonical(report.record, Find(db, report.id), i.root, report.now).task.repoRoot == Some(i.root) by {
      CanonicalRoot(report.record, Find(db, report.id), i.root, report.now);
    }
  }

  lemma CanonicalRoot(report: Record, existing: Option<Record>, root: string, now: nat)
    ensures Canonical(report, existing, root, now).task.repoRoot == Some(root)
  {
  }

  lemma ImportedCounter(db: TaskDb, id: string, record: Task, root: string)
    requires Good(db) && UpsertStep(db, id, record).Ok? && record.repoRoot == Some(root) && !IsBlank(root)
    requires CounterFor(db, root) < I64_MAX && UsesSequence(record.source)
    requires record.sequence.Some? ==> Holds(db, id, root, record.sequence.value)
    requires id in db.tasks && db.tasks[id].sequence.Some? ==> db.tasks[id].repoRoot.Some?
    ensures CounterFor(UpsertStep(db, id, record).value, root) <= CounterFor(db, root) + 1
  {
    var next := UpsertStep(db, id, record).value;
    if Allocating(db, id, record) {
      AllocatingUpsertSucceeds(db, id, record);
    } else {
      var q := db.tasks[id].sequence.value;
      assert Holds(db, id, root, q);
    }
  }
}
