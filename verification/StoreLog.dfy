/** The tables of documents and links, updated in place, are a function of the log of accepted saves. */
module StoreLog {
  import opened Wrappers
  import opened Text
  import opened StoreModel

  // ---------------------------------------------------------------- the log

  function EntriesOf(e: Event): seq<SaveEntry> {
    match e
    case Saved(entry) => [entry]
    case Resolved(_, entries) => entries
    case _ => []
  }

  /** Every accepted save of a run, in order, whether direct or inside a resolve. */
  function Log(events: seq<Event>): seq<SaveEntry> {
    if events == [] then [] else Log(events[..|events| - 1]) + EntriesOf(events[|events| - 1])
  }

  predicate OfFamily(e: SaveEntry, collection: string, family: string) {
    e.collection == collection && e.family == family
  }

  function Count(log: seq<SaveEntry>, collection: string, family: string): nat {
    if log == [] then 0
    else Count(log[..|log| - 1], collection, family) + if OfFamily(log[|log| - 1], collection, family) then 1 else 0
  }

  /** The version an entry created: its rank among the saves of its family. */
  function VersionAt(log: seq<SaveEntry>, i: nat): nat
    requires i < |log|
  {
    Count(log[..i], log[i].collection, log[i].family) + 1
  }

  predicate SavedActive(e: SaveEntry) {
    e.save.status == "active"
  }

  /** A later save of the same family went active. */
  predicate Overtaken(log: seq<SaveEntry>, i: nat)
    requires i < |log|
  {
    exists j :: i < j < |log| && OfFamily(log[j], log[i].collection, log[i].family) && SavedActive(log[j])
  }

  function StatusAt(log: seq<SaveEntry>, i: nat): Status
    requires i < |log|
  {
    if !SavedActive(log[i]) then Draft else if Overtaken(log, i) then Superseded else Active
  }

  function RowAt(log: seq<SaveEntry>, i: nat): DocRow
    requires i < |log|
  {
    NewRow(i + 1, log[i].collection, log[i].family, VersionAt(log, i), log[i].save).(status := StatusAt(log, i))
  }

  function Table(log: seq<SaveEntry>): (r: seq<DocRow>)
    ensures |r| == |log|
    ensures forall i :: 0 <= i < |log| ==> r[i] == RowAt(log, i)
  {
    seq(|log|, i requires 0 <= i < |log| => RowAt(log, i))
  }

  function LinkTable(log: seq<SaveEntry>): seq<LinkRow> {
    if log == [] then [] else LinkTable(log[..|log| - 1]) + LinkRows(|log|, log[|log| - 1].save.links)
  }

  predicate ValidEntry(cfg: Config, e: SaveEntry) {
    ValidIdent(e.collection) && ValidIdent(e.family) && e.collection in cfg.inRelease && ValidSave(e.save)
  }

  // ---------------------------------------------------------------- one save

  lemma {:induction false} TableMaxVersion(log: seq<SaveEntry>, collection: string, family: string)
    ensures MaxVersion(Table(log), collection, family) == Count(log, collection, family)
  {
    if log != [] {
      var shorter := log[..|log| - 1];
      TableMaxVersion(shorter, collection, family);
      MaxVersionIgnoresStatus(Table(log)[..|log| - 1], Table(shorter), collection, family) by {
        forall i | 0 <= i < |shorter| ensures VersionAt(log, i) == VersionAt(shorter, i) {
          assert log[..i] == shorter[..i];
        }
      }
    }
  }

  lemma {:induction false} MaxVersionIgnoresStatus(a: seq<DocRow>, b: seq<DocRow>, collection: string, family: string)
    requires |a| == |b|
    requires forall i :: 0 <= i < |a| ==> a[i] == b[i].(status := a[i].status)
    ensures MaxVersion(a, collection, family) == MaxVersion(b, collection, family)
  {
    if a != [] {
      MaxVersionIgnoresStatus(a[..|a| - 1], b[..|b| - 1], collection, family);
    }
  }

  lemma StatusAfterSave(log: seq<SaveEntry>, e: SaveEntry, i: nat)
    requires i < |log|
    ensures StatusAt(log + [e], i) ==
            if SavedActive(e) && OfFamily(e, log[i].collection, log[i].family) && StatusAt(log, i) == Active
            then Superseded else StatusAt(log, i)
  {
    var longer := log + [e];
    if Overtaken(log, i) {
      var j :| i < j < |log| && OfFamily(log[j], log[i].collection, log[i].family) && SavedActive(log[j]);
      assert longer[j] == log[j];
    } else if Overtaken(longer, i) {
      var j :| i < j < |longer| && OfFamily(longer[j], log[i].collection, log[i].family) && SavedActive(longer[j]);
      assert j == |log|;
    } else {
      assert longer[|log|] == e;
    }
  }

  /** The demote-then-insert of one accepted save is exactly one more log entry. */
  lemma TableAfterSave(log: seq<SaveEntry>, e: SaveEntry)
    ensures var docs := if SavedActive(e) then Demote(Table(log), e.collection, e.family) else Table(log);
      Table(log + [e]) ==
      docs + [NewRow(|log| + 1, e.collection, e.family, MaxVersion(Table(log), e.collection, e.family) + 1, e.save)]
  {
    hide MaxVersion, Demote, RowAt, NewRow, DemoteRow;
    var docs := if SavedActive(e) then Demote(Table(log), e.collection, e.family) else Table(log);
    var longer := log + [e];
    forall i | 0 <= i < |log| ensures RowAt(longer, i) == docs[i] {
      RowAfterSave(log, e, i);
    }
    LastRow(log, e);
  }

  lemma LastRow(log: seq<SaveEntry>, e: SaveEntry)
    ensures RowAt(log + [e], |log|) ==
            NewRow(|log| + 1, e.collection, e.family, MaxVersion(Table(log), e.collection, e.family) + 1, e.save)
  {
    hide MaxVersion, Join;
    TableMaxVersion(log, e.collection, e.family);
    assert (log + [e])[..|log|] == log;
  }

  lemma RowAfterSave(log: seq<SaveEntry>, e: SaveEntry, i: nat)
    requires i < |log|
    ensures RowAt(log + [e], i) ==
            if SavedActive(e) then DemoteRow(RowAt(log, i), e.collection, e.family) else RowAt(log, i)
  {
    StatusAfterSave(log, e, i);
    assert (log + [e])[..i] == log[..i];
  }

  lemma LinkTableSnoc(log: seq<SaveEntry>, e: SaveEntry)
    ensures LinkTable(log + [e]) == LinkTable(log) + LinkRows(|log| + 1, e.save.links)
  {
    assert (log + [e])[..|log|] == log;
  }

  lemma SaveTxRefinesLog(cfg: Config, db: Db, log: seq<SaveEntry>, e: SaveEntry)
    requires db.docs == Table(log) && db.links == LinkTable(log)
    requires SaveTx(cfg, db, e.collection, e.family, e.save).result.Ok?
    ensures var after := SaveTx(cfg, db, e.collection, e.family, e.save).db;
      after.docs == Table(log + [e]) && after.links == LinkTable(log + [e])
  {
    hide MaxVersion, Demote, NewRow, LinkRows, LinkTable, RowAt, TargetsItself;
    TableAfterSave(log, e);
    LinkTableSnoc(log, e);
  }

  // ---------------------------------------------------------------- runs

  lemma LogSnoc(events: seq<Event>, e: Event)
    ensures Log(events + [e]) == Log(events) + EntriesOf(e)
  {
    assert (events + [e])[..|events|] == events;
  }

  predicate Refines(cfg: Config, db: Db, log: seq<SaveEntry>) {
    && db.docs == Table(log) && db.links == LinkTable(log)
    && forall i :: 0 <= i < |log| ==> ValidEntry(cfg, log[i])
  }

  /** The family of every conflict row is a valid identifier pair. */
  predicate ConflictIdents(rows: seq<ConflictRow>) {
    forall i :: 0 <= i < |rows| ==> ValidIdent(rows[i].collection) && ValidIdent(rows[i].family)
  }

  /** What an operation does to documents and links: nothing, or one save transaction. */
  lemma StepOnDocs(cfg: Config, db: Db, op: Op)
    requires ConflictIdents(db.conflicts)
    ensures var (after, event) := Step(cfg, db, op); var entries := EntriesOf(event);
      && (entries == [] ==> after.docs == db.docs && after.links == db.links)
      && (entries != [] ==>
            |entries| == 1 && ValidEntry(cfg, entries[0])
            && var o := SaveTx(cfg, db, entries[0].collection, entries[0].family, entries[0].save);
               o.result.Ok? && o.db.docs == after.docs && o.db.links == after.links)
  {
    hide Candidate, ClearPolicies, CandidateHash, MaxVersion, TrimSpace, PairLess, ManifestDocs, MemberRows, Demote, NewRow, LinkRows, OpenAt;
  }

  lemma StepRefines(cfg: Config, db: Db, log: seq<SaveEntry>, op: Op)
    requires Refines(cfg, db, log) && ConflictIdents(db.conflicts)
    ensures var (after, event) := Step(cfg, db, op); Refines(cfg, after, log + EntriesOf(event))
  {
    hide Step, SaveTx, Table, LinkTable, ValidEntry, ConflictIdents;
    var entries := EntriesOf(Step(cfg, db, op).1);
    StepOnDocs(cfg, db, op);
    if entries == [] {
      assert log + entries == log;
    } else {
      SaveTxRefinesLog(cfg, db, log, entries[0]);
      assert entries == [entries[0]];
    }
  }

  lemma CutKeepsConflictIdents(cfg: Config, db: Db, expected: string, editor: string)
    requires ConflictIdents(db.conflicts)
    requires forall i :: 0 <= i < |db.docs| ==> ValidIdent(db.docs[i].collection) && ValidIdent(db.docs[i].family)
    ensures ConflictIdents(Cut(cfg, db, expected, editor).db.conflicts)
  {
    var candidate := Candidate(cfg, db);
    if candidate.Err? && candidate.error.Lint? {
      LintNamesDocument(cfg, db);
    }
  }

  lemma StepKeepsConflictIdents(cfg: Config, db: Db, log: seq<SaveEntry>, op: Op)
    requires Refines(cfg, db, log) && ConflictIdents(db.conflicts)
    ensures ConflictIdents(Step(cfg, db, op).0.conflicts)
  {
    hide Cut, Save, Resolve, ValidIdent, Table, LinkTable, TrimSpace;
    if op.CutRelease? {
      forall i | 0 <= i < |db.docs| ensures ValidIdent(db.docs[i].collection) && ValidIdent(db.docs[i].family) {
        assert ValidEntry(cfg, log[i]);
      }
      CutKeepsConflictIdents(cfg, db, op.expectedHash, op.editor);
    } else if op.SaveDoc? {
      SaveKeepsConflictIdents(cfg, db, op.collection, op.family, op.save);
    } else if op.ResolveConflict? {
      ResolveKeepsConflictIdents(cfg, db, op.id, op.resolution, op.expectedAttempts, op.saved, op.who);
    }
  }

  lemma SaveKeepsConflictIdents(cfg: Config, db: Db, collection: string, family: string, s: DocSave)
    requires ConflictIdents(db.conflicts)
    ensures ConflictIdents(Save(cfg, db, collection, family, s).db.conflicts)
  {
    if s.base.Some? { var _ := RecordStale(db, collection, family, s); }
  }

  lemma ResolveKeepsConflictIdents(cfg: Config, db: Db, id: int, resolution: string, expectedAttempts: int,
                                   save: Option<DocSave>, who: string)
    requires ConflictIdents(db.conflicts)
    ensures ConflictIdents(Resolve(cfg, db, id, resolution, expectedAttempts, save, who).db.conflicts)
  {
    hide TrimSpace;
  }

  lemma {:induction false} SelectedRowsAreDocs(cfg: Config, docs: seq<DocRow>)
    ensures forall d :: d in SelectedRows(cfg, docs) <==> d in docs && Selected(cfg, d)
  {
    if docs != [] {
      SelectedRowsAreDocs(cfg, docs[..|docs| - 1]);
      assert docs == docs[..|docs| - 1] + [docs[|docs| - 1]];
    }
  }

  lemma {:induction false} InsertKeepsRows(d: DocRow, sorted: seq<DocRow>)
    ensures multiset(Insert(d, sorted)) == multiset(sorted) + multiset{d}
    ensures |Insert(d, sorted)| == |sorted| + 1
  {
    if sorted != [] {
      InsertKeepsRows(d, sorted[1..]);
      assert sorted == [sorted[0]] + sorted[1..];
    }
  }

  lemma {:induction false} SortKeepsRows(rows: seq<DocRow>)
    ensures multiset(Sort(rows)) == multiset(rows) && |Sort(rows)| == |rows|
  {
    if rows != [] {
      SortKeepsRows(rows[..|rows| - 1]);
      InsertKeepsRows(rows[|rows| - 1], Sort(rows[..|rows| - 1]));
      assert rows == rows[..|rows| - 1] + [rows[|rows| - 1]];
    }
  }

  /** The candidate holds exactly the active rows of release-bearing collections. */
  lemma CandidateRowsAreSelected(cfg: Config, docs: seq<DocRow>)
    ensures forall d :: d in CandidateRows(cfg, docs) <==> d in docs && Selected(cfg, d)
  {
    SelectedRowsAreDocs(cfg, docs);
    var rows := SelectedRows(cfg, docs);
    SortKeepsRows(rows);
    forall d ensures d in Sort(rows) <==> d in rows {
      assert d in Sort(rows) <==> d in multiset(Sort(rows));
    }
  }

  /** That is: status active, in a collection marked for release. */
  lemma CandidateHoldsActiveRows(cfg: Config, docs: seq<DocRow>, d: DocRow)
    ensures d in CandidateRows(cfg, docs) <==>
            d in docs && d.status == Active && d.collection in cfg.inRelease && cfg.inRelease[d.collection]
    ensures |CandidateRows(cfg, docs)| <= |docs|
  {
    CandidateRowsAreSelected(cfg, docs);
    SortKeepsRows(SelectedRows(cfg, docs));
    SelectedRowsAreFewer(cfg, docs);
  }

  lemma {:induction false} SelectedRowsAreFewer(cfg: Config, docs: seq<DocRow>)
    ensures |SelectedRows(cfg, docs)| <= |docs|
  {
    if docs != [] { SelectedRowsAreFewer(cfg, docs[..|docs| - 1]); }
  }

  lemma {:induction false} FirstLintNamesRow(cfg: Config, db: Db, rows: seq<DocRow>)
    ensures FirstKernelLint(rows).Some? ==> exists d :: d in rows && FirstKernelLint(rows).value == LintOf(d, FirstKernelLint(rows).value.reason)
    ensures FirstLinkLint(cfg, db, rows).Some? ==> exists d :: d in rows && FirstLinkLint(cfg, db, rows).value == LintOf(d, FirstLinkLint(cfg, db, rows).value.reason)
  {
    if rows != [] {
      FirstLintNamesRow(cfg, db, rows[1..]);
    }
  }

  lemma LintNamesDocument(cfg: Config, db: Db)
    requires Candidate(cfg, db).Err? && Candidate(cfg, db).error.Lint?
    ensures var lint := Candidate(cfg, db).error.lint;
      exists i :: 0 <= i < |db.docs| && db.docs[i].collection == lint.collection && db.docs[i].family == lint.family
                  && db.docs[i].version == lint.version
  {
    FirstLintNamesRow(cfg, db, CandidateRows(cfg, db.docs));
    CandidateRowsAreSelected(cfg, db.docs);
  }

  /** Over every run: the document and link tables are the ones the log of accepted saves spells out. */
  lemma {:induction false} TablesRefineLog(cfg: Config, ops: seq<Op>)
    ensures var run := Exec(cfg, ops);
      Refines(cfg, run.db, Log(run.events)) && ConflictIdents(run.db.conflicts)
  {
    if ops != [] {
      var before := Exec(cfg, ops[..|ops| - 1]);
      TablesRefineLog(cfg, ops[..|ops| - 1]);
      StepRefines(cfg, before.db, Log(before.events), ops[|ops| - 1]);
      StepKeepsConflictIdents(cfg, before.db, Log(before.events), ops[|ops| - 1]);
      LogSnoc(before.events, Step(cfg, before.db, ops[|ops| - 1]).1);
    }
  }
}
