/** The conflict ledger: append-only, one open row per kind and family, attempts conserved. */
module StoreLedger {
  import opened Wrappers
  import opened Text
  import opened StoreModel
  import opened StoreLog

  // ---------------------------------------------------------------- what a row may become

  predicate SameSubject(r: ConflictRow, s: ConflictRow) {
    && s.id == r.id && s.kind == r.kind && s.collection == r.collection && s.family == r.family
    && s.otherCollection == r.otherCollection && s.otherFamily == r.otherFamily
  }

  predicate SameAttempt(r: ConflictRow, s: ConflictRow) {
    && s.base == r.base && s.theirVersion == r.theirVersion && s.attempted == r.attempted
    && s.detail == r.detail && s.openedBy == r.openedBy
  }

  predicate SameResolution(r: ConflictRow, s: ConflictRow) {
    s.resolvedBy == r.resolvedBy && s.resolution == r.resolution && s.winningVersion == r.winningVersion
  }

  /** `r` may later read as `s`. Resolved rows never change, and a row's attempt-scoped fields change
      only together with its attempts counter. */
  predicate RowEvolves(r: ConflictRow, s: ConflictRow) {
    && SameSubject(r, s) && r.attempts <= s.attempts
    && (r.resolved ==> s == r)
    && (r.attempts == s.attempts ==> SameAttempt(r, s))
    && (!s.resolved ==> SameResolution(r, s))
    && (r.kind == Claim ==> r.attempts == s.attempts)
  }

  predicate Grows(a: seq<ConflictRow>, b: seq<ConflictRow>) {
    |a| <= |b| && forall i :: 0 <= i < |a| ==> RowEvolves(a[i], b[i])
  }

  lemma GrowsTransitive(a: seq<ConflictRow>, b: seq<ConflictRow>, c: seq<ConflictRow>)
    requires Grows(a, b) && Grows(b, c)
    ensures Grows(a, c)
  {
    forall i | 0 <= i < |a| ensures RowEvolves(a[i], c[i]) {
      assert RowEvolves(a[i], b[i]) && RowEvolves(b[i], c[i]);
    }
  }

  // ---------------------------------------------------------------- counting

  function Attempts(rows: seq<ConflictRow>, kind: Kind): nat {
    if rows == [] then 0
    else
      var r := rows[|rows| - 1];
      Attempts(rows[..|rows| - 1], kind) + if r.kind == kind then r.attempts else 0
  }

  /** How many events of a run recorded an attempt of this kind. */
  function Recordings(events: seq<Event>, kind: Kind): nat {
    if events == [] then 0
    else Recordings(events[..|events| - 1], kind) + if Records(events[|events| - 1], kind) then 1 else 0
  }

  predicate Records(e: Event, kind: Kind) {
    match kind
    case Edit => e.StaleRecorded?
    case Policy => e.LintRecorded?
    case Claim => e.Flagged?
  }

  lemma RecordingsSnoc(events: seq<Event>, e: Event, kind: Kind)
    ensures Recordings(events + [e], kind) == Recordings(events, kind) + if Records(e, kind) then 1 else 0
  {
    assert (events + [e])[..|events|] == events;
  }

  lemma AttemptsSnoc(rows: seq<ConflictRow>, r: ConflictRow, kind: Kind)
    ensures Attempts(rows + [r], kind) == Attempts(rows, kind) + if r.kind == kind then r.attempts else 0
  {
    assert (rows + [r])[..|rows|] == rows;
  }

  lemma {:induction false} AttemptsReplace(rows: seq<ConflictRow>, i: nat, r: ConflictRow, kind: Kind)
    requires i < |rows| && r.kind == rows[i].kind
    ensures Attempts(rows[i := r], kind) ==
            Attempts(rows, kind) + if r.kind == kind then r.attempts - rows[i].attempts else 0
  {
    var n := |rows| - 1;
    if i < n {
      AttemptsReplace(rows[..n], i, r, kind);
      assert rows[i := r][..n] == rows[..n][i := r];
    } else {
      assert rows[i := r][..n] == rows[..n];
    }
  }

  lemma {:induction false} AttemptsDependOnCounts(a: seq<ConflictRow>, b: seq<ConflictRow>, kind: Kind)
    requires |a| == |b|
    requires forall i :: 0 <= i < |a| ==> a[i].kind == b[i].kind && a[i].attempts == b[i].attempts
    ensures Attempts(a, kind) == Attempts(b, kind)
  {
    if a != [] { AttemptsDependOnCounts(a[..|a| - 1], b[..|b| - 1], kind); }
  }

  // ---------------------------------------------------------------- shape of the ledger

  /** An open row says nothing of a resolution; only a claim has a second document. */
  predicate Plain(r: ConflictRow) {
    && (!r.resolved ==> r.resolvedBy == "" && r.resolution == "" && r.winningVersion == 0)
    && (r.kind != Claim ==> r.otherCollection == "" && r.otherFamily == "")
  }

  /** Ids are positions, counters start at one, claims stay at one, open rows are plain, and no kind has
      two open rows for one family. */
  predicate WellFormed(rows: seq<ConflictRow>) {
    && (forall i :: 0 <= i < |rows| ==> Plain(rows[i]))
    && (forall i :: 0 <= i < |rows| ==> rows[i].id == i + 1 && rows[i].attempts >= 1)
    && (forall i :: 0 <= i < |rows| && rows[i].kind == Claim ==> rows[i].attempts == 1)
    && (forall i, j :: 0 <= i < j < |rows| ==> !BothOpen(rows[i], rows[j]))
  }

  predicate BothOpen(r: ConflictRow, s: ConflictRow) {
    r.kind == s.kind && r.collection == s.collection && r.family == s.family && !r.resolved && !s.resolved
  }

  /** How one operation may rewrite the ledger. */
  predicate Appends(a: seq<ConflictRow>, b: seq<ConflictRow>, r: ConflictRow) {
    b == a + [r] && r.id == |a| + 1 && r.attempts == 1 && Plain(r) && OpenAt(a, r.kind, r.collection, r.family).None?
  }

  predicate Rewrites(a: seq<ConflictRow>, b: seq<ConflictRow>, i: nat, r: ConflictRow) {
    i < |a| && b == a[i := r] && RowEvolves(a[i], r)
  }

  lemma AppendKeepsLedger(a: seq<ConflictRow>, b: seq<ConflictRow>, r: ConflictRow, kind: Kind)
    requires WellFormed(a) && Appends(a, b, r)
    ensures WellFormed(b) && Grows(a, b)
    ensures Attempts(b, kind) == Attempts(a, kind) + if r.kind == kind then 1 else 0
  {
    AttemptsSnoc(a, r, kind);
    hide Attempts;
    assert forall i :: 0 <= i < |a| ==> b[i] == a[i];
    forall i | 0 <= i < |a| ensures !BothOpen(a[i], r) && RowEvolves(a[i], a[i]) {
      assert !IsOpenFor(a[i], r.kind, r.collection, r.family);
    }
  }

  lemma RewriteKeepsLedger(a: seq<ConflictRow>, b: seq<ConflictRow>, i: nat, r: ConflictRow, kind: Kind)
    requires WellFormed(a) && Rewrites(a, b, i, r)
    ensures WellFormed(b) && Grows(a, b)
    ensures Attempts(b, kind) == Attempts(a, kind) + if r.kind == kind then r.attempts - a[i].attempts else 0
  {
    AttemptsReplace(a, i, r, kind);
    forall j, k | 0 <= j < k < |b| ensures !BothOpen(b[j], b[k]) {
      assert !BothOpen(a[j], a[k]);
    }
  }

  lemma ClearKeepsLedger(rows: seq<ConflictRow>, m: Manifest, editor: string)
    requires WellFormed(rows)
    ensures WellFormed(ClearPolicies(rows, m, editor)) && Grows(rows, ClearPolicies(rows, m, editor))
    ensures forall kind :: Attempts(ClearPolicies(rows, m, editor), kind) == Attempts(rows, kind)
  {
    var after := ClearPolicies(rows, m, editor);
    forall j, k | 0 <= j < k < |after| ensures !BothOpen(after[j], after[k]) {
      assert !BothOpen(rows[j], rows[k]);
    }
    forall kind ensures Attempts(after, kind) == Attempts(rows, kind) {
      AttemptsDependOnCounts(after, rows, kind);
    }
  }

  // ---------------------------------------------------------------- one operation

  datatype Change =
    | Same
    | Append(row: ConflictRow)
    | Rewrite(at: nat, row: ConflictRow)
    | Clear(manifest: Manifest, editor: string)

  predicate Counted(e: Event) {
    e.StaleRecorded? || e.LintRecorded? || e.Flagged?
  }

  /** How one operation may rewrite the ledger, and which counter its event moves. */
  predicate Makes(a: seq<ConflictRow>, b: seq<ConflictRow>, e: Event, change: Change) {
    match change
    case Same => b == a && !Counted(e)
    case Append(r) => Appends(a, b, r) && Records(e, r.kind)
    case Rewrite(i, r) =>
      && Rewrites(a, b, i, r)
      && if Counted(e) then r.attempts == a[i].attempts + 1 && Records(e, r.kind) else r.attempts == a[i].attempts
    case Clear(m, editor) => b == ClearPolicies(a, m, editor) && !Counted(e)
  }

  lemma SaveOnLedger(cfg: Config, db: Db, c: string, f: string, s: DocSave) returns (change: Change)
    requires WellFormed(db.conflicts)
    ensures var (after, e) := Step(cfg, db, SaveDoc(c, f, s)); Makes(db.conflicts, after.conflicts, e, change)
  {
    hide ValidSave, ValidIdent, MaxVersion, Demote, NewRow, LinkRows, TargetsItself;
    var (after, e) := Step(cfg, db, SaveDoc(c, f, s));
    change := Same;
    if e.StaleRecorded? {
      match OpenAt(db.conflicts, Edit, c, f)
      case Some(i) => change := Rewrite(i, after.conflicts[i]);
      case None => change := Append(after.conflicts[|db.conflicts|]);
    }
  }

  lemma CutOnLedger(cfg: Config, db: Db, expected: string, editor: string) returns (change: Change)
    requires WellFormed(db.conflicts)
    ensures var (after, e) := Step(cfg, db, CutRelease(expected, editor)); Makes(db.conflicts, after.conflicts, e, change)
  {
    hide CandidateRows, FirstKernelLint, FirstLinkLint, CandidateHash, ManifestDocs, MemberRows, WinningVersion;
    var (after, e) := Step(cfg, db, CutRelease(expected, editor));
    change := Same;
    if e.LintRecorded? {
      match OpenAt(db.conflicts, Policy, e.lint.collection, e.lint.family)
      case Some(i) => change := Rewrite(i, after.conflicts[i]);
      case None => change := Append(after.conflicts[|db.conflicts|]);
    } else if e.Published? {
      change := Clear(e.manifest, editor);
    }
  }

  lemma FlagOnLedger(cfg: Config, db: Db, op: Op) returns (change: Change)
    requires WellFormed(db.conflicts) && op.FlagClaim?
    ensures var (after, e) := Step(cfg, db, op); Makes(db.conflicts, after.conflicts, e, change)
  {
    hide TrimSpace;
    var (after, e) := Step(cfg, db, op);
    change := if e.Flagged? then Append(after.conflicts[|db.conflicts|]) else Same;
  }

  lemma ResolveOnLedger(cfg: Config, db: Db, op: Op) returns (change: Change)
    requires WellFormed(db.conflicts) && op.ResolveConflict?
    ensures var (after, e) := Step(cfg, db, op); Makes(db.conflicts, after.conflicts, e, change)
  {
    hide TrimSpace, ValidSave, MaxVersion, Demote, NewRow, LinkRows, TargetsItself;
    var (after, e) := Step(cfg, db, op);
    change := if e.Resolved? then Rewrite(op.id - 1, after.conflicts[op.id - 1]) else Same;
  }

  lemma StepOnLedger(cfg: Config, db: Db, op: Op) returns (change: Change)
    requires WellFormed(db.conflicts)
    ensures var (after, e) := Step(cfg, db, op); Makes(db.conflicts, after.conflicts, e, change)
  {
    match op
    case SaveDoc(c, f, s) => change := SaveOnLedger(cfg, db, c, f, s);
    case CutRelease(expected, editor) => change := CutOnLedger(cfg, db, expected, editor);
    case FlagClaim(_, _, _, _, _, _) => change := FlagOnLedger(cfg, db, op);
    case ResolveConflict(_, _, _, _, _) => change := ResolveOnLedger(cfg, db, op);
    case _ => change := Same;
  }

  lemma ChangeKeepsLedger(a: seq<ConflictRow>, b: seq<ConflictRow>, e: Event, change: Change, kind: Kind)
    requires WellFormed(a) && Makes(a, b, e, change)
    ensures WellFormed(b) && Grows(a, b)
    ensures Attempts(b, kind) == Attempts(a, kind) + if Records(e, kind) then 1 else 0
  {
    match change
    case Same =>
    case Append(r) => AppendKeepsLedger(a, b, r, kind);
    case Rewrite(i, r) => RewriteKeepsLedger(a, b, i, r, kind);
    case Clear(m, editor) => ClearKeepsLedger(a, m, editor);
  }

  lemma StepKeepsLedger(cfg: Config, db: Db, op: Op, kind: Kind)
    requires WellFormed(db.conflicts)
    ensures var (after, e) := Step(cfg, db, op);
      && WellFormed(after.conflicts) && Grows(db.conflicts, after.conflicts)
      && Attempts(after.conflicts, kind) == Attempts(db.conflicts, kind) + if Records(e, kind) then 1 else 0
  {
    var (after, e) := Step(cfg, db, op);
    var change := StepOnLedger(cfg, db, op);
    ChangeKeepsLedger(db.conflicts, after.conflicts, e, change, kind);
  }

  // ---------------------------------------------------------------- runs

  lemma {:induction false} LedgerShape(cfg: Config, ops: seq<Op>)
    ensures WellFormed(Exec(cfg, ops).db.conflicts)
  {
    if ops != [] {
      var before := Exec(cfg, ops[..|ops| - 1]);
      LedgerShape(cfg, ops[..|ops| - 1]);
      StepKeepsLedger(cfg, before.db, ops[|ops| - 1], Edit);
    }
  }

  /** Conservation: in every run the attempts counters of each kind add up to the recordings of that
      kind (stale saves, lint-failed cuts, claims flagged), and no two rows of one kind are open for
      one family. */
  lemma {:induction false} AttemptsAreConserved(cfg: Config, ops: seq<Op>, kind: Kind)
    ensures var run := Exec(cfg, ops);
      WellFormed(run.db.conflicts) && Attempts(run.db.conflicts, kind) == Recordings(run.events, kind)
  {
    LedgerShape(cfg, ops);
    if ops != [] {
      var before := Exec(cfg, ops[..|ops| - 1]);
      AttemptsAreConserved(cfg, ops[..|ops| - 1], kind);
      StepKeepsLedger(cfg, before.db, ops[|ops| - 1], kind);
      RecordingsSnoc(before.events, Step(cfg, before.db, ops[|ops| - 1]).1, kind);
    }
  }

  /** Append-only: whatever runs later, rows keep their place and evolve only as `RowEvolves` allows;
      in particular a resolved row stays as it is. */
  lemma {:induction false} LedgerOnlyGrows(cfg: Config, ops: seq<Op>, more: seq<Op>)
    ensures Grows(Exec(cfg, ops).db.conflicts, Exec(cfg, ops + more).db.conflicts)
  {
    if more == [] {
      assert ops + more == ops;
    } else {
      var shorter := more[..|more| - 1];
      LedgerOnlyGrows(cfg, ops, shorter);
      assert ops + more == ops + shorter + [more[|more| - 1]];
      LedgerGrowsByStep(cfg, ops + shorter, more[|more| - 1]);
      GrowsTransitive(Exec(cfg, ops).db.conflicts, Exec(cfg, ops + shorter).db.conflicts,
                      Exec(cfg, ops + more).db.conflicts);
    }
  }

  lemma LedgerGrowsByStep(cfg: Config, ops: seq<Op>, op: Op)
    ensures Grows(Exec(cfg, ops).db.conflicts, Exec(cfg, ops + [op]).db.conflicts)
  {
    LedgerShape(cfg, ops);
    ExecSnoc(cfg, ops, op);
    StepKeepsLedger(cfg, Exec(cfg, ops).db, op, Edit);
  }

  // ---------------------------------------------------------------- what a row tells

  /** The event is an attempt of this row's kind on this row's family. */
  predicate About(e: Event, r: ConflictRow) {
    match r.kind
    case Edit => e.StaleRecorded? && OfFamily(e.entry, r.collection, r.family)
    case Policy => e.LintRecorded? && e.lint.collection == r.collection && e.lint.family == r.family
    case Claim => e.Flagged? && e.row == r.id
  }

  /** The row shows this event: a stale save whole, with a base that is not the version it lost to; or a
      lint with its version and reason. */
  predicate Shows(r: ConflictRow, e: Event) {
    && About(e, r)
    && match r.kind
       case Edit =>
         && r.attempted == Some(e.entry.save) && r.theirVersion == e.current && e.entry.save.base == Some(r.base)
         && r.base != r.theirVersion && r.detail == StaleSave(r.base, r.theirVersion) && r.openedBy == e.entry.save.editor
       case Policy => r.attempted.None? && r.base == 0 && r.theirVersion == e.lint.version && r.detail == LintDetail(e.lint.reason)
       case Claim => r.attempted.None? && r.detail.Note?
  }

  /** The row shows an event of the run; while the row is open, the latest that is about it. */
  ghost predicate RowTells(events: seq<Event>, r: ConflictRow) {
    exists k :: 0 <= k < |events| && Shows(r, events[k]) && (!r.resolved ==> forall j :: k < j < |events| ==> !About(events[j], r))
  }

  ghost predicate RowsTell(events: seq<Event>, rows: seq<ConflictRow>) {
    forall i :: 0 <= i < |rows| ==> RowTells(events, rows[i])
  }

  /** Row `i` after an operation: what it was, the event not being about it while it is open; or showing
      the event. */
  predicate RowFollows(a: seq<ConflictRow>, b: seq<ConflictRow>, e: Event, i: nat)
    requires i < |b|
  {
    || Shows(b[i], e)
    || (i < |a| && SameSubject(a[i], b[i]) && SameAttempt(a[i], b[i]) && (!b[i].resolved ==> !a[i].resolved && !About(e, b[i])))
  }

  lemma RowStillTells(events: seq<Event>, a: seq<ConflictRow>, b: seq<ConflictRow>, e: Event, i: nat)
    requires i < |b| && RowFollows(a, b, e, i)
    requires RowsTell(events, a)
    ensures RowTells(events + [e], b[i])
  {
    var after := events + [e];
    if Shows(b[i], e) {
      assert after[|events|] == e;
    } else {
      var k :| 0 <= k < |events| && Shows(a[i], events[k]) && (!a[i].resolved ==> forall j :: k < j < |events| ==> !About(events[j], a[i]));
      assert Shows(b[i], after[k]);
      forall j | k < j < |after| && !b[i].resolved ensures !About(after[j], b[i]) {
        if j < |events| { assert !About(events[j], a[i]); }
      }
    }
  }

  lemma SaveFollows(cfg: Config, db: Db, c: string, f: string, s: DocSave)
    requires WellFormed(db.conflicts)
    ensures var (after, e) := Step(cfg, db, SaveDoc(c, f, s));
      forall i :: 0 <= i < |after.conflicts| ==> RowFollows(db.conflicts, after.conflicts, e, i)
  {
    hide ValidSave, ValidIdent, MaxVersion, Demote, NewRow, LinkRows, TargetsItself;
    var (after, e) := Step(cfg, db, SaveDoc(c, f, s));
    if e.StaleRecorded? {
      var at := OpenAt(db.conflicts, Edit, c, f);
      forall i | 0 <= i < |db.conflicts| && at != Some(i) ensures !db.conflicts[i].resolved ==> !About(e, db.conflicts[i]) {
        if at.Some? {
          OnlyOneOpen(db.conflicts, i, at.value);
        } else {
          assert !IsOpenFor(db.conflicts[i], Edit, c, f);
        }
      }
    }
  }

  lemma OnlyOneOpen(rows: seq<ConflictRow>, i: nat, j: nat)
    requires WellFormed(rows) && i < |rows| && j < |rows| && i != j
    ensures !BothOpen(rows[i], rows[j])
  {
    assert if i < j then !BothOpen(rows[i], rows[j]) else !BothOpen(rows[j], rows[i]);
  }

  /** Policy rows are opened with base 0 and without a payload, and keep them. */
  predicate PlainPolicies(rows: seq<ConflictRow>) {
    forall i :: 0 <= i < |rows| && rows[i].kind == Policy ==> rows[i].attempted.None? && rows[i].base == 0
  }

  lemma CutFollows(cfg: Config, db: Db, expected: string, editor: string)
    requires WellFormed(db.conflicts) && PlainPolicies(db.conflicts)
    ensures var (after, e) := Step(cfg, db, CutRelease(expected, editor));
      forall i :: 0 <= i < |after.conflicts| ==> RowFollows(db.conflicts, after.conflicts, e, i)
  {
    hide CandidateRows, FirstKernelLint, FirstLinkLint, CandidateHash, ManifestDocs, MemberRows, WinningVersion;
    var (after, e) := Step(cfg, db, CutRelease(expected, editor));
    if e.LintRecorded? {
      var at := OpenAt(db.conflicts, Policy, e.lint.collection, e.lint.family);
      forall i | 0 <= i < |db.conflicts| && at != Some(i) ensures !db.conflicts[i].resolved ==> !About(e, db.conflicts[i]) {
        if at.Some? {
          OnlyOneOpen(db.conflicts, i, at.value);
        } else {
          assert !IsOpenFor(db.conflicts[i], Policy, e.lint.collection, e.lint.family);
        }
      }
    }
  }

  lemma FlagFollows(cfg: Config, db: Db, op: Op)
    requires WellFormed(db.conflicts) && op.FlagClaim?
    ensures var (after, e) := Step(cfg, db, op);
      forall i :: 0 <= i < |after.conflicts| ==> RowFollows(db.conflicts, after.conflicts, e, i)
  {
    hide TrimSpace, MaxVersion, ValidIdent, OpenAt, PairLess;
  }

  lemma ResolveFollows(cfg: Config, db: Db, op: Op)
    requires WellFormed(db.conflicts) && op.ResolveConflict?
    ensures var (after, e) := Step(cfg, db, op);
      forall i :: 0 <= i < |after.conflicts| ==> RowFollows(db.conflicts, after.conflicts, e, i)
  {
    hide TrimSpace, ValidSave, MaxVersion, Demote, NewRow, LinkRows, TargetsItself, ValidIdent;
  }

  lemma OtherFollows(cfg: Config, db: Db, op: Op)
    requires WellFormed(db.conflicts) && !op.SaveDoc? && !op.CutRelease?
    ensures var (after, e) := Step(cfg, db, op);
      forall i :: 0 <= i < |after.conflicts| ==> RowFollows(db.conflicts, after.conflicts, e, i)
  {
    hide Flag, Resolve, ValidIdent;
    match op
    case FlagClaim(_, _, _, _, _, _) => FlagFollows(cfg, db, op);
    case ResolveConflict(_, _, _, _, _) => ResolveFollows(cfg, db, op);
    case _ =>
  }

  lemma RowsArePlain(events: seq<Event>, rows: seq<ConflictRow>)
    requires RowsTell(events, rows)
    ensures PlainPolicies(rows)
  {
    forall i | 0 <= i < |rows| && rows[i].kind == Policy ensures rows[i].attempted.None? && rows[i].base == 0 {
      assert RowTells(events, rows[i]);
    }
  }

  /** In every run every row of the ledger shows a recorded attempt, and an open row the latest one on
      its family: an edit row carries that stale save whole, with a base that differs from the version
      it lost to; a policy row the version and reason of that lint. */
  lemma {:induction false} RowsTellLatest(cfg: Config, ops: seq<Op>)
    ensures RowsTell(Exec(cfg, ops).events, Exec(cfg, ops).db.conflicts)
  {
    hide Step, RowTells, RowFollows, WellFormed;
    if ops != [] {
      var init, op := ops[..|ops| - 1], ops[|ops| - 1];
      var before := Exec(cfg, init);
      var (after, e) := Step(cfg, before.db, op);
      RowsTellLatest(cfg, init);
      LedgerShape(cfg, init);
      RowsArePlain(before.events, before.db.conflicts);
      if op.SaveDoc? { SaveFollows(cfg, before.db, op.collection, op.family, op.save); }
      else if op.CutRelease? { CutFollows(cfg, before.db, op.expectedHash, op.editor); }
      else { OtherFollows(cfg, before.db, op); }
      forall i | 0 <= i < |after.conflicts| ensures RowTells(before.events + [e], after.conflicts[i]) {
        RowStillTells(before.events, before.db.conflicts, after.conflicts, e, i);
      }
    }
  }

  // ---------------------------------------------------------------- resolving

  /** ABA-free: a client read row `id` after `ops`; a resolve guarded by the attempts it read that
      succeeds after `more` finds that very row, payload, base and detail included, and only adds the
      resolution to it. With a save, the winning version is the version that save creates: the new
      maximum of the row's family. */
  lemma ResolveSeesWhatClientRead(cfg: Config, ops: seq<Op>, more: seq<Op>, id: int, resolution: string,
                                  save: Option<DocSave>, who: string)
    requires 1 <= id <= |Exec(cfg, ops).db.conflicts|
    requires var seen := Exec(cfg, ops).db.conflicts[id - 1];
      Resolve(cfg, Exec(cfg, ops + more).db, id, resolution, seen.attempts, save, who).result.Ok?
    ensures var seen, db := Exec(cfg, ops).db.conflicts[id - 1], Exec(cfg, ops + more).db;
      var after := Resolve(cfg, db, id, resolution, seen.attempts, save, who).db;
      && id <= |db.conflicts| && db.conflicts[id - 1] == seen && !seen.resolved
      && |after.conflicts| == |db.conflicts|
      && after.conflicts[id - 1] == ResolvedRow(seen, who, TrimSpace(resolution), after.conflicts[id - 1].winningVersion)
      && (forall i :: 0 <= i < |db.conflicts| && i != id - 1 ==> after.conflicts[i] == db.conflicts[i])
      && (save.Some? ==>
            && seen.kind == Edit
            && after.conflicts[id - 1].winningVersion == MaxVersion(db.docs, seen.collection, seen.family) + 1
            && after.conflicts[id - 1].winningVersion == MaxVersion(after.docs, seen.collection, seen.family))
      && (save.None? ==>
            && after == db.(conflicts := after.conflicts)
            && after.conflicts[id - 1].winningVersion ==
               if seen.kind == Policy then 0 else MaxVersion(db.docs, seen.collection, seen.family))
  {
    hide TrimSpace;
    LedgerOnlyGrows(cfg, ops, more);
    var seen, db := Exec(cfg, ops).db.conflicts[id - 1], Exec(cfg, ops + more).db;
    assert RowEvolves(seen, db.conflicts[id - 1]);
    if save.Some? { SaveTxRaisesMax(cfg, db, seen.collection, seen.family, save.value); }
  }

  lemma SaveTxRaisesMax(cfg: Config, db: Db, collection: string, family: string, s: DocSave)
    ensures var o := SaveTx(cfg, db, collection, family, s);
      o.result.Ok? ==> o.result.value == MaxVersion(db.docs, collection, family) + 1
                       && MaxVersion(o.db.docs, collection, family) == o.result.value
  {
    var o := SaveTx(cfg, db, collection, family, s);
    if o.result.Ok? {
      assert o.db.docs[..|o.db.docs| - 1] == if s.status == "active" then Demote(db.docs, collection, family) else db.docs;
      MaxVersionAfterDemote(db.docs, collection, family);
    }
  }

  lemma {:induction false} MaxVersionAfterDemote(docs: seq<DocRow>, collection: string, family: string)
    ensures MaxVersion(Demote(docs, collection, family), collection, family) == MaxVersion(docs, collection, family)
  {
    if docs != [] {
      MaxVersionAfterDemote(docs[..|docs| - 1], collection, family);
      assert Demote(docs, collection, family)[..|docs| - 1] == Demote(docs[..|docs| - 1], collection, family);
    }
  }

  /** A resolve is accepted exactly under these conditions; any rejection leaves every table alone. */
  lemma ResolveAcceptsExactly(cfg: Config, db: Db, id: int, resolution: string, expectedAttempts: int,
                              save: Option<DocSave>, who: string)
    ensures var o := Resolve(cfg, db, id, resolution, expectedAttempts, save, who);
      && (o.result.Err? ==> o.db == db)
      && (o.result.Ok? <==>
            && TrimSpace(resolution) != "" && 1 <= id <= |db.conflicts| && !db.conflicts[id - 1].resolved
            && (expectedAttempts < 0 || expectedAttempts == db.conflicts[id - 1].attempts)
            && (save.Some? ==>
                  && var row := db.conflicts[id - 1]; var current := MaxVersion(db.docs, row.collection, row.family);
                  && row.kind == Edit && ValidSave(save.value) && row.collection in cfg.inRelease
                  && (save.value.base.Some? ==> save.value.base.value == current)
                  && !TargetsItself(save.value, row.collection, row.family, current + 1)))
  {
    hide TrimSpace;
  }

  /** What a resolve answers. A success returns the row as stored from then on: the open row with its
      resolution by `who`, the trimmed text and the winning version added, guarded or not, every other
      row being untouched. A failure says why. */
  lemma ResolveAnswers(cfg: Config, db: Db, id: int, resolution: string, expectedAttempts: int,
                       save: Option<DocSave>, who: string)
    ensures var o := Resolve(cfg, db, id, resolution, expectedAttempts, save, who);
      && (o.result.Ok? ==>
            && 1 <= id <= |db.conflicts| == |o.db.conflicts|
            && var before, after := db.conflicts[id - 1], o.db.conflicts[id - 1];
            && var current := MaxVersion(db.docs, before.collection, before.family);
            && o.result.value == after && o.db.conflicts == db.conflicts[id - 1 := after]
            && SameSubject(before, after) && SameAttempt(before, after) && after.attempts == before.attempts
            && !before.resolved && after.resolved && after.resolvedBy == who
            && after.resolution == TrimSpace(resolution) && after.resolution != ""
            && after.winningVersion == (if save.Some? then current + 1 else if before.kind == Policy then 0 else current)
            && o.db.releases == db.releases && o.db.members == db.members && o.db.resync == db.resync && o.db.heartbeats == db.heartbeats
            && if save.Some? then |o.db.docs| == |db.docs| + 1 else o.db.docs == db.docs && o.db.links == db.links)
      && (o.result.Err? ==> o.result.error in {Invalid, NotFound, Conflict})
      && (o.result == Err(NotFound) <==> TrimSpace(resolution) != "" && !(1 <= id <= |db.conflicts|))
      && (o.result == Err(Conflict) <==>
            && TrimSpace(resolution) != "" && 1 <= id <= |db.conflicts| && var row := db.conflicts[id - 1];
            && (|| row.resolved
                || (expectedAttempts >= 0 && expectedAttempts != row.attempts)
                || (save.Some? && row.kind == Edit && ValidSave(save.value) && row.collection in cfg.inRelease
                    && save.value.base.Some? && save.value.base.value != MaxVersion(db.docs, row.collection, row.family))))
  {
    hide TrimSpace, ValidSave, TargetsItself, Demote, NewRow, LinkRows;
  }

  // ---------------------------------------------------------------- claims

  /** A claim and its mirror image are one claim: stored under one primary document, the second is
      refused while the first is open. */
  lemma MirroredClaimIsDuplicate(db: Db, c: string, f: string, oc: string, of: string,
                                 detail: string, who: string, detail': string, who': string)
    requires oc != "" && Flag(db, c, f, oc, of, detail, who).result.Ok?
    requires TrimSpace(detail') != ""
    ensures var o := Flag(db, c, f, oc, of, detail, who);
      && Flag(o.db, oc, of, c, f, detail', who') == Outcome(o.db, Err(Conflict))
      && Flag(o.db, c, f, oc, of, detail', who') == Outcome(o.db, Err(Conflict))
  {
    hide TrimSpace;
    LessTotal(c, oc);
    LessTotal(f, of);
    var o := Flag(db, c, f, oc, of, detail, who);
    assert IsOpenFor(o.db.conflicts[|db.conflicts|], Claim, o.db.conflicts[|db.conflicts|].collection, o.db.conflicts[|db.conflicts|].family);
  }

  /** A claim is accepted exactly when both documents are well named and distinct, the detail is not
      blank and no claim is open on the lesser document. The new row names the lesser document first,
      snapshots both current versions and keeps the trimmed detail; nothing else changes. */
  lemma ClaimIsRecorded(db: Db, c: string, f: string, oc: string, of: string, detail: string, who: string)
    ensures var o := Flag(db, c, f, oc, of, detail, who);
      var paired := oc != "" || of != "";
      var swap := paired && (Less(oc, c) || (oc == c && Less(of, f)));
      var (pc, pf) := if swap then (oc, of) else (c, f);
      var (qc, qf) := if swap then (c, f) else (oc, of);
      && (o.result.Ok? <==>
            && ValidIdent(c) && ValidIdent(f) && TrimSpace(detail) != ""
            && (paired ==> ValidIdent(oc) && ValidIdent(of) && (oc, of) != (c, f))
            && OpenAt(db.conflicts, Claim, pc, pf).None?)
      && (o.result.Err? ==> o.db == db)
      && (o.result == Err(Conflict) <==>
            && ValidIdent(c) && ValidIdent(f) && TrimSpace(detail) != ""
            && (paired ==> ValidIdent(oc) && ValidIdent(of) && (oc, of) != (c, f))
            && OpenAt(db.conflicts, Claim, pc, pf).Some?)
      && (o.result.Err? ==> o.result.error in {Invalid, Conflict})
      && (o.result.Ok? ==>
            && o.db == db.(conflicts := o.db.conflicts) && o.result.value == |db.conflicts| + 1 == |o.db.conflicts|
            && o.db.conflicts[..|db.conflicts|] == db.conflicts
            && var row := o.db.conflicts[|db.conflicts|];
            && row.id == |db.conflicts| + 1 && IsOpenFor(row, Claim, pc, pf) && row.attempts == 1
            && row.otherCollection == qc && row.otherFamily == qf
            && row.base == MaxVersion(db.docs, pc, pf) && row.theirVersion == (if paired then MaxVersion(db.docs, qc, qf) else 0)
            && row.detail == Note(TrimSpace(detail)) && row.openedBy == who && row.attempted.None?)
  {
    hide TrimSpace;
  }

  /** A cut stopped by a lint writes one policy row, new or refreshed, and nothing else. The row names
      the offending document and version and the reason; a refresh keeps its id, base and payload and
      counts one more attempt. */
  lemma LintFailedCutIsRecorded(cfg: Config, db: Db, expected: string, editor: string)
    requires Candidate(cfg, db).Err? && Candidate(cfg, db).error.Lint? && Candidate(cfg, db).error.lint.collection != ""
    requires WellFormed(db.conflicts)
    ensures var o := Cut(cfg, db, expected, editor); var lint := Candidate(cfg, db).error.lint;
      && o.db == db.(conflicts := o.db.conflicts)
      && o.result.Err? && o.result.error.Recorded? && o.result.error.cause == Lint(lint)
      && var id := o.result.error.id;
      && 1 <= id <= |o.db.conflicts| && var row := o.db.conflicts[id - 1];
      && row.id == id && IsOpenFor(row, Policy, lint.collection, lint.family)
      && row.theirVersion == lint.version && row.detail == LintDetail(lint.reason) && row.openedBy == editor
      && (forall i :: 0 <= i < |db.conflicts| && i != id - 1 ==> o.db.conflicts[i] == db.conflicts[i])
      && (if OpenAt(db.conflicts, Policy, lint.collection, lint.family).Some?
          then |o.db.conflicts| == |db.conflicts| && row.attempts == db.conflicts[id - 1].attempts + 1
               && row.base == db.conflicts[id - 1].base && row.attempted == db.conflicts[id - 1].attempted
          else |o.db.conflicts| == |db.conflicts| + 1 == id && row.attempts == 1 && row.base == 0 && row.attempted.None?)
  {
    hide Candidate;
  }
}
