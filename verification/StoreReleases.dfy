/** Releases: accepted exactly when the lints hold, frozen, self-verifying and closed under links. */
module StoreReleases {
  import opened Wrappers
  import opened Text
  import opened StoreModel
  import opened StoreLog
  import opened StoreHistory
  import opened StoreOrder

  // ---------------------------------------------------------------- the lint gate

  ghost predicate Exists(docs: seq<DocRow>, l: DocLink, status: Status) {
    exists i :: 0 <= i < |docs| && InFamily(docs[i], l.collection, l.family) && docs[i].version == l.version
                && docs[i].status == status
  }

  ghost predicate LinkHolds(cfg: Config, docs: seq<DocRow>, l: DocLink) {
    && (l.relation == "reference" ==> Exists(docs, l, Active) && InReleaseBearing(cfg, l.collection))
    && (l.relation == "supersedes" ==> Exists(docs, l, Superseded))
  }

  predicate KernelFits(d: DocRow) {
    d.collection == "kernel" ==> |d.body| <= KERNEL_BYTE_CAP && |Fields(d.body)| <= KERNEL_WORD_CAP
  }

  ghost predicate RowPasses(cfg: Config, db: Db, d: DocRow) {
    KernelFits(d) && forall l :: l in LinksOf(db.links, d.id) ==> LinkHolds(cfg, db.docs, l)
  }

  ghost predicate UniqueVersions(docs: seq<DocRow>) {
    forall i, j :: 0 <= i < |docs| && 0 <= j < |docs| && SameFamily(docs[i], docs[j]) && docs[i].version == docs[j].version ==> i == j
  }

  lemma LinkLintDecides(cfg: Config, docs: seq<DocRow>, l: DocLink)
    requires UniqueVersions(docs)
    ensures LinkLint(cfg, docs, l).None? <==> LinkHolds(cfg, docs, l)
  {
    var found := FindDoc(docs, l.collection, l.family, l.version);
    FindDocIsRow(docs, l.collection, l.family, l.version);
    if found.Some? {
      var k :| 0 <= k < |docs| && docs[k] == found.value;
      forall status ensures Exists(docs, l, status) <==> found.value.status == status {}
    }
  }

  /** A refused link is refused for the reason it states: no such version, a version of that status, or
      a collection that is not released. */
  lemma LinkLintSaysWhy(cfg: Config, docs: seq<DocRow>, l: DocLink, status: Status)
    requires UniqueVersions(docs)
    ensures var lint := LinkLint(cfg, docs, l); var missing := forall s :: !Exists(docs, l, s);
      && (lint == Some(ReferenceMissing(l)) <==> l.relation == "reference" && missing)
      && (lint == Some(ReferenceNotActive(l, status)) <==> l.relation == "reference" && Exists(docs, l, status) && status != Active)
      && (lint == Some(ReferenceNotReleased(l)) <==>
            l.relation == "reference" && Exists(docs, l, Active) && !InReleaseBearing(cfg, l.collection))
      && (lint == Some(SupersedesMissing(l)) <==> l.relation == "supersedes" && missing)
      && (lint == Some(SupersedesNotSuperseded(l, status)) <==>
            l.relation == "supersedes" && Exists(docs, l, status) && status != Superseded)
  {
    var found := FindDoc(docs, l.collection, l.family, l.version);
    FindDocIsRow(docs, l.collection, l.family, l.version);
    if found.Some? {
      var k :| 0 <= k < |docs| && docs[k] == found.value;
      forall s ensures Exists(docs, l, s) <==> found.value.status == s {}
      assert Exists(docs, l, found.value.status);
    }
  }

  lemma {:induction false} LinkListDecides(cfg: Config, docs: seq<DocRow>, links: seq<DocLink>)
    requires UniqueVersions(docs)
    ensures FirstOfLinks(cfg, docs, links).None? <==> forall l :: l in links ==> LinkHolds(cfg, docs, l)
  {
    if links != [] {
      LinkLintDecides(cfg, docs, links[0]);
      LinkListDecides(cfg, docs, links[1..]);
      assert links == [links[0]] + links[1..];
    }
  }

  lemma {:induction false} KernelLintsDecide(rows: seq<DocRow>)
    ensures FirstKernelLint(rows).None? <==> forall d :: d in rows ==> KernelFits(d)
  {
    if rows != [] {
      KernelLintsDecide(rows[1..]);
      assert KernelFits(rows[0]) <==> KernelLint(rows[0]).None?;
      assert rows == [rows[0]] + rows[1..];
    }
  }

  lemma {:induction false} LinkLintsDecide(cfg: Config, db: Db, rows: seq<DocRow>)
    requires UniqueVersions(db.docs)
    ensures FirstLinkLint(cfg, db, rows).None? <==>
            forall d, l :: d in rows && l in LinksOf(db.links, d.id) ==> LinkHolds(cfg, db.docs, l)
  {
    if rows != [] {
      LinkListDecides(cfg, db.docs, LinksOf(db.links, rows[0].id));
      LinkLintsDecide(cfg, db, rows[1..]);
      assert rows == [rows[0]] + rows[1..];
    }
  }

  /** The lint a candidate is refused with is the first there is: all kernel caps are looked at, in
      candidate order, before any link; links follow in candidate order and then link order. */
  lemma {:induction false} KernelLintIsFirst(rows: seq<DocRow>) returns (i: nat)
    requires FirstKernelLint(rows).Some?
    ensures i < |rows| && !KernelFits(rows[i]) && (forall j :: 0 <= j < i ==> KernelFits(rows[j]))
    ensures FirstKernelLint(rows) == Some(LintOf(rows[i], if |rows[i].body| > KERNEL_BYTE_CAP then KernelBytes else KernelWords))
  {
    assert KernelFits(rows[0]) <==> KernelLint(rows[0]).None?;
    if KernelLint(rows[0]).Some? {
      i := 0;
    } else {
      i := KernelLintIsFirst(rows[1..]);
      i := i + 1;
    }
  }

  lemma {:induction false} LinkReasonIsFirst(cfg: Config, docs: seq<DocRow>, links: seq<DocLink>) returns (k: nat)
    requires UniqueVersions(docs) && FirstOfLinks(cfg, docs, links).Some?
    ensures k < |links| && !LinkHolds(cfg, docs, links[k]) && (forall j :: 0 <= j < k ==> LinkHolds(cfg, docs, links[j]))
    ensures FirstOfLinks(cfg, docs, links) == LinkLint(cfg, docs, links[k])
  {
    LinkLintDecides(cfg, docs, links[0]);
    if LinkLint(cfg, docs, links[0]).Some? {
      k := 0;
    } else {
      k := LinkReasonIsFirst(cfg, docs, links[1..]);
      k := k + 1;
    }
  }

  ghost predicate LinksHold(cfg: Config, db: Db, d: DocRow) {
    forall l :: l in LinksOf(db.links, d.id) ==> LinkHolds(cfg, db.docs, l)
  }

  lemma {:induction false} LinkLintIsFirst(cfg: Config, db: Db, rows: seq<DocRow>) returns (i: nat, k: nat)
    requires UniqueVersions(db.docs) && FirstLinkLint(cfg, db, rows).Some?
    ensures i < |rows| && (forall j :: 0 <= j < i ==> LinksHold(cfg, db, rows[j]))
    ensures var links := LinksOf(db.links, rows[i].id);
      && k < |links| && !LinkHolds(cfg, db.docs, links[k]) && (forall j :: 0 <= j < k ==> LinkHolds(cfg, db.docs, links[j]))
      && LinkLint(cfg, db.docs, links[k]).Some?
      && FirstLinkLint(cfg, db, rows) == Some(LintOf(rows[i], LinkLint(cfg, db.docs, links[k]).value))
  {
    var links := LinksOf(db.links, rows[0].id);
    LinkListDecides(cfg, db.docs, links);
    if FirstOfLinks(cfg, db.docs, links).Some? {
      i := 0;
      k := LinkReasonIsFirst(cfg, db.docs, links);
    } else {
      i, k := LinkLintIsFirst(cfg, db, rows[1..]);
      i := i + 1;
    }
  }

  lemma RunShapes(cfg: Config, ops: seq<Op>)
    ensures var docs := Exec(cfg, ops).db.docs; OneActive(docs) && UniqueVersions(docs)
  {
    TablesRefineLog(cfg, ops);
    var docs, log := Exec(cfg, ops).db.docs, Log(Exec(cfg, ops).events);
    forall i, j | 0 <= i < |docs| && 0 <= j < |docs| && SameFamily(docs[i], docs[j]) && docs[i].version == docs[j].version
      ensures i == j
    {
      SameVersionSameRow(log, i, j);
    }
    forall i, j | 0 <= i < j < |docs| && SameFamily(docs[i], docs[j])
      ensures !(docs[i].status.Active? && docs[j].status.Active?)
    {
      StatusFollowsLog(cfg, ops, i);
    }
  }

  /** In every reachable store, the staged lints accept exactly when there is something to release,
      every selected kernel fits both caps and every link of a selected version holds; the candidate
      is then the selected rows in strict (collection, family) order. */
  lemma CandidateAcceptsExactly(cfg: Config, ops: seq<Op>)
    ensures var db := Exec(cfg, ops).db;
      && (Candidate(cfg, db).Ok? <==>
            && (exists d :: d in db.docs && Selected(cfg, d))
            && forall d :: d in db.docs && Selected(cfg, d) ==> RowPasses(cfg, db, d))
      && (Candidate(cfg, db).Ok? ==>
            && StrictlySorted(Candidate(cfg, db).value)
            && forall d :: d in Candidate(cfg, db).value <==> d in db.docs && Selected(cfg, d))
  {
    RunShapes(cfg, ops);
    CandidateDecides(cfg, Exec(cfg, ops).db);
  }

  lemma CandidateDecides(cfg: Config, db: Db)
    requires OneActive(db.docs) && UniqueVersions(db.docs)
    ensures Candidate(cfg, db).Ok? <==>
            && (exists d :: d in db.docs && Selected(cfg, d))
            && forall d :: d in db.docs && Selected(cfg, d) ==> RowPasses(cfg, db, d)
    ensures Candidate(cfg, db).Ok? ==> Candidate(cfg, db).value == CandidateRows(cfg, db.docs)
    ensures StrictlySorted(CandidateRows(cfg, db.docs))
    ensures forall d :: d in CandidateRows(cfg, db.docs) <==> d in db.docs && Selected(cfg, d)
  {
    var rows := CandidateRows(cfg, db.docs);
    CandidateIsSorted(cfg, db.docs);
    KernelLintsDecide(rows);
    LinkLintsDecide(cfg, db, rows);
    assert rows != [] <==> exists d :: d in rows by { if rows != [] { assert rows[0] in rows; } }
  }

  /** The words a kernel is capped by: whatever white space parts them, each counts once. */
  lemma KernelWordsCount(d: DocRow, words: seq<string>, c: nat)
    requires d.collection == "kernel" && White(c) && d.body == Separated(words, c)
    requires forall w :: w in words ==> w != "" && Solid(w)
    ensures KernelFits(d) <==> |d.body| <= 24576 && |words| <= 2000
  {
    hide Fields;
    FieldsOfWords(words, c);
  }

  /** Why a candidate is refused: nothing is selected, or the first kernel over a cap, or else, every
      selected kernel fitting, the first link that does not hold. */
  lemma CandidateRefusesExactly(cfg: Config, ops: seq<Op>) returns (i: nat, k: nat)
    ensures var db := Exec(cfg, ops).db; var c, rows := Candidate(cfg, db), CandidateRows(cfg, db.docs);
      && (c == Err(EmptyRelease) <==> forall d :: d in db.docs ==> !Selected(cfg, d))
      && (c.Err? ==> c.error == EmptyRelease || c.error.Lint?)
      && (c.Err? && c.error.Lint? ==>
            && i < |rows| && var links := LinksOf(db.links, rows[i].id);
            && if exists d :: d in rows && !KernelFits(d) then
                 && !KernelFits(rows[i]) && (forall j :: 0 <= j < i ==> KernelFits(rows[j]))
                 && c.error.lint == LintOf(rows[i], if |rows[i].body| > KERNEL_BYTE_CAP then KernelBytes else KernelWords)
               else
                 && (forall j :: 0 <= j < i ==> LinksHold(cfg, db, rows[j]))
                 && k < |links| && !LinkHolds(cfg, db.docs, links[k]) && (forall j :: 0 <= j < k ==> LinkHolds(cfg, db.docs, links[j]))
                 && LinkLint(cfg, db.docs, links[k]).Some? && c.error.lint == LintOf(rows[i], LinkLint(cfg, db.docs, links[k]).value))
  {
    hide KernelFits, LinkHolds, LinkLint, Selected, Exec, CandidateRows;
    i, k := 0, 0;
    RunShapes(cfg, ops);
    var db := Exec(cfg, ops).db;
    var rows := CandidateRows(cfg, db.docs);
    CandidateDecides(cfg, db);
    KernelLintsDecide(rows);
    if FirstKernelLint(rows).Some? {
      i := KernelLintIsFirst(rows);
      assert rows[i] in rows && Selected(cfg, rows[i]);
    } else if FirstLinkLint(cfg, db, rows).Some? {
      i, k := LinkLintIsFirst(cfg, db, rows);
      assert rows[i] in rows && Selected(cfg, rows[i]);
    } else if rows != [] {
      assert rows[0] in rows && Selected(cfg, rows[0]);
    }
  }

  // ---------------------------------------------------------------- what later operations keep

  predicate SameButStatus(d: DocRow, e: DocRow) {
    e == d.(status := e.status)
  }

  /** `b` is a later state of `a`, as far as releases can tell. */
  ghost predicate Extends(a: Db, b: Db) {
    && |a.docs| <= |b.docs| && (forall i :: 0 <= i < |a.docs| ==> SameButStatus(a.docs[i], b.docs[i]))
    && (forall id :: 1 <= id <= |a.docs| ==> LinksOf(b.links, id) == LinksOf(a.links, id))
    && a.releases <= b.releases
    && (forall r :: 1 <= r <= |a.releases| ==> MembersOf(b.members, r) == MembersOf(a.members, r))
  }

  lemma ExtendsTransitive(a: Db, b: Db, c: Db)
    requires Extends(a, b) && Extends(b, c)
    ensures Extends(a, c)
  {
    forall i | 0 <= i < |a.docs| ensures SameButStatus(a.docs[i], c.docs[i]) {
      assert SameButStatus(a.docs[i], b.docs[i]) && SameButStatus(b.docs[i], c.docs[i]);
    }
  }

  lemma SaveTxExtends(cfg: Config, db: Db, e: SaveEntry)
    requires SaveTx(cfg, db, e.collection, e.family, e.save).result.Ok?
    ensures Extends(db, SaveTx(cfg, db, e.collection, e.family, e.save).db)
  {
    forall id | 1 <= id <= |db.docs|
      ensures LinksOf(db.links + LinkRows(|db.docs| + 1, e.save.links), id) == LinksOf(db.links, id)
    {
      LinksOfLater(db.links, id, |db.docs| + 1, e.save.links);
    }
  }

  lemma {:induction false} MembersOfLater(members: seq<MemberRow>, r: nat, more: seq<MemberRow>)
    requires forall i :: 0 <= i < |more| ==> more[i].releaseId != r
    ensures MembersOf(members + more, r) == MembersOf(members, r)
  {
    if more == [] {
      assert members + more == members;
    } else {
      MembersOfLater(members, r, more[..|more| - 1]);
      assert (members + more)[..|members + more| - 1] == members + more[..|more| - 1];
    }
  }

  lemma {:induction false} MembersOfNew(members: seq<MemberRow>, r: nat, more: seq<MemberRow>)
    requires forall i :: 0 <= i < |members| ==> members[i].releaseId != r
    requires forall i :: 0 <= i < |more| ==> more[i].releaseId == r
    ensures MembersOf(members + more, r) == more
  {
    if more != [] {
      MembersOfNew(members, r, more[..|more| - 1]);
      assert (members + more)[..|members + more| - 1] == members + more[..|more| - 1];
    } else {
      assert members + more == members;
      if members != [] { MembersOfNew(members[..|members| - 1], r, []); assert members[..|members| - 1] + [] == members[..|members| - 1]; }
    }
  }

  lemma CutExtends(cfg: Config, db: Db, expected: string, editor: string)
    ensures Extends(db, Cut(cfg, db, expected, editor).db)
  {
    hide Candidate, ClearPolicies, LinksOf, CandidateHash, ManifestDocs, OpenAt, NewConflict;
    var o := Cut(cfg, db, expected, editor);
    if o.result.Ok? {
      var rows := Candidate(cfg, db).value;
      forall r | 1 <= r <= |db.releases|
        ensures MembersOf(db.members + MemberRows(cfg, |db.releases| + 1, rows), r) == MembersOf(db.members, r)
      {
        MembersOfLater(db.members, r, MemberRows(cfg, |db.releases| + 1, rows));
      }
    }
  }

  lemma SaveLeavesReleases(cfg: Config, db: Db, c: string, f: string, s: DocSave)
    ensures var after := Save(cfg, db, c, f, s).db; after.releases == db.releases && after.members == db.members
  {
    hide ValidIdent, ValidSave, MaxVersion, NewRow, LinkRows, TargetsItself, Demote, NewConflict;
  }

  lemma ResolveLeavesReleases(cfg: Config, db: Db, id: int, text: string, expected: int, save: Option<DocSave>, who: string)
    ensures var after := Resolve(cfg, db, id, text, expected, save, who).db;
      after.releases == db.releases && after.members == db.members
  {
    hide TrimSpace, ValidSave, MaxVersion, NewRow, LinkRows, TargetsItself, ResolvedRow, Demote;
  }

  /** Only cuts write releases or members. */
  lemma OnlyCutsWriteReleases(cfg: Config, db: Db, op: Op)
    requires !op.CutRelease?
    ensures var after := Step(cfg, db, op).0; after.releases == db.releases && after.members == db.members
  {
    match op
    case SaveDoc(c, f, s) => SaveLeavesReleases(cfg, db, c, f, s);
    case ResolveConflict(id, text, expected, save, who) => ResolveLeavesReleases(cfg, db, id, text, expected, save, who);
    case _ =>
  }

  lemma StepExtends(cfg: Config, db: Db, op: Op)
    requires ConflictIdents(db.conflicts)
    ensures Extends(db, Step(cfg, db, op).0)
  {
    if op.CutRelease? {
      CutExtends(cfg, db, op.expectedHash, op.editor);
    } else {
      var event := Step(cfg, db, op).1;
      OnlyCutsWriteReleases(cfg, db, op);
      StepOnDocs(cfg, db, op);
      if EntriesOf(event) != [] { SaveTxExtends(cfg, db, EntriesOf(event)[0]); }
    }
  }

  lemma {:induction false} RunExtends(cfg: Config, ops: seq<Op>, more: seq<Op>)
    ensures Extends(Exec(cfg, ops).db, Exec(cfg, ops + more).db)
  {
    if more == [] {
      assert ops + more == ops;
    } else {
      var shorter := more[..|more| - 1];
      RunExtends(cfg, ops, shorter);
      assert ops + more == ops + shorter + [more[|more| - 1]];
      RunExtendsByStep(cfg, ops + shorter, more[|more| - 1]);
      ExtendsTransitive(Exec(cfg, ops).db, Exec(cfg, ops + shorter).db, Exec(cfg, ops + more).db);
    }
  }

  lemma RunExtendsByStep(cfg: Config, ops: seq<Op>, op: Op)
    ensures Extends(Exec(cfg, ops).db, Exec(cfg, ops + [op]).db)
  {
    ExecSnoc(cfg, ops, op);
    TablesRefineLog(cfg, ops);
    StepExtends(cfg, Exec(cfg, ops).db, op);
  }

  // ---------------------------------------------------------------- what a stored release is

  function RowsOf(db: Db, r: nat): seq<DocRow> {
    JoinDocs(db.docs, MembersOf(db.members, r))
  }

  /** The documents of release `r`: path and body, in candidate order. */
  function ReleaseFiles(db: Db, r: nat): seq<File> {
    FilesOf(RowsOf(db, r))
  }

  ghost predicate MembersMatch(cfg: Config, docs: seq<DocRow>, members: seq<MemberRow>) {
    && (forall i :: 0 <= i < |members| ==> 1 <= members[i].docId <= |docs| && DescribesDoc(cfg, docs[members[i].docId - 1], members[i]))
    && (forall i, j :: 0 <= i < j < |members| ==> KeyLess(docs[members[i].docId - 1], docs[members[j].docId - 1]))
  }

  predicate DescribesDoc(cfg: Config, d: DocRow, m: MemberRow) {
    && d.id == m.docId && m.path == PathOf(d) && m.sha256 == Hex(cfg.hash(d.body))
    && ValidIdent(d.collection) && ValidIdent(d.family)
  }

  ghost predicate HasMember(docs: seq<DocRow>, members: seq<MemberRow>, l: DocLink) {
    exists j :: 0 <= j < |members| && 1 <= members[j].docId <= |docs| && IsTarget(docs[members[j].docId - 1], l)
  }

  predicate IsTarget(d: DocRow, l: DocLink) {
    InFamily(d, l.collection, l.family) && d.version == l.version
  }

  /** Every reference of a member leads to a member; no member is what another member supersedes. */
  ghost predicate Closed(db: Db, members: seq<MemberRow>) {
    forall i, l :: 0 <= i < |members| && l in LinksOf(db.links, members[i].docId) ==>
      && (l.relation == "reference" ==> HasMember(db.docs, members, l))
      && (l.relation == "supersedes" ==> !HasMember(db.docs, members, l))
  }

  ghost predicate ReleaseOk(cfg: Config, db: Db, r: nat) {
    && 1 <= r <= |db.releases| && db.releases[r - 1].id == r
    && var members := MembersOf(db.members, r);
    && members != [] && MembersMatch(cfg, db.docs, members) && Closed(db, members)
    && db.releases[r - 1].contentHash == ContentHash(cfg.hash, ReleaseFiles(db, r))
  }

  lemma {:induction false} JoinIsPointwise(docs: seq<DocRow>, members: seq<MemberRow>)
    requires forall i :: 0 <= i < |members| ==> 1 <= members[i].docId <= |docs|
    ensures |JoinDocs(docs, members)| == |members|
    ensures forall i :: 0 <= i < |members| ==> JoinDocs(docs, members)[i] == docs[members[i].docId - 1]
  {
    if members != [] { JoinIsPointwise(docs, members[..|members| - 1]); }
  }

  lemma FilesSurvive(cfg: Config, a: Db, b: Db, r: nat)
    requires Extends(a, b) && 1 <= r <= |a.releases| && MembersMatch(cfg, a.docs, MembersOf(a.members, r))
    ensures MembersMatch(cfg, b.docs, MembersOf(b.members, r))
    ensures ReleaseFiles(b, r) == ReleaseFiles(a, r)
  {
    hide ValidIdent, LinksOf, MembersOf, JoinDocs, Less;
    var members := MembersOf(a.members, r);
    forall i | 0 <= i < |members| ensures SameButStatus(a.docs[members[i].docId - 1], b.docs[members[i].docId - 1]) {}
    JoinIsPointwise(a.docs, members);
    JoinIsPointwise(b.docs, members);
  }

  lemma ClosureSurvives(a: Db, b: Db, members: seq<MemberRow>)
    requires Extends(a, b) && Closed(a, members)
    requires forall i :: 0 <= i < |members| ==> 1 <= members[i].docId <= |a.docs|
    ensures Closed(b, members)
  {
    forall l ensures HasMember(a.docs, members, l) <==> HasMember(b.docs, members, l) {
      forall i | 0 <= i < |members| ensures SameButStatus(a.docs[members[i].docId - 1], b.docs[members[i].docId - 1]) {}
      if HasMember(b.docs, members, l) {
        var j :| 0 <= j < |members| && 1 <= members[j].docId <= |b.docs| && IsTarget(b.docs[members[j].docId - 1], l);
        assert IsTarget(a.docs[members[j].docId - 1], l);
      }
      if HasMember(a.docs, members, l) {
        var j :| 0 <= j < |members| && 1 <= members[j].docId <= |a.docs| && IsTarget(a.docs[members[j].docId - 1], l);
        assert IsTarget(b.docs[members[j].docId - 1], l);
      }
    }
  }

  lemma ReleaseSurvives(cfg: Config, a: Db, b: Db, r: nat)
    requires Extends(a, b) && ReleaseOk(cfg, a, r)
    ensures ReleaseOk(cfg, b, r)
  {
    FilesSurvive(cfg, a, b, r);
    ClosureSurvives(a, b, MembersOf(a.members, r));
    assert b.releases[r - 1] == a.releases[r - 1];
  }

  // ---------------------------------------------------------------- a cut stores a good release

  ghost predicate AllReleasesOk(cfg: Config, db: Db) {
    && (forall r :: 1 <= r <= |db.releases| ==> ReleaseOk(cfg, db, r))
    && (forall i :: 0 <= i < |db.members| ==> db.members[i].releaseId <= |db.releases|)
  }

  ghost predicate DocsSound(db: Db) {
    && OneActive(db.docs) && UniqueVersions(db.docs)
    && forall i :: 0 <= i < |db.docs| ==> db.docs[i].id == i + 1 && ValidIdent(db.docs[i].collection) && ValidIdent(db.docs[i].family)
  }

  lemma CandidateRowIsDoc(cfg: Config, db: Db, i: nat)
    requires DocsSound(db) && i < |CandidateRows(cfg, db.docs)|
    ensures var d := CandidateRows(cfg, db.docs)[i];
      1 <= d.id <= |db.docs| && db.docs[d.id - 1] == d && Selected(cfg, d) && ValidIdent(d.collection) && ValidIdent(d.family)
  {
    var rows := CandidateRows(cfg, db.docs);
    CandidateRowsAreSelected(cfg, db.docs);
    assert rows[i] in rows;
    var k :| 0 <= k < |db.docs| && db.docs[k] == rows[i];
  }

  lemma NewMembersJoin(cfg: Config, db: Db, r: nat)
    requires DocsSound(db)
    ensures var rows := CandidateRows(cfg, db.docs); var members := MemberRows(cfg, r, rows);
      && JoinDocs(db.docs, members) == rows
      && forall i :: 0 <= i < |rows| ==> 1 <= members[i].docId <= |db.docs| && db.docs[members[i].docId - 1] == rows[i]
  {
    hide DocsSound, Selected, CandidateRows, ValidIdent, PathOf, JoinDocs;
    var rows := CandidateRows(cfg, db.docs);
    var members := MemberRows(cfg, r, rows);
    forall i | 0 <= i < |rows| ensures 1 <= members[i].docId <= |db.docs| && db.docs[members[i].docId - 1] == rows[i] {
      CandidateRowIsDoc(cfg, db, i);
    }
    JoinIsPointwise(db.docs, members);
  }

  lemma NewMembersMatch(cfg: Config, db: Db, r: nat)
    requires DocsSound(db)
    ensures MembersMatch(cfg, db.docs, MemberRows(cfg, r, CandidateRows(cfg, db.docs)))
  {
    var rows := CandidateRows(cfg, db.docs);
    var members := MemberRows(cfg, r, rows);
    NewMembersJoin(cfg, db, r);
    CandidateIsSorted(cfg, db.docs);
    forall i | 0 <= i < |rows| ensures DescribesDoc(cfg, rows[i], members[i]) {
      CandidateRowIsDoc(cfg, db, i);
    }
  }

  lemma NewReleaseIsClosed(cfg: Config, db: Db, r: nat)
    requires DocsSound(db) && Candidate(cfg, db).Ok?
    ensures Closed(db, MemberRows(cfg, r, CandidateRows(cfg, db.docs)))
  {
    var rows := CandidateRows(cfg, db.docs);
    var members := MemberRows(cfg, r, rows);
    CandidateDecides(cfg, db);
    forall i, l | 0 <= i < |members| && l in LinksOf(db.links, members[i].docId)
      ensures l.relation == "reference" ==> HasMember(db.docs, members, l)
      ensures l.relation == "supersedes" ==> !HasMember(db.docs, members, l)
    {
      assert rows[i] in rows;
      assert LinkHolds(cfg, db.docs, l);
      LinkMembership(cfg, db, r, l);
    }
  }

  lemma LinkMembership(cfg: Config, db: Db, r: nat, l: DocLink)
    requires DocsSound(db) && LinkHolds(cfg, db.docs, l)
    ensures var members := MemberRows(cfg, r, CandidateRows(cfg, db.docs));
      && (l.relation == "reference" ==> HasMember(db.docs, members, l))
      && (l.relation == "supersedes" ==> !HasMember(db.docs, members, l))
  {
    NewMembersJoin(cfg, db, r);
    if l.relation == "reference" {
      ReferencedIsMember(cfg, db, r, l);
    } else if l.relation == "supersedes" {
      SupersededIsNoMember(cfg, db, r, l);
    }
  }

  lemma ReferencedIsMember(cfg: Config, db: Db, r: nat, l: DocLink)
    requires DocsSound(db) && Exists(db.docs, l, Active) && InReleaseBearing(cfg, l.collection)
    ensures HasMember(db.docs, MemberRows(cfg, r, CandidateRows(cfg, db.docs)), l)
  {
    var rows := CandidateRows(cfg, db.docs);
    CandidateRowsAreSelected(cfg, db.docs);
    var k :| 0 <= k < |db.docs| && InFamily(db.docs[k], l.collection, l.family) && db.docs[k].version == l.version && db.docs[k].status == Active;
    assert db.docs[k] in rows;
    var j :| 0 <= j < |rows| && rows[j] == db.docs[k];
    assert IsTarget(db.docs[MemberRows(cfg, r, rows)[j].docId - 1], l);
  }

  lemma SupersededIsNoMember(cfg: Config, db: Db, r: nat, l: DocLink)
    requires DocsSound(db) && Exists(db.docs, l, Superseded)
    ensures !HasMember(db.docs, MemberRows(cfg, r, CandidateRows(cfg, db.docs)), l)
  {
    hide CandidateRows, Selected, ValidIdent, PathOf, OneActive;
    var members := MemberRows(cfg, r, CandidateRows(cfg, db.docs));
    if HasMember(db.docs, members, l) {
      var j :| 0 <= j < |members| && 1 <= members[j].docId <= |db.docs| && IsTarget(db.docs[members[j].docId - 1], l);
      var k :| 0 <= k < |db.docs| && InFamily(db.docs[k], l.collection, l.family) && db.docs[k].version == l.version && db.docs[k].status == Superseded;
      CandidateRowIsDoc(cfg, db, j);
    }
  }

  /** A successful cut appends one release whose members are exactly the candidate. */
  lemma CutStoresCandidate(cfg: Config, db: Db, expected: string, editor: string)
    requires DocsSound(db) && AllReleasesOk(cfg, db)
    requires Cut(cfg, db, expected, editor).result.Ok?
    ensures var after := Cut(cfg, db, expected, editor).db; var r := |after.releases|; var rows := CandidateRows(cfg, db.docs);
      && r == |db.releases| + 1 && after.docs == db.docs && after.links == db.links
      && Candidate(cfg, db) == Ok(rows) && rows != []
      && MembersOf(after.members, r) == MemberRows(cfg, r, rows) && RowsOf(after, r) == rows
      && after.releases[r - 1] == ReleaseRow(r, ContentHash(cfg.hash, FilesOf(rows)))
  {
    hide DocsSound, AllReleasesOk, JoinDocs, Cut, Candidate, MembersOf, CandidateRows, ContentHash;
    var r := |db.releases| + 1;
    var rows := CandidateRows(cfg, db.docs);
    CutShape(cfg, db, expected, editor);
    NoMembersYet(cfg, db);
    MembersOfNew(db.members, r, MemberRows(cfg, r, rows));
    NewMembersJoin(cfg, db, r);
  }

  lemma NoMembersYet(cfg: Config, db: Db)
    requires AllReleasesOk(cfg, db)
    ensures forall i :: 0 <= i < |db.members| ==> db.members[i].releaseId != |db.releases| + 1
  {
    hide ReleaseOk;
  }

  lemma CutShape(cfg: Config, db: Db, expected: string, editor: string)
    requires Cut(cfg, db, expected, editor).result.Ok?
    ensures var after := Cut(cfg, db, expected, editor).db; var r := |db.releases| + 1; var rows := CandidateRows(cfg, db.docs);
      && Candidate(cfg, db) == Ok(rows) && rows != []
      && after.docs == db.docs && after.links == db.links
      && after.members == db.members + MemberRows(cfg, r, rows)
      && after.releases == db.releases + [ReleaseRow(r, ContentHash(cfg.hash, FilesOf(rows)))]
  {
    hide CandidateRows, MemberRows, ManifestDocs, ClearPolicies, FirstKernelLint, FirstLinkLint, OpenAt, HashText, ContentBytes;
  }

  lemma CutStoresGoodRelease(cfg: Config, db: Db, expected: string, editor: string)
    requires DocsSound(db) && AllReleasesOk(cfg, db)
    requires Cut(cfg, db, expected, editor).result.Ok?
    ensures var after := Cut(cfg, db, expected, editor).db; ReleaseOk(cfg, after, |after.releases|)
  {
    var after := Cut(cfg, db, expected, editor).db;
    var r := |after.releases|;
    CutStoresCandidate(cfg, db, expected, editor);
    NewMembersMatch(cfg, db, r);
    NewReleaseIsClosed(cfg, db, r);
    ClosedReadsDocsAndLinks(db, after, MembersOf(after.members, r));
  }

  lemma ClosedReadsDocsAndLinks(a: Db, b: Db, members: seq<MemberRow>)
    requires a.docs == b.docs && a.links == b.links && Closed(a, members)
    ensures Closed(b, members)
  {
  }

  lemma CutKeepsReleases(cfg: Config, db: Db, expected: string, editor: string)
    requires DocsSound(db) && AllReleasesOk(cfg, db)
    ensures AllReleasesOk(cfg, Cut(cfg, db, expected, editor).db)
  {
    hide ReleaseOk, Extends, Candidate, ManifestDocs, MemberRows, ClearPolicies, OpenAt, NewConflict, CandidateHash, OneActive, UniqueVersions, ValidIdent;
    var o := Cut(cfg, db, expected, editor);
    CutExtends(cfg, db, expected, editor);
    forall r | 1 <= r <= |o.db.releases| ensures ReleaseOk(cfg, o.db, r) {
      if r <= |db.releases| {
        ReleaseSurvives(cfg, db, o.db, r);
      } else {
        CutStoresGoodRelease(cfg, db, expected, editor);
      }
    }
    CutMembersBounded(cfg, db, expected, editor);
  }

  lemma CutMembersBounded(cfg: Config, db: Db, expected: string, editor: string)
    requires forall i :: 0 <= i < |db.members| ==> db.members[i].releaseId <= |db.releases|
    ensures var after := Cut(cfg, db, expected, editor).db;
      forall i :: 0 <= i < |after.members| ==> after.members[i].releaseId <= |after.releases|
  {
  }

  lemma StepKeepsReleases(cfg: Config, db: Db, op: Op)
    requires DocsSound(db) && AllReleasesOk(cfg, db) && ConflictIdents(db.conflicts)
    ensures AllReleasesOk(cfg, Step(cfg, db, op).0)
  {
    if op.CutRelease? {
      CutKeepsReleases(cfg, db, op.expectedHash, op.editor);
    } else {
      var after := Step(cfg, db, op).0;
      StepExtends(cfg, db, op);
      OnlyCutsWriteReleases(cfg, db, op);
      forall r | 1 <= r <= |after.releases| ensures ReleaseOk(cfg, after, r) {
        ReleaseSurvives(cfg, db, after, r);
      }
    }
  }

  lemma RunDocsSound(cfg: Config, ops: seq<Op>)
    ensures DocsSound(Exec(cfg, ops).db) && ConflictIdents(Exec(cfg, ops).db.conflicts)
  {
    RunShapes(cfg, ops);
    TablesRefineLog(cfg, ops);
    var docs, log := Exec(cfg, ops).db.docs, Log(Exec(cfg, ops).events);
    forall i | 0 <= i < |docs| ensures docs[i].id == i + 1 && ValidIdent(docs[i].collection) && ValidIdent(docs[i].family) {
      assert ValidEntry(cfg, log[i]);
    }
  }

  /** Every release of every run is non-empty, strictly ordered, closed under links, and its stored
      content hash is the hash of its documents. */
  lemma {:induction false} ReleasesAreSound(cfg: Config, ops: seq<Op>)
    ensures AllReleasesOk(cfg, Exec(cfg, ops).db)
  {
    if ops != [] {
      ReleasesAreSound(cfg, ops[..|ops| - 1]);
      RunDocsSound(cfg, ops[..|ops| - 1]);
      StepKeepsReleases(cfg, Exec(cfg, ops[..|ops| - 1]).db, ops[|ops| - 1]);
    }
  }
}
