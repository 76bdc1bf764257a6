/** What the save log settles: version numbers, the one active version, lost updates and read-back. */
module StoreHistory {
  import opened Wrappers
  import opened Text
  import opened StoreModel
  import opened StoreLog

  // ---------------------------------------------------------------- runs extend runs

  /** A longer run keeps the log of a shorter one as its start. */
  lemma {:induction false} LogOnlyGrows(cfg: Config, ops: seq<Op>, more: seq<Op>)
    ensures Log(Exec(cfg, ops).events) <= Log(Exec(cfg, ops + more).events)
  {
    hide Exec, Log;
    if more == [] {
      assert ops + more == ops;
    } else {
      var shorter := more[..|more| - 1];
      LogOnlyGrows(cfg, ops, shorter);
      assert ops + more == ops + shorter + [more[|more| - 1]];
      LogOfStep(cfg, ops + shorter, more[|more| - 1]);
    }
  }

  lemma LogOfStep(cfg: Config, ops: seq<Op>, op: Op)
    ensures Log(Exec(cfg, ops).events) <= Log(Exec(cfg, ops + [op]).events)
  {
    hide Step;
    ExecSnoc(cfg, ops, op);
    var before := Exec(cfg, ops);
    LogSnoc(before.events, Step(cfg, before.db, op).1);
  }

  // ---------------------------------------------------------------- versions

  lemma {:induction false} CountOfPrefix(log: seq<SaveEntry>, n: nat, m: nat, collection: string, family: string)
    requires n <= m <= |log|
    ensures Count(log[..n], collection, family) <= Count(log[..m], collection, family)
    ensures n < m && OfFamily(log[n], collection, family) ==>
      Count(log[..n], collection, family) < Count(log[..m], collection, family)
    decreases m - n
  {
    if n < m {
      CountOfPrefix(log, n, m - 1, collection, family);
      assert log[..m][..m - 1] == log[..m - 1];
    }
  }

  /** Within a family, rows are numbered in the order they were saved. */
  lemma VersionsFollowOrder(log: seq<SaveEntry>, i: nat, j: nat)
    requires i < j < |log| && OfFamily(log[i], log[j].collection, log[j].family)
    ensures Table(log)[i].version < Table(log)[j].version
  {
    CountOfPrefix(log, i, j, log[i].collection, log[i].family);
  }

  lemma SameVersionSameRow(log: seq<SaveEntry>, i: nat, j: nat)
    requires i < |log| && j < |log| && OfFamily(log[i], log[j].collection, log[j].family)
    requires VersionAt(log, i) == VersionAt(log, j)
    ensures i == j
  {
    if i < j { VersionsFollowOrder(log, i, j); }
    if j < i { VersionsFollowOrder(log, j, i); }
  }

  lemma {:induction false} RankExists(log: seq<SaveEntry>, collection: string, family: string, v: nat) returns (i: nat)
    requires 1 <= v <= Count(log, collection, family)
    ensures i < |log| && OfFamily(log[i], collection, family) && VersionAt(log, i) == v
  {
    var n := |log| - 1;
    var shorter := log[..n];
    if v <= Count(shorter, collection, family) {
      i := RankExists(shorter, collection, family, v);
      assert log[..i] == shorter[..i];
    } else {
      i := n;
    }
  }

  /** In every run the versions of a family are exactly 1..max, each carried by one row. */
  lemma VersionsAreDense(cfg: Config, ops: seq<Op>, collection: string, family: string, v: int)
    ensures var docs := Exec(cfg, ops).db.docs;
      && (1 <= v <= MaxVersion(docs, collection, family) <==>
          exists i :: 0 <= i < |docs| && InFamily(docs[i], collection, family) && docs[i].version == v)
      && forall i, j | 0 <= i < |docs| && 0 <= j < |docs| && InFamily(docs[i], docs[j].collection, docs[j].family)
                       && docs[i].version == docs[j].version :: i == j
  {
    hide MaxVersion, ValidIdent, Exec, Log, LinkTable, StatusAt;
    TablesRefineLog(cfg, ops);
    var docs, log := Exec(cfg, ops).db.docs, Log(Exec(cfg, ops).events);
    TableMaxVersion(log, collection, family);
    if 1 <= v <= MaxVersion(docs, collection, family) {
      var i := RankExists(log, collection, family, v);
      assert InFamily(docs[i], collection, family);
    }
    if i :| 0 <= i < |docs| && InFamily(docs[i], collection, family) && docs[i].version == v {
      CountOfPrefix(log, i, |log|, collection, family);
      assert log[..|log|] == log;
    }
    forall i, j | 0 <= i < |docs| && 0 <= j < |docs| && InFamily(docs[i], docs[j].collection, docs[j].family)
                  && docs[i].version == docs[j].version
      ensures i == j
    {
      SameVersionSameRow(log, i, j);
    }
  }

  // ---------------------------------------------------------------- statuses

  /** In every run a row is active exactly when it is the family's most recent save as active;
      a row saved as a draft is a draft, and every earlier active save is superseded. */
  lemma StatusFollowsLog(cfg: Config, ops: seq<Op>, i: nat)
    requires i < |Exec(cfg, ops).db.docs|
    ensures var docs, log := Exec(cfg, ops).db.docs, Log(Exec(cfg, ops).events);
      && |docs| == |log| && InFamily(docs[i], log[i].collection, log[i].family)
      && (docs[i].status == Draft <==> log[i].save.status == "draft")
      && (docs[i].status == Active <==>
          log[i].save.status == "active" &&
          forall j :: i < j < |docs| && InFamily(docs[j], docs[i].collection, docs[i].family) ==> docs[j].status == Draft)
      && forall j | 0 <= j < |docs| && InFamily(docs[j], docs[i].collection, docs[i].family)
                    && docs[i].status == Active && docs[j].status == Active :: i == j
  {
    hide VersionAt, Exec, Log, LinkTable, ValidIdent, TriggerGrammar;
    TablesRefineLog(cfg, ops);
    var docs, log := Exec(cfg, ops).db.docs, Log(Exec(cfg, ops).events);
    assert ValidEntry(cfg, log[i]);
    if Overtaken(log, i) {
      var j :| i < j < |log| && OfFamily(log[j], log[i].collection, log[i].family) && SavedActive(log[j]);
      assert docs[j] == RowAt(log, j);
    }
  }

  /** The candidate of a cut depends on the log of accepted saves and on nothing else. */
  lemma CandidateIsFunctionOfLog(cfg: Config, ops: seq<Op>, other: seq<Op>)
    requires Log(Exec(cfg, ops).events) == Log(Exec(cfg, other).events)
    ensures Candidate(cfg, Exec(cfg, ops).db) == Candidate(cfg, Exec(cfg, other).db)
  {
    TablesRefineLog(cfg, ops);
    TablesRefineLog(cfg, other);
    var a, b := Exec(cfg, ops).db, Exec(cfg, other).db;
    LinkLintsReadDocsAndLinks(cfg, a, b, CandidateRows(cfg, a.docs));
  }

  lemma {:induction false} LinkLintsReadDocsAndLinks(cfg: Config, a: Db, b: Db, rows: seq<DocRow>)
    requires a.docs == b.docs && a.links == b.links
    ensures FirstLinkLint(cfg, a, rows) == FirstLinkLint(cfg, b, rows)
  {
    if rows != [] { LinkLintsReadDocsAndLinks(cfg, a, b, rows[1..]); }
  }

  // ---------------------------------------------------------------- lost updates

  /** Every accepted save with a base created the version right after that base. */
  predicate Guarded(log: seq<SaveEntry>) {
    forall i :: 0 <= i < |log| && log[i].save.base.Some? ==> VersionAt(log, i) == log[i].save.base.value + 1
  }

  lemma {:induction false} RunsAreGuarded(cfg: Config, ops: seq<Op>)
    ensures Guarded(Log(Exec(cfg, ops).events))
  {
    if ops != [] {
      var shorter, op := ops[..|ops| - 1], ops[|ops| - 1];
      var before := Exec(cfg, shorter);
      var log, event := Log(before.events), Step(cfg, before.db, op).1;
      RunsAreGuarded(cfg, shorter);
      TablesRefineLog(cfg, shorter);
      StepOnDocs(cfg, before.db, op);
      LogSnoc(before.events, event);
      if EntriesOf(event) == [] {
        assert log + [] == log;
      } else {
        GuardedAfterSave(cfg, before.db, log, EntriesOf(event)[0]);
        assert EntriesOf(event) == [EntriesOf(event)[0]];
      }
    }
  }

  lemma GuardedAfterSave(cfg: Config, db: Db, log: seq<SaveEntry>, e: SaveEntry)
    requires Guarded(log) && db.docs == Table(log)
    requires SaveTx(cfg, db, e.collection, e.family, e.save).result.Ok?
    ensures Guarded(log + [e])
  {
    var longer := log + [e];
    TableMaxVersion(log, e.collection, e.family);
    forall i | 0 <= i < |longer| && longer[i].save.base.Some?
      ensures VersionAt(longer, i) == longer[i].save.base.value + 1
    {
      assert longer[..i] == log[..i];
      assert i == |log| ==> log[..i] == log;
    }
  }

  /** No lost update: over a whole run, at most one save guarded by a given base is accepted in a
      family, and it creates version base + 1. */
  lemma NoLostUpdate(cfg: Config, ops: seq<Op>, i: nat, j: nat)
    requires var log := Log(Exec(cfg, ops).events);
      && i < |log| && j < |log| && OfFamily(log[i], log[j].collection, log[j].family)
      && log[i].save.base.Some? && log[i].save.base == log[j].save.base
    ensures i == j
    ensures var docs := Exec(cfg, ops).db.docs;
      i < |docs| && docs[i].version == Log(Exec(cfg, ops).events)[i].save.base.value + 1
  {
    RunsAreGuarded(cfg, ops);
    TablesRefineLog(cfg, ops);
    SameVersionSameRow(Log(Exec(cfg, ops).events), i, j);
  }

  /** A save is accepted exactly under these conditions; a stale one is a recorded conflict and any other
      rejection is invalid input. It then creates the next version of its
      family, last in the table; only an accepted save touches documents or links, and only a stale
      one touches the ledger. */
  lemma SaveAcceptsExactly(cfg: Config, db: Db, collection: string, family: string, s: DocSave)
    ensures var o := Save(cfg, db, collection, family, s); var current := MaxVersion(db.docs, collection, family);
      && (o.result.Ok? <==>
            && ValidIdent(collection) && ValidIdent(family) && ValidSave(s) && collection in cfg.inRelease
            && (s.base.Some? ==> s.base.value == current)
            && (forall l :: l in s.links ==> !(l.collection == collection && l.family == family && l.version == current + 1)))
      && (o.result.Err? ==> o.result.error == Invalid || (o.result.error.Recorded? && o.result.error.cause == Conflict))
      && (o.result.Err? && o.result.error.Recorded? <==>
            && ValidIdent(collection) && ValidIdent(family) && ValidSave(s) && collection in cfg.inRelease
            && s.base.Some? && s.base.value != current)
      && (o.result.Ok? ==>
            && o.result.value == current + 1 && |o.db.docs| == |db.docs| + 1
            && (forall i :: 0 <= i < |db.docs| ==>
                  o.db.docs[i] == if s.status == "active" then DemoteRow(db.docs[i], collection, family) else db.docs[i])
            && o.db == db.(docs := o.db.docs, links := o.db.links))
      && (o.result.Err? && !o.result.error.Recorded? ==> o.db == db)
      && (o.result.Err? ==> o.db == db.(conflicts := o.db.conflicts))
  {
    if s.base.Some? { var _ := RecordStale(db, collection, family, s); }
  }

  /** A guarded save is rejected as stale exactly when its base is not the current version; then
      documents, links, releases and flags are untouched and the family's open edit row holds the
      whole rejected save beside the version it lost to. */
  lemma StaleSaveIsRecorded(cfg: Config, db: Db, collection: string, family: string, s: DocSave)
    requires ValidIdent(collection) && ValidIdent(family) && ValidSave(s) && collection in cfg.inRelease
    requires s.base.Some?
    requires forall i :: 0 <= i < |db.conflicts| ==> db.conflicts[i].id == i + 1
    ensures var o := Save(cfg, db, collection, family, s); var current := MaxVersion(db.docs, collection, family);
      && (s.base.value != current <==> o.result.Err? && o.result.error.Recorded?)
      && (s.base.value != current ==>
            && o.db == db.(conflicts := o.db.conflicts)
            && o.result.error.cause == Conflict && var id := o.result.error.id;
            && 1 <= id <= |o.db.conflicts| && var row := o.db.conflicts[id - 1];
            && row.id == id && IsOpenFor(row, Edit, collection, family)
            && row.base == s.base.value && row.theirVersion == current && row.base != row.theirVersion
            && row.attempted == Some(s) && row.detail == StaleSave(s.base.value, current) && row.openedBy == s.editor
            && row.attempts == if id <= |db.conflicts| then db.conflicts[id - 1].attempts + 1 else 1)
  {
    var _ := RecordStale(db, collection, family, s);
  }

  // ---------------------------------------------------------------- read-back

  /** Join and decode give the triggers back exactly when no trigger holds a comma and the list is
      not one empty trigger. */
  lemma TriggersRoundTrip(ts: seq<string>)
    ensures DecodeTriggers(Join(ts, ',')) == ts <==> (forall t :: t in ts ==> ',' !in t) && ts != [""]
  {
    var stored := Join(ts, ',');
    if (forall t :: t in ts ==> ',' !in t) && ts != [""] && ts != [] {
      SplitOfJoin(ts, ',');
      if |ts| > 1 { assert stored[|ts[0]|] == ','; } else { assert ts == [ts[0]]; }
    }
    if DecodeTriggers(stored) == ts && ts != [] {
      PartsHoldNoSep(stored, ',');
    }
  }

  lemma GrammarRoundTrips(ts: seq<string>)
    requires TriggerGrammar(ts, ',')
    ensures DecodeTriggers(Join(ts, ',')) == ts
  {
    TriggersRoundTrip(ts);
    assert ts != [] ==> ts[0] in ts;
  }

  lemma LinksOfSnoc(links: seq<LinkRow>, row: LinkRow, docId: nat)
    ensures LinksOf(links + [row], docId) == LinksOf(links, docId) + if row.docId == docId then [row.link] else []
  {
    assert (links + [row])[..|links|] == links;
  }

  lemma LinkRowsSnoc(docId: nat, more: seq<DocLink>)
    requires more != []
    ensures var n := |more| - 1; LinkRows(docId, more) == LinkRows(docId, more[..n]) + [LinkRow(docId, n, more[n])]
  {
  }

  lemma {:induction false} LinksOfLater(links: seq<LinkRow>, docId: nat, later: nat, more: seq<DocLink>)
    requires docId != later
    ensures LinksOf(links + LinkRows(later, more), docId) == LinksOf(links, docId)
  {
    hide LinksOf;
    if more == [] {
      assert links + LinkRows(later, more) == links;
    } else {
      var n := |more| - 1;
      LinksOfLater(links, docId, later, more[..n]);
      LinkRowsSnoc(later, more);
      LinksOfSnoc(links + LinkRows(later, more[..n]), LinkRow(later, n, more[n]), docId);
      assert links + LinkRows(later, more) == links + LinkRows(later, more[..n]) + [LinkRow(later, n, more[n])];
    }
  }

  lemma {:induction false} LinksOfOwn(links: seq<LinkRow>, docId: nat, more: seq<DocLink>)
    ensures LinksOf(links + LinkRows(docId, more), docId) == LinksOf(links, docId) + more
  {
    hide LinksOf;
    if more == [] {
      assert links + LinkRows(docId, more) == links;
    } else {
      var n := |more| - 1;
      LinksOfOwn(links, docId, more[..n]);
      LinkRowsSnoc(docId, more);
      LinksOfSnoc(links + LinkRows(docId, more[..n]), LinkRow(docId, n, more[n]), docId);
      assert links + LinkRows(docId, more) == links + LinkRows(docId, more[..n]) + [LinkRow(docId, n, more[n])];
      assert more == more[..n] + [more[n]];
    }
  }

  /** No entry links to the version it creates. */
  ghost predicate SelfFree(log: seq<SaveEntry>) {
    forall i, l :: 0 <= i < |log| && l in log[i].save.links ==>
      !(l.collection == log[i].collection && l.family == log[i].family && l.version == VersionAt(log, i))
  }

  lemma SelfFreeAfterSave(cfg: Config, db: Db, log: seq<SaveEntry>, e: SaveEntry)
    requires SelfFree(log) && db.docs == Table(log)
    requires SaveTx(cfg, db, e.collection, e.family, e.save).result.Ok?
    ensures SelfFree(log + [e])
  {
    hide VersionAt, NewRow, Demote, LinkRows;
    var longer := log + [e];
    SaveAcceptsExactly(cfg, db, e.collection, e.family, e.save);
    TableMaxVersion(log, e.collection, e.family);
    forall i, l | 0 <= i < |longer| && l in longer[i].save.links
      ensures !(l.collection == longer[i].collection && l.family == longer[i].family && l.version == VersionAt(longer, i))
    {
      VersionOfPrefix(log, e, i);
      if i == |log| {
        var k :| 0 <= k < |e.save.links| && e.save.links[k] == l;
      }
    }
  }

  lemma VersionOfPrefix(log: seq<SaveEntry>, e: SaveEntry, i: nat)
    requires i <= |log|
    ensures VersionAt(log + [e], i) == if i < |log| then VersionAt(log, i) else Count(log, e.collection, e.family) + 1
  {
    assert (log + [e])[..i] == log[..i];
    assert log[..|log|] == log;
  }

  /** In every run no version links to itself. */
  lemma {:induction false} NoVersionLinksToItself(cfg: Config, ops: seq<Op>)
    ensures SelfFree(Log(Exec(cfg, ops).events))
  {
    hide Step, SelfFree, SaveTx;
    if ops != [] {
      var shorter, op := ops[..|ops| - 1], ops[|ops| - 1];
      var before := Exec(cfg, shorter);
      var log, event := Log(before.events), Step(cfg, before.db, op).1;
      NoVersionLinksToItself(cfg, shorter);
      TablesRefineLog(cfg, shorter);
      StepOnDocs(cfg, before.db, op);
      LogSnoc(before.events, event);
      if EntriesOf(event) == [] {
        assert log + [] == log;
      } else {
        SelfFreeAfterSave(cfg, before.db, log, EntriesOf(event)[0]);
        assert EntriesOf(event) == [EntriesOf(event)[0]];
      }
    } else {
      NothingLogged(cfg);
    }
  }

  lemma NothingLogged(cfg: Config)
    ensures SelfFree(Log(Exec(cfg, []).events))
  {
  }

  /** The link rows of each document are numbered 0, 1, 2 and so on, in order. */
  ghost predicate Numbered(links: seq<LinkRow>) {
    forall r :: 0 <= r < |links| ==> links[r].position == |LinksOf(links[..r], links[r].docId)|
  }

  lemma NumberedAfterSave(links: seq<LinkRow>, docId: nat, more: seq<DocLink>)
    requires Numbered(links) && LinksOf(links, docId) == []
    ensures Numbered(links + LinkRows(docId, more))
  {
    var all := links + LinkRows(docId, more);
    forall r | 0 <= r < |all| ensures all[r].position == |LinksOf(all[..r], all[r].docId)| {
      if r < |links| {
        assert all[..r] == links[..r];
      } else {
        var k := r - |links|;
        assert all[..r] == links + LinkRows(docId, more[..k]);
        LinksOfOwn(links, docId, more[..k]);
      }
    }
  }

  lemma {:induction false} LinkTableNumbered(log: seq<SaveEntry>)
    ensures Numbered(LinkTable(log))
  {
    if log != [] {
      var n := |log| - 1;
      LinkTableNumbered(log[..n]);
      LinkTableByDoc(log[..n], n);
      NumberedAfterSave(LinkTable(log[..n]), n + 1, log[n].save.links);
    }
  }

  /** In every run the link rows of each version are numbered in order. */
  lemma LinksAreNumbered(cfg: Config, ops: seq<Op>)
    ensures Numbered(Exec(cfg, ops).db.links)
  {
    TablesRefineLog(cfg, ops);
    LinkTableNumbered(Log(Exec(cfg, ops).events));
  }

  lemma NoLinks(docId: nat)
    ensures LinksOf([], docId) == []
  {
  }

  /** The link rows of version row `i + 1` are the links it was saved with, in order. */
  lemma {:induction false} LinkTableByDoc(log: seq<SaveEntry>, i: nat)
    ensures LinksOf(LinkTable(log), i + 1) == if i < |log| then log[i].save.links else []
  {
    hide LinkRows, LinksOf;
    if log == [] {
      NoLinks(i + 1);
    } else {
      var n := |log| - 1;
      LinkTableByDoc(log[..n], i);
      if i == n {
        LinksOfOwn(LinkTable(log[..n]), n + 1, log[n].save.links);
      } else {
        LinksOfLater(LinkTable(log[..n]), i + 1, n + 1, log[n].save.links);
      }
    }
  }

  lemma {:induction false} FindDocFinds(docs: seq<DocRow>, i: nat)
    requires i < |docs|
    requires forall j | 0 <= j < |docs| && InFamily(docs[j], docs[i].collection, docs[i].family)
                        && docs[j].version == docs[i].version :: j == i
    ensures FindDoc(docs, docs[i].collection, docs[i].family, docs[i].version) == Some(docs[i])
  {
    var n := |docs| - 1;
    if i < n {
      assert !(InFamily(docs[n], docs[i].collection, docs[i].family) && docs[n].version == docs[i].version);
      FindDocFinds(docs[..n], i);
    }
  }

  lemma {:induction false} FindDocIsRow(docs: seq<DocRow>, collection: string, family: string, version: int)
    ensures var found := FindDoc(docs, collection, family, version);
      && (found.Some? ==> found.value in docs && InFamily(found.value, collection, family) && found.value.version == version)
      && (found.None? ==> forall i :: 0 <= i < |docs| ==> !(InFamily(docs[i], collection, family) && docs[i].version == version))
  {
    if docs != [] { FindDocIsRow(docs[..|docs| - 1], collection, family, version); }
  }

  /** Read-back is exact in every run, and so forever: asking for the version a save created returns
      that save's text fields, triggers, ordered links and body, in the table's row with its status. */
  lemma ReadBackIsExact(cfg: Config, ops: seq<Op>, i: nat)
    requires i < |Log(Exec(cfg, ops).events)|
    ensures var log, db := Log(Exec(cfg, ops).events), Exec(cfg, ops).db; var e := log[i];
      && var got := GetDoc(db, e.collection, e.family, VersionAt(log, i));
      && got.Ok? && got.value.triggers == e.save.triggers && got.value.links == e.save.links
      && var row := got.value.row;
      && row.version == VersionAt(log, i) && row.body == e.save.body && row.title == e.save.title
      && row.owner == e.save.owner && row.audience == e.save.audience && row.tier == e.save.tier
      && row.editor == e.save.editor && row.collection == e.collection && row.family == e.family
      && i < |db.docs| && row == db.docs[i]
  {
    hide Exec, Log, LinkTable, FindDoc, MaxVersion, LinksOf, ValidIdent, DecodeTriggers, StatusAt;
    TablesRefineLog(cfg, ops);
    var log, db := Log(Exec(cfg, ops).events), Exec(cfg, ops).db;
    assert ValidEntry(cfg, log[i]);
    forall j | 0 <= j < |db.docs| && InFamily(db.docs[j], log[i].collection, log[i].family)
               && db.docs[j].version == db.docs[i].version
      ensures j == i
    {
      SameVersionSameRow(log, i, j);
    }
    FindDocFinds(db.docs, i);
    LinkTableByDoc(log, i);
    GrammarRoundTrips(log[i].save.triggers);
  }

  /** Asking for a version finds a document exactly when the family has saved that many. */
  lemma ReadBackFindsExactly(cfg: Config, ops: seq<Op>, collection: string, family: string, version: int)
    requires version > 0
    ensures var log := Log(Exec(cfg, ops).events); var got := GetDoc(Exec(cfg, ops).db, collection, family, version);
      && (got == Err(Invalid) <==> !ValidIdent(collection) || !ValidIdent(family))
      && (got.Ok? <==> ValidIdent(collection) && ValidIdent(family) && version <= Count(log, collection, family))
      && (got.Err? && got.error != Invalid ==> got == Err(NotFound))
  {
    hide ValidIdent, MaxVersion, Exec, Log, Refines, FindDoc, LinksOf, DecodeTriggers;
    var docs, log := Exec(cfg, ops).db.docs, Log(Exec(cfg, ops).events);
    assert MaxVersion(docs, collection, family) == Count(log, collection, family) by {
      DocsAreTable(cfg, ops);
      TableMaxVersion(log, collection, family);
    }
    VersionsAreDense(cfg, ops, collection, family, version);
    FindDocIsRow(docs, collection, family, version);
  }

  lemma DocsAreTable(cfg: Config, ops: seq<Op>)
    ensures Exec(cfg, ops).db.docs == Table(Log(Exec(cfg, ops).events))
  {
    TablesRefineLog(cfg, ops);
  }

  /** Asking without a version is asking for the family's highest one. */
  lemma LatestIsHighest(db: Db, collection: string, family: string, version: int)
    requires version <= 0
    ensures MaxVersion(db.docs, collection, family) > 0 ==>
              GetDoc(db, collection, family, version) == GetDoc(db, collection, family, MaxVersion(db.docs, collection, family))
    ensures GetDoc(db, collection, family, version) == GetDoc(db, collection, family, 0)
  {
  }

  /** Asking without a version reads the family's last save, row, triggers, links and all; a family never
      saved is not found. */
  lemma LatestIsLastSave(cfg: Config, ops: seq<Op>, collection: string, family: string, version: int)
    requires ValidIdent(collection) && ValidIdent(family) && version <= 0
    ensures var log, db := Log(Exec(cfg, ops).events), Exec(cfg, ops).db;
      && var got := GetDoc(db, collection, family, version);
      && (got.Err? <==> got == Err(NotFound))
      && (got.Err? <==> forall i :: 0 <= i < |log| ==> !OfFamily(log[i], collection, family))
      && |db.docs| == |log|
      && (got.Ok? ==> exists i :: 0 <= i < |log| && OfFamily(log[i], collection, family) && got.value.row == db.docs[i]
                                  && got.value.triggers == log[i].save.triggers && got.value.links == log[i].save.links
                                  && got.value.row.body == log[i].save.body
                                  && forall j :: i < j < |log| ==> !OfFamily(log[j], collection, family))
  {
    hide Refines, MaxVersion, FindDoc, Table, ValidIdent, LinksOf, DecodeTriggers, Exec, Log;
    TablesRefineLog(cfg, ops);
    var log, db := Log(Exec(cfg, ops).events), Exec(cfg, ops).db;
    TableMaxVersion(log, collection, family);
    var n := Count(log, collection, family);
    assert log[..|log|] == log;
    FindDocIsRow(db.docs, collection, family, n);
    forall i | 0 <= i < |log| && OfFamily(log[i], collection, family) ensures 1 <= VersionAt(log, i) <= n {
      CountOfPrefix(log, i, |log|, collection, family);
    }
    if n > 0 {
      var i := RankExists(log, collection, family, n);
      ReadBackIsExact(cfg, ops, i);
      LatestIsHighest(db, collection, family, version);
      forall j | i < j < |log| ensures !OfFamily(log[j], collection, family) {
        if OfFamily(log[j], collection, family) { VersionsFollowOrder(log, i, j); }
      }
    }
  }
}
