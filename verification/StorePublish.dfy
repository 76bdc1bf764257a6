/** Publishing: frozen releases, exact archives, the guarded cut and the clearing of policy rows. */
module StorePublish {
  import opened Wrappers
  import opened Text
  import opened StoreModel
  import opened StoreLog
  import opened StoreOrder
  import opened StoreReleases
  import StoreHistory

  // ---------------------------------------------------------------- paths

  lemma IdentHoldsNoSlash(s: string)
    requires ValidIdent(s)
    ensures '/' !in s && '\0' !in s && s != ""
  {
  }

  lemma {:induction false} BeforeSlashIsPrefix(a: string, rest: string)
    requires '/' !in a
    ensures BeforeSlash(a + ("/" + rest)) == a
  {
    if a == "" {
      assert a + ("/" + rest) == "/" + rest;
    } else {
      assert (a + ("/" + rest))[1..] == a[1..] + ("/" + rest);
      BeforeSlashIsPrefix(a[1..], rest);
    }
  }

  /** Building a path and taking its first element are inverse on valid identifiers. */
  lemma CollectionRecovered(d: DocRow)
    requires ValidIdent(d.collection)
    ensures BeforeSlash(PathOf(d)) == d.collection
  {
    assert PathOf(d) == d.collection + ("/" + (d.family + ".md"));
    BeforeSlashIsPrefix(d.collection, d.family + ".md");
  }

  lemma PathNamesFamily(a: DocRow, b: DocRow)
    requires ValidIdent(a.collection) && ValidIdent(b.collection) && PathOf(a) == PathOf(b)
    ensures SameFamily(a, b)
  {
    CollectionRecovered(a);
    CollectionRecovered(b);
    var n := |a.collection| + 1;
    assert PathOf(a)[n..] == a.family + ".md" && PathOf(b)[n..] == b.family + ".md";
    assert (a.family + ".md")[..|a.family|] == a.family && (b.family + ".md")[..|b.family|] == b.family;
  }

  lemma PathHoldsNoNul(d: DocRow)
    requires ValidIdent(d.collection) && ValidIdent(d.family)
    ensures '\0' !in PathOf(d)
  {
    IdentHoldsNoSlash(d.collection);
    IdentHoldsNoSlash(d.family);
  }

  // ---------------------------------------------------------------- reading a release back

  lemma {:induction false} MemberForFinds(members: seq<MemberRow>, i: nat)
    requires i < |members|
    requires forall j :: 0 <= j < i ==> members[j].docId != members[i].docId
    ensures MemberFor(members, members[i].docId) == Some(members[i])
  {
    if i > 0 { MemberForFinds(members[1..], i - 1); }
  }

  lemma {:induction false} BodyAtFinds(docs: seq<DocRow>, members: seq<MemberRow>, i: nat)
    requires i < |members| && 1 <= members[i].docId <= |docs|
    requires forall j :: 0 <= j < i ==> members[j].path != members[i].path
    ensures BodyAt(docs, members, members[i].path) == Some(docs[members[i].docId - 1].body)
  {
    if i > 0 { BodyAtFinds(docs, members[1..], i - 1); }
  }

  lemma MembersAreDistinct(cfg: Config, docs: seq<DocRow>, members: seq<MemberRow>, i: nat, j: nat)
    requires MembersMatch(cfg, docs, members) && i < j < |members|
    ensures members[i].path != members[j].path && members[i].docId != members[j].docId
  {
    var a, b := docs[members[i].docId - 1], docs[members[j].docId - 1];
    KeyTotal(a, b);
    assert DescribesDoc(cfg, a, members[i]) && DescribesDoc(cfg, b, members[j]);
    if members[i].path == members[j].path { PathNamesFamily(a, b); }
  }

  /** Member `i` of a good release, its document row, and their agreement. */
  lemma MemberAgrees(cfg: Config, db: Db, r: nat, i: nat)
    requires ReleaseOk(cfg, db, r) && i < |MembersOf(db.members, r)|
    ensures var members, rows := MembersOf(db.members, r), RowsOf(db, r);
      && |rows| == |members| && 1 <= members[i].docId <= |db.docs|
      && rows[i] == db.docs[members[i].docId - 1] && DescribesDoc(cfg, rows[i], members[i])
  {
    hide ValidIdent, Closed, KeyLess, PathOf, ReleaseFiles;
    JoinIsPointwise(db.docs, MembersOf(db.members, r));
  }

  lemma RowsAreSorted(cfg: Config, db: Db, r: nat)
    requires ReleaseOk(cfg, db, r)
    ensures StrictlySorted(RowsOf(db, r)) && |RowsOf(db, r)| == |MembersOf(db.members, r)|
  {
    hide ValidIdent, Closed, PathOf, KeyLess, ReleaseFiles;
    JoinIsPointwise(db.docs, MembersOf(db.members, r));
  }

  lemma ManifestRowReadsBack(cfg: Config, db: Db, r: nat, i: nat)
    requires ReleaseOk(cfg, db, r) && i < |RowsOf(db, r)|
    ensures ManifestRow(MembersOf(db.members, r), RowsOf(db, r)[i]) == ManifestDocOf(cfg, RowsOf(db, r)[i])
  {
    var members := MembersOf(db.members, r);
    RowsAreSorted(cfg, db, r);
    MemberAgrees(cfg, db, r, i);
    forall j | 0 <= j < i ensures members[j].docId != members[i].docId { MembersAreDistinct(cfg, db.docs, members, j, i); }
    MemberForFinds(members, i);
  }

  lemma ManifestReadsBack(cfg: Config, db: Db, r: nat)
    requires ReleaseOk(cfg, db, r)
    ensures ReadRelease(db, r) == Ok(Manifest(r, ContentHash(cfg.hash, ReleaseFiles(db, r)), ManifestDocs(cfg, RowsOf(db, r))))
    ensures StrictlySorted(RowsOf(db, r))
  {
    var members, rows := MembersOf(db.members, r), RowsOf(db, r);
    RowsAreSorted(cfg, db, r);
    SortOfSorted(rows);
    forall i | 0 <= i < |rows| ensures ManifestRow(members, rows[i]) == ManifestDocOf(cfg, rows[i]) {
      ManifestRowReadsBack(cfg, db, r, i);
    }
    assert ManifestRows(members, rows) == ManifestDocs(cfg, rows);
  }

  lemma BodyReadsBack(cfg: Config, db: Db, r: nat, i: nat)
    requires ReleaseOk(cfg, db, r) && i < |RowsOf(db, r)|
    ensures var d := RowsOf(db, r)[i]; BodyAt(db.docs, MembersOf(db.members, r), PathOf(d)) == Some(d.body)
  {
    hide Closed, KeyLess, ContentHash, ReleaseFiles, ValidIdent;
    var members := MembersOf(db.members, r);
    RowsAreSorted(cfg, db, r);
    MemberAgrees(cfg, db, r, i);
    forall j | 0 <= j < i ensures members[j].path != members[i].path { MembersAreDistinct(cfg, db.docs, members, j, i); }
    BodyAtFinds(db.docs, members, i);
  }

  lemma {:induction false} ArchiveIsPointwise(cfg: Config, db: Db, r: nat, i: nat)
    requires ReleaseOk(cfg, db, r) && i <= |RowsOf(db, r)|
    ensures ArchiveOf(db.docs, MembersOf(db.members, r), ManifestDocs(cfg, RowsOf(db, r))[i..]) == Ok(ReleaseFiles(db, r)[i..])
    decreases |RowsOf(db, r)| - i
  {
    hide ReleaseOk, RowsOf, BodyAt, MembersOf, PathOf;
    var rows := RowsOf(db, r);
    if i < |rows| {
      var entries, files := ManifestDocs(cfg, rows), ReleaseFiles(db, r);
      BodyReadsBack(cfg, db, r, i);
      ArchiveIsPointwise(cfg, db, r, i + 1);
      assert entries[i..][1..] == entries[i + 1..] && entries[i..][0] == ManifestDocOf(cfg, rows[i]);
      assert files[i..] == [File(PathOf(rows[i]), rows[i].body)] + files[i + 1..];
    } else {
      assert ManifestDocs(cfg, rows)[i..] == [] && ReleaseFiles(db, r)[i..] == [];
    }
  }

  /** The archive of a good release is its documents, in manifest order. */
  lemma ArchiveReadsBack(cfg: Config, db: Db, r: nat)
    requires ReleaseOk(cfg, db, r)
    ensures Archive(db, r) == Ok(ReleaseFiles(db, r))
  {
    ManifestReadsBack(cfg, db, r);
    ArchiveIsPointwise(cfg, db, r, 0);
    assert ManifestDocs(cfg, RowsOf(db, r))[0..] == ManifestDocs(cfg, RowsOf(db, r));
    assert ReleaseFiles(db, r)[0..] == ReleaseFiles(db, r);
  }

  // ---------------------------------------------------------------- frozen and self-verifying

  /** A successful cut returns the manifest that reading its release gives back. */
  lemma CutReturnsStoredManifest(cfg: Config, ops: seq<Op>, expected: string, editor: string)
    requires Cut(cfg, Exec(cfg, ops).db, expected, editor).result.Ok?
    ensures var o := Cut(cfg, Exec(cfg, ops).db, expected, editor);
      && ReadRelease(o.db, o.result.value.releaseId) == Ok(o.result.value) && CurrentRelease(o.db) == Ok(o.result.value)
      && Preview(cfg, Exec(cfg, ops).db) == Ok(o.result.value.(releaseId := 0))
  {
    hide AllReleasesOk, DocsSound, ReleaseOk, CandidateRows, StrictlySorted;
    var db := Exec(cfg, ops).db;
    RunDocsSound(cfg, ops);
    ReleasesAreSound(cfg, ops);
    CutStoresCandidate(cfg, db, expected, editor);
    CutStoresGoodRelease(cfg, db, expected, editor);
    ManifestReadsBack(cfg, Cut(cfg, db, expected, editor).db, |db.releases| + 1);
  }

  /** Frozen: whatever is saved, cut, resolved or flagged later, a release reads back with the same
      manifest (paths, versions, hashes, order) and the same archive, and hashing that archive still
      gives the stored content hash. */
  lemma ReleasesAreFrozen(cfg: Config, ops: seq<Op>, more: seq<Op>, r: nat)
    requires 1 <= r <= |Exec(cfg, ops).db.releases|
    ensures var a, b := Exec(cfg, ops).db, Exec(cfg, ops + more).db;
      && ReadRelease(b, r).Ok? && ReadRelease(b, r) == ReadRelease(a, r)
      && Archive(b, r).Ok? && Archive(b, r) == Archive(a, r)
      && ContentHash(cfg.hash, Archive(b, r).value) == ReadRelease(a, r).value.contentHash
  {
    var a, b := Exec(cfg, ops).db, Exec(cfg, ops + more).db;
    ReleasesAreSound(cfg, ops);
    RunExtends(cfg, ops, more);
    assert ReleaseOk(cfg, a, r);
    GoodReleaseIsFrozen(cfg, a, b, r);
  }

  lemma GoodReleaseIsFrozen(cfg: Config, a: Db, b: Db, r: nat)
    requires ReleaseOk(cfg, a, r) && Extends(a, b)
    ensures ReadRelease(a, r).Ok? && ReadRelease(b, r) == ReadRelease(a, r)
    ensures Archive(a, r) == Ok(ReleaseFiles(a, r)) && Archive(b, r) == Archive(a, r)
    ensures ContentHash(cfg.hash, ReleaseFiles(a, r)) == ReadRelease(a, r).value.contentHash
  {
    ReleaseSurvives(cfg, a, b, r);
    FilesSurvive(cfg, a, b, r);
    ManifestReadsBack(cfg, a, r);
    ManifestReadsBack(cfg, b, r);
    ArchiveReadsBack(cfg, a, r);
    ArchiveReadsBack(cfg, b, r);
    ManifestDocsSurvive(cfg, a, b, r);
  }

  lemma ManifestDocsSurvive(cfg: Config, a: Db, b: Db, r: nat)
    requires ReleaseOk(cfg, a, r) && ReleaseOk(cfg, b, r) && Extends(a, b)
    ensures ManifestDocs(cfg, RowsOf(b, r)) == ManifestDocs(cfg, RowsOf(a, r))
  {
    hide DescribesDoc, LinksOf, Closed, KeyLess, ReleaseFiles;
    RowsAreSorted(cfg, a, r);
    RowsAreSorted(cfg, b, r);
    forall i | 0 <= i < |RowsOf(a, r)| ensures SameButStatus(RowsOf(a, r)[i], RowsOf(b, r)[i]) {
      MemberAgrees(cfg, a, r, i);
      MemberAgrees(cfg, b, r, i);
    }
  }

  /** Closed: in every run, for every release, each `reference` link of a member version targets a
      member version, and no member version is what another member's `supersedes` link targets. */
  lemma ReleasesAreClosed(cfg: Config, ops: seq<Op>, r: nat, i: nat, l: DocLink)
    requires var db := Exec(cfg, ops).db;
      1 <= r <= |db.releases| && i < |RowsOf(db, r)| && l in LinksOf(db.links, RowsOf(db, r)[i].id)
    ensures var rows := RowsOf(Exec(cfg, ops).db, r);
      && (l.relation == "reference" ==> exists j :: 0 <= j < |rows| && IsTarget(rows[j], l))
      && (l.relation == "supersedes" ==> forall j :: 0 <= j < |rows| ==> !IsTarget(rows[j], l))
  {
    hide Exec, ReleaseOk, Closed, MembersOf, JoinDocs, LinksOf, IsTarget;
    var db := Exec(cfg, ops).db;
    ReleasesAreSound(cfg, ops);
    assert ReleaseOk(cfg, db, r);
    GoodReleaseIsClosed(cfg, db, r);
    ClosedRows(db, MembersOf(db.members, r), i, l);
  }

  lemma GoodReleaseIsClosed(cfg: Config, db: Db, r: nat)
    requires ReleaseOk(cfg, db, r)
    ensures var members := MembersOf(db.members, r);
      && Closed(db, members)
      && forall i :: 0 <= i < |members| ==> 1 <= members[i].docId <= |db.docs| && db.docs[members[i].docId - 1].id == members[i].docId
  {
  }

  lemma ClosedRows(db: Db, members: seq<MemberRow>, i: nat, l: DocLink)
    requires Closed(db, members)
    requires forall j :: 0 <= j < |members| ==> 1 <= members[j].docId <= |db.docs| && db.docs[members[j].docId - 1].id == members[j].docId
    requires i < |JoinDocs(db.docs, members)| && l in LinksOf(db.links, JoinDocs(db.docs, members)[i].id)
    ensures var rows := JoinDocs(db.docs, members);
      && (l.relation == "reference" ==> exists j :: 0 <= j < |rows| && IsTarget(rows[j], l))
      && (l.relation == "supersedes" ==> forall j :: 0 <= j < |rows| ==> !IsTarget(rows[j], l))
  {
    JoinIsPointwise(db.docs, members);
    assert l in LinksOf(db.links, members[i].docId);
    MembershipIsTargeting(db.docs, members, l);
  }

  lemma MembershipIsTargeting(docs: seq<DocRow>, members: seq<MemberRow>, l: DocLink)
    requires forall i :: 0 <= i < |members| ==> 1 <= members[i].docId <= |docs|
    ensures HasMember(docs, members, l) <==>
            exists j :: 0 <= j < |JoinDocs(docs, members)| && IsTarget(JoinDocs(docs, members)[j], l)
  {
    JoinIsPointwise(docs, members);
  }

  // ---------------------------------------------------------------- guarded publish

  /** No two different strings of this set share a hash. */
  ghost predicate CollisionFree(hash: string -> Digest, inputs: set<string>) {
    forall x, y :: x in inputs && y in inputs && hash(x) == hash(y) ==> x == y
  }

  function Bodies(files: seq<File>): set<string> {
    set i | 0 <= i < |files| :: files[i].body
  }

  lemma {:induction false} NulSplits(p: string, q: string, s: string, t: string)
    requires '\0' !in p && '\0' !in q && p + "\0" + s == q + "\0" + t
    ensures p == q && s == t
  {
    var u, v := p + "\0" + s, q + "\0" + t;
    assert u[|p|] == v[|q|] == '\0';
    assert p == u[..|p|] && q == v[..|q|];
    assert s == u[|p| + 1..] && t == v[|q| + 1..];
  }

  lemma ContentBytesCons(hash: string -> Digest, f: File, rest: seq<File>)
    ensures ContentBytes(hash, [f] + rest) == f.path + "\0" + (hash(f.body) + ContentBytes(hash, rest))
  {
    assert ([f] + rest)[1..] == rest;
    assert f.path + "\0" + hash(f.body) + ContentBytes(hash, rest) == f.path + "\0" + (hash(f.body) + ContentBytes(hash, rest));
  }

  lemma ContentBytesEmpty(hash: string -> Digest, files: seq<File>)
    ensures ContentBytes(hash, files) == "" <==> files == []
  {
    if files != [] { assert |ContentBytes(hash, files)| >= 1; }
  }

  /** NUL-terminated paths with 32-byte digests decode uniquely. */
  lemma {:induction false} ContentBytesDecode(hash: string -> Digest, a: seq<File>, b: seq<File>)
    requires forall f :: f in a || f in b ==> '\0' !in f.path
    requires ContentBytes(hash, a) == ContentBytes(hash, b)
    ensures |a| == |b|
    ensures forall i :: 0 <= i < |a| ==> a[i].path == b[i].path && hash(a[i].body) == hash(b[i].body)
  {
    if a != [] && b != [] {
      ContentBytesCons(hash, a[0], a[1..]);
      ContentBytesCons(hash, b[0], b[1..]);
      assert a == [a[0]] + a[1..] && b == [b[0]] + b[1..];
      var s, t := hash(a[0].body) + ContentBytes(hash, a[1..]), hash(b[0].body) + ContentBytes(hash, b[1..]);
      NulSplits(a[0].path, b[0].path, s, t);
      assert s[..32] == hash(a[0].body) && t[..32] == hash(b[0].body);
      assert s[32..] == ContentBytes(hash, a[1..]) && t[32..] == ContentBytes(hash, b[1..]);
      ContentBytesDecode(hash, a[1..], b[1..]);
    } else {
      ContentBytesEmpty(hash, a);
      ContentBytesEmpty(hash, b);
    }
  }

  /** Equal content hashes mean equal documents, unless SHA-256 collides on what was hashed. */
  lemma EqualHashEqualFiles(hash: string -> Digest, a: seq<File>, b: seq<File>)
    requires forall f :: f in a || f in b ==> '\0' !in f.path
    requires CollisionFree(hash, {ContentBytes(hash, a), ContentBytes(hash, b)} + Bodies(a) + Bodies(b))
    requires ContentHash(hash, a) == ContentHash(hash, b)
    ensures a == b
  {
    HashTextInjective(hash(ContentBytes(hash, a)), hash(ContentBytes(hash, b)));
    ContentBytesDecode(hash, a, b);
    forall i | 0 <= i < |a| ensures a[i] == b[i] {
      assert a[i].body in Bodies(a) && b[i].body in Bodies(b);
    }
  }

  lemma CandidateFilesHoldNoNul(cfg: Config, ops: seq<Op>)
    ensures forall f :: f in FilesOf(CandidateRows(cfg, Exec(cfg, ops).db.docs)) ==> '\0' !in f.path
  {
    var db := Exec(cfg, ops).db;
    var rows := CandidateRows(cfg, db.docs);
    RunDocsSound(cfg, ops);
    forall f | f in FilesOf(rows) ensures '\0' !in f.path {
      var i :| 0 <= i < |rows| && FilesOf(rows)[i] == f;
      CandidateRowIsDoc(cfg, db, i);
      PathHoldsNoNul(rows[i]);
    }
  }

  /** Guarded publish: a cut guarded by a hash previewed after `ops` that succeeds after any further
      `more` publishes exactly the previewed paths and bodies, and the links and caps hold at the
      moment of the cut. */
  lemma GuardedCutPublishesPreview(cfg: Config, ops: seq<Op>, more: seq<Op>, editor: string)
    requires Preview(cfg, Exec(cfg, ops).db).Ok?
    requires Cut(cfg, Exec(cfg, ops + more).db, Preview(cfg, Exec(cfg, ops).db).value.contentHash, editor).result.Ok?
    requires var a, b := FilesOf(CandidateRows(cfg, Exec(cfg, ops).db.docs)), FilesOf(CandidateRows(cfg, Exec(cfg, ops + more).db.docs));
      CollisionFree(cfg.hash, {ContentBytes(cfg.hash, a), ContentBytes(cfg.hash, b)} + Bodies(a) + Bodies(b))
    ensures var previewed := FilesOf(CandidateRows(cfg, Exec(cfg, ops).db.docs)); var db := Exec(cfg, ops + more).db;
      var o := Cut(cfg, db, Preview(cfg, Exec(cfg, ops).db).value.contentHash, editor);
      && Archive(o.db, o.result.value.releaseId) == Ok(previewed)
      && forall d :: d in db.docs && Selected(cfg, d) ==> RowPasses(cfg, db, d)
  {
    var before, db := Exec(cfg, ops).db, Exec(cfg, ops + more).db;
    var a, b := FilesOf(CandidateRows(cfg, before.docs)), FilesOf(CandidateRows(cfg, db.docs));
    var expected := Preview(cfg, before).value.contentHash;
    CandidateFilesHoldNoNul(cfg, ops);
    CandidateFilesHoldNoNul(cfg, ops + more);
    CutArchivesCandidate(cfg, ops + more, expected, editor);
    CutOutcomes(cfg, db, expected, editor);
    CandidateIsRows(cfg, before);
    EqualHashEqualFiles(cfg.hash, a, b);
    CandidateAcceptsExactly(cfg, ops + more);
  }

  lemma CandidateIsRows(cfg: Config, db: Db)
    ensures Candidate(cfg, db).Ok? ==> Candidate(cfg, db).value == CandidateRows(cfg, db.docs)
  {
  }

  lemma CutArchivesCandidate(cfg: Config, ops: seq<Op>, expected: string, editor: string)
    requires Cut(cfg, Exec(cfg, ops).db, expected, editor).result.Ok?
    ensures var db := Exec(cfg, ops).db; var o := Cut(cfg, db, expected, editor);
      && Candidate(cfg, db) == Ok(CandidateRows(cfg, db.docs))
      && Archive(o.db, o.result.value.releaseId) == Ok(FilesOf(CandidateRows(cfg, db.docs)))
  {
    hide AllReleasesOk, DocsSound, ReleaseOk, Archive, CandidateRows;
    var db := Exec(cfg, ops).db;
    RunDocsSound(cfg, ops);
    ReleasesAreSound(cfg, ops);
    CutStoresCandidate(cfg, db, expected, editor);
    CutStoresGoodRelease(cfg, db, expected, editor);
    ArchiveReadsBack(cfg, Cut(cfg, db, expected, editor).db, |db.releases| + 1);
  }

  /** The whole outcome of a cut: lint failures record one policy row and nothing else, an empty
      candidate or a changed one changes nothing, and success leaves documents and links alone. */
  lemma CutOutcomes(cfg: Config, db: Db, expected: string, editor: string)
    ensures var o := Cut(cfg, db, expected, editor); var c := Candidate(cfg, db);
      && (o.result.Ok? <==> c.Ok? && (expected == "" || expected == CandidateHash(cfg, c.value)))
      && (c == Err(EmptyRelease) ==> o == Outcome(db, Err(EmptyRelease)))
      && (c.Ok? && o.result.Err? ==> o == Outcome(db, Err(Conflict)))
      && (o.result.Ok? ==> o.db.docs == db.docs && o.db.links == db.links && o.db.resync == db.resync && o.db.heartbeats == db.heartbeats)
      && (o.result.Err? ==> o.db == db.(conflicts := o.db.conflicts))
  {
  }

  /** A preview is the dry run of an unguarded cut: Ok exactly when that cut would be, with the same
      hash and lines, and otherwise the very lint or emptiness that cut reports. */
  lemma PreviewForetellsCut(cfg: Config, db: Db, editor: string)
    ensures Preview(cfg, db) ==
            match Cut(cfg, db, "", editor).result
            case Ok(m) => Ok(m.(releaseId := 0))
            case Err(e) => Err(if e.Recorded? then e.cause else e)
    ensures Preview(cfg, db).Err? ==> !Preview(cfg, db).error.Recorded?
  {
    hide CandidateRows, FirstKernelLint, FirstLinkLint, CandidateHash, ManifestDocs, MemberRows, ClearPolicies;
  }

  /** In every run, exactly when something is selected and everything selected passes the lints. */
  lemma PreviewAcceptsExactly(cfg: Config, ops: seq<Op>)
    ensures var db := Exec(cfg, ops).db;
      Preview(cfg, db).Ok? <==>
      (exists d :: d in db.docs && Selected(cfg, d)) && forall d :: d in db.docs && Selected(cfg, d) ==> RowPasses(cfg, db, d)
  {
    hide Candidate, RowPasses, Selected, CandidateHash, ManifestDocs;
    CandidateAcceptsExactly(cfg, ops);
  }

  // ---------------------------------------------------------------- what a manifest says

  /** Releases are found by the ids 1 to the newest; the current one is the newest. */
  lemma ReleasesFoundExactly(cfg: Config, ops: seq<Op>, id: int)
    ensures var db := Exec(cfg, ops).db;
      && (ReadRelease(db, id).Ok? <==> 1 <= id <= |db.releases|) && (ReadRelease(db, id).Err? ==> ReadRelease(db, id) == Err(NotFound))
      && (ReadRelease(db, id).Ok? ==> ReadRelease(db, id).value.releaseId == id)
      && (Archive(db, id).Ok? <==> 1 <= id <= |db.releases|) && (Archive(db, id).Err? ==> Archive(db, id) == Err(NotFound))
      && (CurrentRelease(db).Ok? <==> |db.releases| > 0)
      && (CurrentRelease(db).Ok? ==> CurrentRelease(db).value.releaseId == |db.releases|)
  {
    hide ArchiveOf, MembersOf, JoinDocs, Sort, ManifestRows, ReleaseOk, Exec;
    ReleasesAreSound(cfg, ops);
    if 1 <= id <= |Exec(cfg, ops).db.releases| { ArchiveReadsBack(cfg, Exec(cfg, ops).db, id); }
  }

  /** A manifest describes its archive: line by line the same path, the hash of the body, and a family and
      version that, looked up in the path's collection, give that body. */
  lemma ManifestDescribesArchive(cfg: Config, ops: seq<Op>, r: nat, i: nat)
    requires 1 <= r <= |Exec(cfg, ops).db.releases|
    ensures var db := Exec(cfg, ops).db;
      && ReadRelease(db, r).Ok? && Archive(db, r).Ok? && |ReadRelease(db, r).value.docs| == |Archive(db, r).value|
      && (i < |Archive(db, r).value| ==>
            && var line, file := ReadRelease(db, r).value.docs[i], Archive(db, r).value[i];
            && line.path == file.path && line.sha256 == Hex(cfg.hash(file.body))
            && var got := GetDoc(db, BeforeSlash(line.path), line.family, line.version);
            && got.Ok? && got.value.row.body == file.body && line.path == got.value.row.collection + "/" + line.family + ".md")
  {
    hide Exec, ReleaseOk, ManifestDocs, FilesOf, ReadRelease, Archive, RowsOf, BeforeSlash, ValidIdent, FindDoc, MaxVersion, LinksOf, DecodeTriggers, DocsSound;
    var db := Exec(cfg, ops).db;
    ReleasesAreSound(cfg, ops);
    ManifestReadsBack(cfg, db, r);
    ArchiveReadsBack(cfg, db, r);
    if i < |RowsOf(db, r)| {
      var d := RowsOf(db, r)[i];
      RowsAreSorted(cfg, db, r);
      MemberAgrees(cfg, db, r, i);
      CollectionRecovered(d);
      RowIsFound(cfg, ops, d);
    }
  }

  lemma RowIsFound(cfg: Config, ops: seq<Op>, d: DocRow)
    requires d in Exec(cfg, ops).db.docs && ValidIdent(d.collection) && ValidIdent(d.family)
    ensures d.version > 0 && GetDoc(Exec(cfg, ops).db, d.collection, d.family, d.version).Ok?
    ensures GetDoc(Exec(cfg, ops).db, d.collection, d.family, d.version).value.row == d
  {
    var docs := Exec(cfg, ops).db.docs;
    var k :| 0 <= k < |docs| && docs[k] == d;
    StoreHistory.VersionsAreDense(cfg, ops, d.collection, d.family, d.version);
    StoreHistory.FindDocFinds(docs, k);
  }

  // ---------------------------------------------------------------- clearing policy rows

  lemma VersionsByFamilySnoc(cfg: Config, rows: seq<DocRow>, d: DocRow)
    requires ValidIdent(d.collection)
    ensures VersionsByFamily(ManifestDocs(cfg, rows + [d])) ==
            VersionsByFamily(ManifestDocs(cfg, rows))[(d.collection, d.family) := d.version]
  {
    CollectionRecovered(d);
    var lines := ManifestDocs(cfg, rows + [d]);
    assert lines[..|lines| - 1] == ManifestDocs(cfg, rows);
  }

  lemma {:induction false} VersionsByFamilyFinds(cfg: Config, rows: seq<DocRow>, collection: string, family: string)
    requires forall i :: 0 <= i < |rows| ==> ValidIdent(rows[i].collection)
    requires DistinctFamilies(rows)
    ensures var versions := VersionsByFamily(ManifestDocs(cfg, rows));
      && ((collection, family) in versions <==> exists i :: 0 <= i < |rows| && InFamily(rows[i], collection, family))
      && forall i :: 0 <= i < |rows| && InFamily(rows[i], collection, family) ==>
           (collection, family) in versions && versions[(collection, family)] == rows[i].version
  {
    if rows == [] {
      assert ManifestDocs(cfg, rows) == [];
    } else {
      hide VersionsByFamily, ManifestDocs, ValidIdent;
      var init, d := rows[..|rows| - 1], rows[|rows| - 1];
      assert rows == init + [d];
      VersionsByFamilyFinds(cfg, init, collection, family);
      VersionsByFamilySnoc(cfg, init, d);
      forall i | 0 <= i < |init| ensures rows[i] == init[i] && !SameFamily(init[i], d) {}
    }
  }

  /** A successful cut resolves every open policy row, with the version its family has in the new
      release (0 when the family is not in it), and leaves edit, claim and resolved rows alone. */
  lemma CutClearsPolicies(cfg: Config, ops: seq<Op>, expected: string, editor: string, k: nat)
    requires Cut(cfg, Exec(cfg, ops).db, expected, editor).result.Ok?
    requires k < |Exec(cfg, ops).db.conflicts|
    ensures var o := Cut(cfg, Exec(cfg, ops).db, expected, editor);
      var before, after := Exec(cfg, ops).db.conflicts[k], o.db.conflicts;
      && |after| == |Exec(cfg, ops).db.conflicts|
      && (before.kind != Policy || before.resolved ==> after[k] == before)
      && (before.kind == Policy && !before.resolved ==>
            && after[k] == ResolvedRow(before, editor, ClearedBy(o.result.value.releaseId), after[k].winningVersion)
            && var rows := RowsOf(o.db, o.result.value.releaseId);
            && (forall i :: 0 <= i < |rows| && InFamily(rows[i], before.collection, before.family) ==>
                  after[k].winningVersion == rows[i].version)
            && ((forall i :: 0 <= i < |rows| ==> !InFamily(rows[i], before.collection, before.family)) ==>
                  after[k].winningVersion == 0))
  {
    hide AllReleasesOk, DocsSound, ValidIdent, CandidateRows, VersionsByFamily;
    var db := Exec(cfg, ops).db;
    var rows := CandidateRows(cfg, db.docs);
    RunDocsSound(cfg, ops);
    ReleasesAreSound(cfg, ops);
    CutStoresCandidate(cfg, db, expected, editor);
    CandidateIsSorted(cfg, db.docs);
    forall i | 0 <= i < |rows| ensures ValidIdent(rows[i].collection) { CandidateRowIsDoc(cfg, db, i); }
    forall i, j | 0 <= i < j < |rows| ensures !SameFamily(rows[i], rows[j]) { KeyTotal(rows[i], rows[j]); }
    VersionsByFamilyFinds(cfg, rows, db.conflicts[k].collection, db.conflicts[k].family);
  }
}
