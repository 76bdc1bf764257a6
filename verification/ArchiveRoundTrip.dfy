/** What the server archives, the subscriber extracts: the same files with the same hash. */
module ArchiveRoundTrip {
  import opened Wrappers
  import opened Text
  import opened StoreModel
  import opened StoreLog
  import opened StoreOrder
  import opened StoreReleases
  import opened StorePublish
  import opened Extraction

  function TarOf(files: seq<File>): (r: seq<Entry>)
    ensures |r| == |files|
    ensures forall i :: 0 <= i < |files| ==> r[i] == Entry(files[i].path, true, files[i].body)
  {
    seq(|files|, i requires 0 <= i < |files| => Entry(files[i].path, true, files[i].body))
  }

  function PathsOf(files: seq<File>): (r: seq<string>)
    ensures |r| == |files|
    ensures forall i :: 0 <= i < |files| ==> r[i] == files[i].path
  {
    seq(|files|, i requires 0 <= i < |files| => files[i].path)
  }

  /** The tree that holds exactly these files. */
  function TreeOf(files: seq<File>): Tree {
    Overlay(map[], TarOf(files))
  }

  /** A list of files that can be laid out side by side. */
  ghost predicate Layable(files: seq<File>) {
    && (forall i :: 0 <= i < |files| ==> SafeName(files[i].path) && |Components(files[i].path)| == 2)
    && (forall i, j :: 0 <= i < j < |files| ==> Components(files[i].path) != Components(files[j].path))
  }

  lemma PathSplits(d: DocRow)
    requires ValidIdent(d.collection) && ValidIdent(d.family)
    ensures Split(PathOf(d), '/') == [d.collection, d.family + ".md"]
  {
    var parts := [d.collection, d.family + ".md"];
    assert PathOf(d) == Join(parts, '/') by {
      assert parts[1..] == [d.family + ".md"];
      assert Join(parts, '/') == d.collection + ['/'] + (d.family + ".md");
    }
    SplitOfJoin(parts, '/');
  }

  lemma PathIsSafe(d: DocRow)
    requires ValidIdent(d.collection) && ValidIdent(d.family)
    ensures SafeName(PathOf(d)) && Components(PathOf(d)) == [d.collection, d.family + ".md"]
  {
    PathSplits(d);
    var parts := [d.collection, d.family + ".md"];
    assert PathOf(d)[0] == d.collection[0];
    assert d.collection != ".." && d.collection != "." && |d.family + ".md"| > 3;
    assert parts[1..] == [d.family + ".md"] && parts[1..][1..] == [];
    assert Kept(parts) == [d.collection] + Kept(parts[1..]);
    assert Kept(parts[1..]) == [d.family + ".md"] + Kept([]);
  }

  lemma ReleaseIsLayable(cfg: Config, db: Db, r: nat)
    requires ReleaseOk(cfg, db, r)
    ensures Layable(ReleaseFiles(db, r)) && ReleaseFiles(db, r) != []
  {
    var rows, files := RowsOf(db, r), ReleaseFiles(db, r);
    RowsAreSorted(cfg, db, r);
    forall i | 0 <= i < |rows|
      ensures SafeName(files[i].path) && Components(files[i].path) == [rows[i].collection, rows[i].family + ".md"]
    {
      MemberAgrees(cfg, db, r, i);
      PathIsSafe(rows[i]);
    }
    forall i, j | 0 <= i < j < |files| ensures Components(files[i].path) != Components(files[j].path) {
      KeyTotal(rows[i], rows[j]);
      if Components(files[i].path) == Components(files[j].path) { SameSuffix(rows[i].family, rows[j].family, ".md"); }
    }
  }

  lemma SameSuffix(a: string, b: string, suffix: string)
    ensures a + suffix == b + suffix ==> a == b
  {
    if a + suffix == b + suffix { assert (a + suffix)[..|a|] == a && (b + suffix)[..|b|] == b; }
  }

  lemma {:induction false} LayableTree(files: seq<File>, i: nat)
    requires Layable(files) && i < |files|
    ensures var p := Components(files[i].path); p in TreeOf(files) && TreeOf(files)[p] == files[i].body
  {
    var n := |files| - 1;
    assert TarOf(files)[..n] == TarOf(files[..n]);
    if i < n { LayableTree(files[..n], i); }
  }

  lemma TreeKeys(files: seq<File>, p: Path)
    ensures p in TreeOf(files) <==> exists i :: 0 <= i < |files| && Components(files[i].path) == p
  {
    OverlayHolds(map[], TarOf(files), p);
    if i :| 0 <= i < |files| && Components(files[i].path) == p { assert Components(TarOf(files)[i].name) == p; }
  }

  lemma LayableWantSet(files: seq<File>)
    requires Layable(files)
    ensures WantSet(PathsOf(files)) == Some(set p | p in PathsOf(files))
  {
    forall p | p in PathsOf(files) ensures SafeName(p) {
      var i :| 0 <= i < |files| && PathsOf(files)[i] == p;
    }
  }

  lemma LayableExtracts(files: seq<File>)
    requires Layable(files)
    ensures ExtractTar(TarOf(files), set p | p in PathsOf(files)) == Some(TreeOf(files))
  {
    var want := set p | p in PathsOf(files);
    var entries := TarOf(files);
    forall i | 0 <= i < |entries| ensures Admits(want, entries[i]) {
      assert PathsOf(files)[i] == entries[i].name;
    }
    forall w | w in want ensures Occurs(entries, w) {
      var i :| 0 <= i < |files| && PathsOf(files)[i] == w;
      assert entries[i].name == w;
    }
    assert Disjoint(map[], entries);
    ExtractFromDecides(map[], {}, entries, want);
  }

  lemma {:induction false} ReadFilesBack(tree: Tree, files: seq<File>)
    requires forall i :: 0 <= i < |files| ==> Components(files[i].path) in tree && tree[Components(files[i].path)] == files[i].body
    ensures ReadFiles(tree, PathsOf(files)) == Some(files)
  {
    if files != [] {
      assert PathsOf(files)[1..] == PathsOf(files[1..]);
      ReadFilesBack(tree, files[1..]);
      assert files == [files[0]] + files[1..];
    }
  }

  lemma LayableRehashes(hash: string -> Digest, files: seq<File>)
    requires Layable(files)
    ensures RecomputeHash(hash, TreeOf(files), PathsOf(files)) == Some(ContentHash(hash, files))
  {
    forall i | 0 <= i < |files|
      ensures Components(files[i].path) in TreeOf(files) && TreeOf(files)[Components(files[i].path)] == files[i].body
    {
      LayableTree(files, i);
    }
    ReadFilesBack(TreeOf(files), files);
  }

  /** What the subscriber learns from a manifest: its paths, in order. */
  function WirePaths(docs: seq<ManifestDoc>): (r: seq<string>)
    ensures |r| == |docs|
    ensures forall i :: 0 <= i < |docs| ==> r[i] == docs[i].path
  {
    seq(|docs|, i requires 0 <= i < |docs| => docs[i].path)
  }

  /** Round trip: in every run, for every release, extracting its archive against its manifest
      succeeds, rebuilds exactly the archived path-to-body map, and hashing the rebuilt tree in
      manifest order gives the advertised content hash. */
  lemma ArchiveExtractsExactly(cfg: Config, ops: seq<Op>, r: nat)
    requires 1 <= r <= |Exec(cfg, ops).db.releases|
    ensures var db := Exec(cfg, ops).db;
      && Archive(db, r).Ok? && ReadRelease(db, r).Ok?
      && var files, m := Archive(db, r).value, ReadRelease(db, r).value;
      && WantSet(WirePaths(m.docs)) == Some(set p | p in WirePaths(m.docs))
      && ExtractTar(TarOf(files), set p | p in WirePaths(m.docs)) == Some(TreeOf(files))
      && RecomputeHash(cfg.hash, TreeOf(files), WirePaths(m.docs)) == Some(m.contentHash)
      && (forall i :: 0 <= i < |files| ==>
            Components(files[i].path) in TreeOf(files) && TreeOf(files)[Components(files[i].path)] == files[i].body)
      && (forall p :: p in TreeOf(files) ==> exists i :: 0 <= i < |files| && Components(files[i].path) == p)
  {
    var db := Exec(cfg, ops).db;
    ReleasesAreSound(cfg, ops);
    ReleaseOnWire(cfg, db, r);
    var files := ReleaseFiles(db, r);
    LayableWantSet(files);
    LayableExtracts(files);
    LayableRehashes(cfg.hash, files);
    forall i | 0 <= i < |files| { LayableTree(files, i); }
    forall p | p in TreeOf(files) { TreeKeys(files, p); }
  }

  lemma ReleaseOnWire(cfg: Config, db: Db, r: nat)
    requires ReleaseOk(cfg, db, r)
    ensures Archive(db, r) == Ok(ReleaseFiles(db, r)) && ReadRelease(db, r).Ok?
    ensures WirePaths(ReadRelease(db, r).value.docs) == PathsOf(ReleaseFiles(db, r))
    ensures ReadRelease(db, r).value.contentHash == ContentHash(cfg.hash, ReleaseFiles(db, r))
    ensures ReadRelease(db, r).value.releaseId == r
    ensures Layable(ReleaseFiles(db, r))
  {
    ArchiveReadsBack(cfg, db, r);
    ManifestReadsBack(cfg, db, r);
    ReleaseIsLayable(cfg, db, r);
  }
}
