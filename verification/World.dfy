/** One subscriber against the store, in every interleaving.

    The server serves any operations in between; responses may be lost or cut short, steps may fail
    or kill the process, heartbeats may be lost, delayed or delivered again. The only assumption is
    that what does arrive is what the store answered and that nobody else writes the host's files. */
module World {
  import opened Wrappers
  import opened Text
  import opened StoreModel
  import opened StoreLog
  import opened StoreReleases
  import opened StorePublish
  import opened Extraction
  import opened ArchiveRoundTrip
  import opened SubscriberModel

  datatype World = World(ops: seq<Op>, sub: Sub, sent: seq<Beacon>)

  datatype Act = Serve(op: Op) | Local(input: Input) | Deliver(k: nat, error: string)

  /** `GET /api/releases/current?host=<host>`. */
  function CurrentReply(db: Db, host: string): Option<Current> {
    match CurrentRelease(db)
    case Err(_) => None
    case Ok(m) => Some(Current(m.releaseId, m.contentHash, WirePaths(m.docs), host in db.resync))
  }

  /** Responses come from the store; an archive stream may break off early. */
  predicate Honest(db: Db, host: string, s: Sub, i: Input) {
    match i
    case Reply(cur) => CurrentReply(db, host) == Some(cur)
    case Stream(entries, whole) =>
      (match Archive(db, s.pass.cur.id)
       case Err(_) => false
       case Ok(files) => entries <= TarOf(files) && (whole ==> entries == TarOf(files)))
    case _ => true
  }

  /** A heartbeat as the server receives it; a failed pass says why in words of its own. */
  function Arrival(host: string, b: Beacon, error: string): Op {
    Beat(host, b.id, b.ok, if b.ok then "" else error, b.ack)
  }

  function Emitted(s: Sub, i: Input): seq<Beacon> {
    match Emits(s, i) case None => [] case Some(b) => [b]
  }

  /** Acts that cannot happen (a dishonest response, another sender's heartbeat in this host's name)
      leave the world as it is. */
  function Turn(cfg: Config, host: string, w: World, act: Act): World {
    match act
    case Serve(op) => if op.Beat? && op.host == host then w else w.(ops := w.ops + [op])
    case Local(i) =>
      if !Honest(Exec(cfg, w.ops).db, host, w.sub, i) then w
      else World(w.ops, Tick(cfg.hash, w.sub, i), w.sent + Emitted(w.sub, i))
    case Deliver(k, error) => if k < |w.sent| then w.(ops := w.ops + [Arrival(host, w.sent[k], error)]) else w
  }

  const EMPTY_FS := Fs(None, None, map[], map[])

  const START := World([], Sub(EMPTY_FS, 1, Idle, NewPass(NOTHING_YET, EMPTY_FS)), [])

  /** The world after any acts. */
  function Play(cfg: Config, host: string, acts: seq<Act>): World {
    if acts == [] then START else Turn(cfg, host, Play(cfg, host, acts[..|acts| - 1]), acts[|acts| - 1])
  }

  // ---------------------------------------------------------------- what the host's files mean

  ghost predicate IsDirOf(name: string, id: int) {
    exists n: nat :: name == DirName(id, n)
  }

  function FilesAt(db: Db, id: int): seq<File>
    requires 1 <= id <= |db.releases|
  {
    ReleaseFiles(db, id)
  }

  ghost predicate HoldsRelease(db: Db, name: string, tree: Tree, id: int) {
    1 <= id <= |db.releases| && IsDirOf(name, id) && tree == TreeOf(FilesAt(db, id))
  }

  /** A temporary directory only ever holds paths of its own release. */
  ghost predicate HoldsPart(db: Db, name: string, tree: Tree, id: int, pid: nat) {
    1 <= id <= |db.releases| && name == TempName(id, pid) && forall p :: p in tree ==> p in TreeOf(FilesAt(db, id))
  }

  ghost predicate DirsOk(db: Db, dirs: map<string, Tree>) {
    && (forall name :: name in dirs && !IsTemp(name) ==> exists id :: HoldsRelease(db, name, dirs[name], id))
    && (forall name :: name in dirs && IsTemp(name) ==> exists id, pid :: HoldsPart(db, name, dirs[name], id, pid))
  }

  /** `corpus` points at an installed directory of release `id`. */
  ghost predicate At(fs: Fs, id: int) {
    fs.corpus.Some? && fs.corpus.value in fs.dirs && IsDirOf(fs.corpus.value, id)
  }

  ghost predicate AtLeast(fs: Fs, id: int) {
    exists id' :: id <= id' && At(fs, id')
  }

  /** The marker, torn or whole, names a release no newer than the one `corpus` points at. */
  ghost predicate Wrote(db: Db, fs: Fs, text: string, id: int, n: nat) {
    1 <= id <= |db.releases| && text == Prefix(MarkerText(id, db.releases[id - 1].contentHash), n) && AtLeast(fs, id)
  }

  ghost predicate FsOk(db: Db, fs: Fs) {
    && DirsOk(db, fs.dirs)
    && (fs.corpus.Some? ==> exists id :: At(fs, id))
    && (fs.applied.Some? ==> exists id, n :: Wrote(db, fs, fs.applied.value, id, n))
  }

  // ---------------------------------------------------------------- what the pass knows

  predicate CurOk(db: Db, cur: Current) {
    && 1 <= cur.id <= |db.releases| && cur.hash == db.releases[cur.id - 1].contentHash
    && cur.paths == PathsOf(FilesAt(db, cur.id))
  }

  ghost predicate StreamOk(files: seq<File>, s: Sub) {
    var p := s.pass;
    && |p.got| + |p.rest| <= |files| && p.rest == TarOf(files)[|p.got|..|p.got| + |p.rest|]
    && (p.whole ==> |p.got| + |p.rest| == |files|)
    && (forall w :: w in p.seen ==> exists j :: 0 <= j < |p.got| && files[j].path == w)
    && (forall j :: 0 <= j < |p.got| ==>
          Components(files[j].path) in TempTree(s) && TempTree(s)[Components(files[j].path)] == files[j].body)
  }

  predicate Working(s: Sub) {
    s.stage !in {Idle, Down, Send}
  }

  predicate Placed(s: Sub) {
    s.stage in {LinkOut, LinkNew, Flip, DropLink, Mark}
  }

  ghost predicate StageOk(db: Db, s: Sub) {
    && (Working(s) || (s.stage.Send? && s.pass.ok) ==>
          CurOk(db, s.pass.cur) && forall id :: At(s.fs, id) ==> id <= s.pass.cur.id)
    && (s.stage in {RmTmp, MkTmp, Fetch, Extract} ==> s.pass.want == set p | p in s.pass.cur.paths)
    && (s.stage in {Fetch, Extract, Verify, Install} ==> Temp(s) in s.fs.dirs)
    && (s.stage.Extract? ==> StreamOk(FilesAt(db, s.pass.cur.id), s))
    && (s.stage in {Verify, Install} ==> TempTree(s) == TreeOf(FilesAt(db, s.pass.cur.id)))
    && (Placed(s) ==> s.pass.dir in s.fs.dirs && IsDirOf(s.pass.dir, s.pass.cur.id))
    && (s.stage.Mark? ==> s.fs.corpus == Some(s.pass.dir))
    && (s.stage.Send? && s.pass.ok ==> At(s.fs, s.pass.cur.id))
  }

  // ---------------------------------------------------------------- file system lemmas

  lemma DirOfOne(name: string, id: int, id': int)
    requires IsDirOf(name, id) && IsDirOf(name, id')
    ensures id == id' && !IsTemp(name)
  {
    var n: nat :| name == DirName(id, n);
    var n': nat :| name == DirName(id', n');
    DirNameInjective(id, n, id', n');
    NamesApart(id, n, 0, 0);
  }

  /** The corpus of a sound file system shows a whole release the store knows. */
  lemma AtShowsRelease(db: Db, fs: Fs, id: int)
    requires FsOk(db, fs) && At(fs, id)
    ensures 1 <= id <= |db.releases| && View(fs) == Some(TreeOf(FilesAt(db, id))) && !IsTemp(fs.corpus.value)
  {
    var name := fs.corpus.value;
    DirOfOne(name, id, id);
    var id' :| HoldsRelease(db, name, fs.dirs[name], id');
    DirOfOne(name, id, id');
  }

  /** Installed directories, corpus and marker are the same; temporary directories may differ. */
  ghost predicate SameInstalled(a: Fs, b: Fs) {
    && b.corpus == a.corpus
    && (forall name :: !IsTemp(name) ==> (name in b.dirs <==> name in a.dirs))
    && (forall name :: name in a.dirs && !IsTemp(name) ==> b.dirs[name] == a.dirs[name])
  }

  lemma SameInstalledAt(a: Fs, b: Fs, id: int)
    requires SameInstalled(a, b)
    ensures At(a, id) <==> At(b, id)
  {
    if a.corpus.Some? && IsDirOf(a.corpus.value, id) { DirOfOne(a.corpus.value, id, id); }
  }

  lemma TempChangeKeeps(db: Db, a: Fs, b: Fs)
    requires FsOk(db, a) && SameInstalled(a, b) && (b.applied == a.applied || b.applied == None)
    requires forall name :: name in b.dirs && IsTemp(name) ==> exists id, pid :: HoldsPart(db, name, b.dirs[name], id, pid)
    ensures FsOk(db, b)
  {
    forall id ensures At(a, id) <==> At(b, id) { SameInstalledAt(a, b, id); }
    if b.applied.Some? {
      var id, n :| Wrote(db, a, a.applied.value, id, n);
      assert Wrote(db, b, b.applied.value, id, n);
    }
  }

  /** Erasing the marker or touching temporary links keeps the files sound. */
  lemma LightChangeKeeps(db: Db, a: Fs, b: Fs)
    requires FsOk(db, a) && b.dirs == a.dirs && b.corpus == a.corpus && (b.applied == a.applied || b.applied == None)
    ensures FsOk(db, b) && SameInstalled(a, b)
  {
    hide HoldsPart, HoldsRelease, At;
    TempChangeKeeps(db, a, b);
  }

  lemma OneTempKeeps(db: Db, fs: Fs, id: int, pid: nat, tree: Tree)
    requires FsOk(db, fs) && HoldsPart(db, TempName(id, pid), tree, id, pid)
    ensures FsOk(db, WithDir(fs, TempName(id, pid), tree))
    ensures SameInstalled(fs, WithDir(fs, TempName(id, pid), tree))
  {
    NamesApart(0, 0, id, pid);
    TempChangeKeeps(db, fs, WithDir(fs, TempName(id, pid), tree));
  }

  lemma DropTempKeeps(db: Db, fs: Fs, id: int, pid: nat)
    requires FsOk(db, fs)
    ensures FsOk(db, WithoutDir(fs, TempName(id, pid)))
    ensures SameInstalled(fs, WithoutDir(fs, TempName(id, pid)))
  {
    NamesApart(0, 0, id, pid);
    TempChangeKeeps(db, fs, WithoutDir(fs, TempName(id, pid)));
  }

  /** Whatever is in the pass's temporary directory belongs to the release it is fetching. */
  lemma TempHoldsPart(db: Db, s: Sub)
    requires FsOk(db, s.fs) && 1 <= s.pass.cur.id <= |db.releases|
    ensures HoldsPart(db, Temp(s), TempTree(s), s.pass.cur.id, s.pid)
  {
    if Temp(s) in s.fs.dirs {
      NamesApart(0, 0, s.pass.cur.id, s.pid);
      var id, pid :| HoldsPart(db, Temp(s), s.fs.dirs[Temp(s)], id, pid);
      TempNameInjective(id, pid, s.pass.cur.id, s.pid);
    }
  }

  // ---------------------------------------------------------------- failing and dying

  lemma FailFsKeeps(cfg: Config, db: Db, s: Sub, m: Mess)
    requires FsOk(db, s.fs) && StageOk(db, s) && AllReleasesOk(cfg, db)
    ensures FsOk(db, FailFs(s, m)) && forall id :: At(s.fs, id) <==> At(FailFs(s, m), id)
  {
    hide FsOk, AllReleasesOk, At, SameInstalled, HoldsPart, Components, Overlay;
    if s.stage in {RmTmp, DropTmp} {
      TempHoldsPart(db, s);
      if m.Left? && Temp(s) in s.fs.dirs {
        OneTempKeeps(db, s.fs, s.pass.cur.id, s.pid, HalfRemoved(TempTree(s), m.paths));
        forall id { SameInstalledAt(s.fs, FailFs(s, m), id); }
      }
    } else if s.stage.Extract? {
      if m.Bytes? && s.pass.rest != [] {
        HalfWrittenKeeps(db, s, Prefix(s.pass.rest[0].body, m.n));
        forall id { SameInstalledAt(s.fs, FailFs(s, m), id); }
      }
    } else if s.stage.Mark? && m.Bytes? {
      MarkKeeps(db, s, m.n);
    }
  }

  lemma HalfWrittenKeeps(db: Db, s: Sub, body: string)
    requires FsOk(db, s.fs) && StageOk(db, s) && s.stage.Extract? && s.pass.rest != []
    ensures var fs := WithDir(s.fs, Temp(s), TempTree(s)[Components(s.pass.rest[0].name) := body]);
      FsOk(db, fs) && SameInstalled(s.fs, fs)
  {
    var files := FilesAt(db, s.pass.cur.id);
    TempHoldsPart(db, s);
    assert s.pass.rest[0] == TarOf(files)[|s.pass.got|];
    TreeKeys(files, Components(files[|s.pass.got|].path));
    OneTempKeeps(db, s.fs, s.pass.cur.id, s.pid, TempTree(s)[Components(s.pass.rest[0].name) := body]);
  }

  lemma MarkKeeps(db: Db, s: Sub, n: nat)
    requires FsOk(db, s.fs) && StageOk(db, s) && s.stage.Mark?
    ensures var fs := s.fs.(applied := Some(Prefix(MarkerText(s.pass.cur.id, s.pass.cur.hash), n)));
      FsOk(db, fs) && forall id :: At(s.fs, id) <==> At(fs, id)
  {
    hide DirsOk, IsDirOf, MarkerText, Prefix, StreamOk, TempName, Components, FilesAt, TreeOf;
    var fs := s.fs.(applied := Some(Prefix(MarkerText(s.pass.cur.id, s.pass.cur.hash), n)));
    assert At(s.fs, s.pass.cur.id) && At(fs, s.pass.cur.id);
    assert Wrote(db, fs, fs.applied.value, s.pass.cur.id, n);
  }

  lemma FailKeepsStage(cfg: Config, db: Db, s: Sub, m: Mess)
    requires FsOk(db, s.fs) && StageOk(db, s) && AllReleasesOk(cfg, db)
    ensures var t := AfterFail(s.(fs := FailFs(s, m))); FsOk(db, t.fs) && StageOk(db, t)
  {
    hide FsOk, AllReleasesOk, At, Components, FilesAt, StreamOk, TempName, FailFs, SameInstalled, CurOk, TreeOf, IsDirOf, TempTree, HalfRemoved;
    FailFsKeeps(cfg, db, s, m);
    if Placed(s) { FailFsWhilePlaced(s, m); }
  }

  lemma FailFsWhilePlaced(s: Sub, m: Mess)
    requires Placed(s)
    ensures FailFs(s, m).dirs == s.fs.dirs
  {
  }

  // ---------------------------------------------------------------- steps that take effect

  /** The current release is the one with the largest id. */
  lemma ReplyIsNewest(cfg: Config, db: Db, host: string)
    requires AllReleasesOk(cfg, db)
    ensures CurrentReply(db, host).Some? <==> |db.releases| > 0
    ensures CurrentReply(db, host).Some? ==>
            var cur := CurrentReply(db, host).value;
            CurOk(db, cur) && cur.id == |db.releases| && cur.resync == (host in db.resync)
  {
    hide Layable, Archive, TarOf, Components;
    if |db.releases| > 0 {
      assert ReleaseOk(cfg, db, |db.releases|);
      ReleaseOnWire(cfg, db, |db.releases|);
    }
  }

  lemma PollKeeps(cfg: Config, db: Db, host: string, s: Sub, i: Input)
    requires FsOk(db, s.fs) && AllReleasesOk(cfg, db) && s.stage.Idle? && Honest(db, host, s, i)
    ensures var t := Advance(cfg.hash, s, i); FsOk(db, t.fs) && StageOk(db, t)
  {
    hide FsOk, AllReleasesOk, CurrentReply, At, Archive, TarOf;
    if i.Reply? {
      ReplyIsNewest(cfg, db, host);
      forall id | At(s.fs, id) ensures id <= |db.releases| { AtShowsRelease(db, s.fs, id); }
    }
  }

  lemma CompareKeeps(cfg: Config, db: Db, s: Sub)
    requires FsOk(db, s.fs) && StageOk(db, s) && AllReleasesOk(cfg, db) && s.stage.Compare?
    ensures var t := Advance(cfg.hash, s, Go); FsOk(db, t.fs) && StageOk(db, t)
  {
    hide ReleaseOk, At, DirsOk, Components, FilesAt, StreamOk, TempName, AllReleasesOk;
    if Matches(s.fs, s.pass.cur) {
      var id, n :| Wrote(db, s.fs, s.fs.applied.value, id, n);
      MarkerNames(cfg, db, s.fs, id, n, s.pass.cur);
      var id' :| id <= id' && At(s.fs, id');
    }
  }

  /** A marker that reads as the current release was written for that release. */
  lemma MarkerNames(cfg: Config, db: Db, fs: Fs, id: int, n: nat, cur: Current)
    requires AllReleasesOk(cfg, db) && fs.applied.Some? && Wrote(db, fs, fs.applied.value, id, n) && Matches(fs, cur)
    ensures cur.id == id
  {
    var hash := db.releases[id - 1].contentHash;
    assert ReleaseOk(cfg, db, id);
    DecimalShape(id);
    var text := MarkerText(id, hash);
    var m := if n <= |text| then n else |text|;
    assert |text| == |Decimal(id)| + |hash| + 2 && text[..|text|] == text;
    FieldsOfPrefix(Decimal(id), hash, m);
    assert Prefix(text, n) == text[..m];
    DecimalInjective(cur.id, id);
  }

  lemma PrepareKeeps(cfg: Config, db: Db, s: Sub)
    requires FsOk(db, s.fs) && StageOk(db, s) && AllReleasesOk(cfg, db) && s.stage in {Clear, Prepare}
    ensures var t := Advance(cfg.hash, s, Go); FsOk(db, t.fs) && StageOk(db, t)
  {
    hide FsOk, AllReleasesOk, At, SameInstalled, StreamOk, FilesAt;
    var t := Advance(cfg.hash, s, Go);
    if s.stage.Clear? {
      LightChangeKeeps(db, s.fs, t.fs);
      forall id { SameInstalledAt(s.fs, t.fs, id); }
    }
  }

  lemma TempDirKeeps(cfg: Config, db: Db, s: Sub)
    requires FsOk(db, s.fs) && StageOk(db, s) && s.stage in {RmTmp, MkTmp, DropTmp}
    ensures var t := Advance(cfg.hash, s, Go); FsOk(db, t.fs) && StageOk(db, t)
  {
    hide FsOk, HoldsPart, At, SameInstalled, HalfRemoved, Components, StreamOk, FilesAt, TempName;
    var t := Advance(cfg.hash, s, Go);
    if s.stage.MkTmp? {
      TempHoldsPart(db, s);
      OneTempKeeps(db, s.fs, s.pass.cur.id, s.pid, TempTree(s));
    } else {
      DropTempKeeps(db, s.fs, s.pass.cur.id, s.pid);
    }
    forall id { SameInstalledAt(s.fs, t.fs, id); }
  }

  lemma FetchKeeps(cfg: Config, db: Db, host: string, s: Sub, i: Input)
    requires FsOk(db, s.fs) && StageOk(db, s) && AllReleasesOk(cfg, db) && s.stage.Fetch? && Honest(db, host, s, i)
    ensures var t := Advance(cfg.hash, s, i); FsOk(db, t.fs) && StageOk(db, t)
  {
    hide FsOk, At, Layable, Components, ReadRelease, Archive, TreeOf, ReleaseOk, TempName;
    if i.Stream? {
      assert ReleaseOk(cfg, db, s.pass.cur.id);
      ReleaseOnWire(cfg, db, s.pass.cur.id);
      var tar := TarOf(FilesAt(db, s.pass.cur.id));
      assert tar[0..|i.entries|] == i.entries;
    }
  }

  lemma TakeOneKeeps(cfg: Config, db: Db, s: Sub)
    requires FsOk(db, s.fs) && StageOk(db, s) && AllReleasesOk(cfg, db) && s.stage.Extract? && s.pass.rest != []
    ensures var t := TakeEntry(s); FsOk(db, t.fs) && StageOk(db, t)
  {
    hide FsOk, ReleaseOk, At, Layable, SameInstalled, StreamOk, Components;
    var files, t := FilesAt(db, s.pass.cur.id), TakeEntry(s);
    assert ReleaseOk(cfg, db, s.pass.cur.id);
    ReleaseIsLayable(cfg, db, s.pass.cur.id);
    HalfWrittenKeeps(db, s, s.pass.rest[0].body);
    forall id { SameInstalledAt(s.fs, t.fs, id); }
    if t.stage.Extract? { StreamAdvances(files, s); }
  }

  lemma LayableApart(files: seq<File>)
    requires Layable(files)
    ensures forall i, j :: 0 <= i < j < |files| ==> Components(files[i].path) != Components(files[j].path)
  {
  }

  lemma StreamAdvances(files: seq<File>, s: Sub)
    requires Layable(files) && StreamOk(files, s) && s.stage.Extract? && s.pass.rest != [] && TakeEntry(s).stage.Extract?
    ensures StreamOk(files, TakeEntry(s))
  {
    hide CanWrite, Admits, TempName, Components;
    var t, n := TakeEntry(s), |s.pass.got|;
    LayableApart(files);
    hide Layable;
    assert s.pass.rest[0] == TarOf(files)[n];
    assert t.pass.rest == TarOf(files)[n + 1..n + 1 + |t.pass.rest|];
    forall w | w in t.pass.seen ensures exists j :: 0 <= j < n + 1 && files[j].path == w {
      if w in s.pass.seen { var j :| 0 <= j < n && files[j].path == w; } else { assert files[n].path == w; }
    }
    forall j | 0 <= j < n + 1
      ensures Components(files[j].path) in TempTree(t) && TempTree(t)[Components(files[j].path)] == files[j].body
    {
      if j < n { assert Components(files[j].path) != Components(files[n].path); }
    }
  }

  lemma StreamEnds(cfg: Config, db: Db, s: Sub)
    requires FsOk(db, s.fs) && StageOk(db, s) && AllReleasesOk(cfg, db) && s.stage.Extract? && s.pass.rest == []
    ensures FsOk(db, TakeEntry(s).fs) && StageOk(db, TakeEntry(s))
  {
    hide FsOk, ReleaseOk, At, Layable, Components, Overlay;
    var files := FilesAt(db, s.pass.cur.id);
    if TakeEntry(s).stage.Verify? {
      TempHoldsPart(db, s);
      assert ReleaseOk(cfg, db, s.pass.cur.id);
      ReleaseIsLayable(cfg, db, s.pass.cur.id);
      AllTakenIsWhole(files, TempTree(s));
    }
  }

  lemma AllTakenIsWhole(files: seq<File>, tree: Tree)
    requires Layable(files)
    requires forall p :: p in tree ==> p in TreeOf(files)
    requires forall j :: 0 <= j < |files| ==> Components(files[j].path) in tree && tree[Components(files[j].path)] == files[j].body
    ensures tree == TreeOf(files)
  {
    forall p | p in TreeOf(files) ensures p in tree && tree[p] == TreeOf(files)[p] {
      TreeKeys(files, p);
      var j :| 0 <= j < |files| && Components(files[j].path) == p;
      LayableTree(files, j);
    }
  }

  lemma InstallKeeps(cfg: Config, db: Db, s: Sub)
    requires FsOk(db, s.fs) && StageOk(db, s) && s.stage.Install?
    ensures var t := Advance(cfg.hash, s, Go); FsOk(db, t.fs) && StageOk(db, t)
  {
    hide FsOk, At, SameInstalled, Components, Overlay, Fresh, DirName, TempName, FilesAt, StreamOk;
    var t, id := Advance(cfg.hash, s, Go), s.pass.cur.id;
    var n := Fresh(s.fs.dirs.Keys, id);
    NamesApart(id, n, id, s.pid);
    assert IsDirOf(t.pass.dir, id);
    NewDirKeeps(db, WithoutDir(s.fs, Temp(s)), t.pass.dir, id) by { DropTempKeeps(db, s.fs, id, s.pid); }
    DropTempKeeps(db, s.fs, id, s.pid);
    forall k ensures At(s.fs, k) <==> At(t.fs, k) {
      SameInstalledAt(s.fs, WithoutDir(s.fs, Temp(s)), k);
    }
  }

  lemma NewDirKeeps(db: Db, fs: Fs, name: string, id: int)
    requires FsOk(db, fs) && 1 <= id <= |db.releases| && IsDirOf(name, id) && name !in fs.dirs
    ensures FsOk(db, WithDir(fs, name, TreeOf(FilesAt(db, id))))
    ensures forall k :: At(fs, k) <==> At(WithDir(fs, name, TreeOf(FilesAt(db, id))), k)
  {
    var after := WithDir(fs, name, TreeOf(FilesAt(db, id)));
    DirOfOne(name, id, id);
    assert HoldsRelease(db, name, after.dirs[name], id);
    forall k ensures At(fs, k) <==> At(after, k) {
      if fs.corpus.Some? { var k' :| At(fs, k'); }
    }
    if fs.applied.Some? {
      var k, n :| Wrote(db, fs, fs.applied.value, k, n);
      assert Wrote(db, after, after.applied.value, k, n);
    }
  }

  lemma LinkKeeps(cfg: Config, db: Db, s: Sub)
    requires FsOk(db, s.fs) && StageOk(db, s) && s.stage in {LinkOut, LinkNew, DropLink}
    ensures var t := Advance(cfg.hash, s, Go); FsOk(db, t.fs) && StageOk(db, t)
  {
    hide HoldsPart, HoldsRelease, At, Components, FsOk, SameInstalled, StreamOk, TempLink, FilesAt, IsDirOf, CurOk, TreeOf;
    var t := Advance(cfg.hash, s, Go);
    LightChangeKeeps(db, s.fs, t.fs);
    forall id { SameInstalledAt(s.fs, t.fs, id); }
  }

  lemma FlipKeeps(cfg: Config, db: Db, s: Sub)
    requires FsOk(db, s.fs) && StageOk(db, s) && s.stage.Flip?
    ensures var t := Advance(cfg.hash, s, Go); FsOk(db, t.fs) && StageOk(db, t)
  {
    hide DirsOk, IsDirOf, Components, Prefix;
    var t, id := Advance(cfg.hash, s, Go), s.pass.cur.id;
    assert At(t.fs, id);
    forall k | At(t.fs, k) ensures k == id { DirOfOne(t.pass.dir, k, id); }
    if s.fs.applied.Some? {
      var k, n :| Wrote(db, s.fs, s.fs.applied.value, k, n);
      var k' :| k <= k' && At(s.fs, k');
      assert AtLeast(t.fs, k);
      assert Wrote(db, t.fs, t.fs.applied.value, k, n);
    }
  }

  lemma MarkDoneKeeps(cfg: Config, db: Db, s: Sub)
    requires FsOk(db, s.fs) && StageOk(db, s) && s.stage.Mark?
    ensures var t := Advance(cfg.hash, s, Go); FsOk(db, t.fs) && StageOk(db, t)
  {
    hide FsOk, Components, Decimal, IsDirOf;
    var text := MarkerText(s.pass.cur.id, s.pass.cur.hash);
    assert Prefix(text, |text|) == text;
    MarkKeeps(db, s, |text|);
    assert At(s.fs, s.pass.cur.id);
  }

  lemma RestKeeps(cfg: Config, db: Db, s: Sub)
    requires FsOk(db, s.fs) && StageOk(db, s) && s.stage in {Verify, Send, Down}
    ensures var t := Advance(cfg.hash, s, Go); FsOk(db, t.fs) && StageOk(db, t)
  {
    hide FsOk, Components, At, TreeOf, RecomputeHash, FilesAt, StreamOk, TempName;
  }

  lemma AdvanceKeeps(cfg: Config, db: Db, host: string, s: Sub, i: Input)
    requires FsOk(db, s.fs) && StageOk(db, s) && AllReleasesOk(cfg, db) && Honest(db, host, s, i)
    ensures var t := Advance(cfg.hash, s, i); FsOk(db, t.fs) && StageOk(db, t)
  {
    hide FsOk, StageOk, AllReleasesOk, Honest, Advance, TakeEntry;
    if !s.stage.Idle? && !s.stage.Fetch? { AdvanceIgnoresInput(cfg.hash, s, i); }
    match s.stage
    case Idle => PollKeeps(cfg, db, host, s, i);
    case Compare => CompareKeeps(cfg, db, s);
    case Clear => PrepareKeeps(cfg, db, s);
    case Prepare => PrepareKeeps(cfg, db, s);
    case RmTmp => TempDirKeeps(cfg, db, s);
    case MkTmp => TempDirKeeps(cfg, db, s);
    case DropTmp => TempDirKeeps(cfg, db, s);
    case Fetch => FetchKeeps(cfg, db, host, s, i);
    case Extract => if s.pass.rest == [] { StreamEnds(cfg, db, s); } else { TakeOneKeeps(cfg, db, s); }
    case Install => InstallKeeps(cfg, db, s);
    case LinkOut => LinkKeeps(cfg, db, s);
    case LinkNew => LinkKeeps(cfg, db, s);
    case DropLink => LinkKeeps(cfg, db, s);
    case Flip => FlipKeeps(cfg, db, s);
    case Mark => MarkDoneKeeps(cfg, db, s);
    case _ => RestKeeps(cfg, db, s);
  }

  lemma AtRestIsOk(db: Db, s: Sub)
    requires s.stage.Down? || s.stage.Idle?
    ensures StageOk(db, s)
  {
  }

  lemma TickKeeps(cfg: Config, db: Db, host: string, s: Sub, i: Input)
    requires FsOk(db, s.fs) && StageOk(db, s) && AllReleasesOk(cfg, db) && Honest(db, host, s, i)
    ensures var t := Tick(cfg.hash, s, i); FsOk(db, t.fs) && StageOk(db, t)
  {
    hide FsOk, StageOk, AllReleasesOk, Honest, Advance, AfterFail;
    match i
    case Crash(m) => FailFsKeeps(cfg, db, s, m); AtRestIsOk(db, Tick(cfg.hash, s, i));
    case Fail(m) => FailKeepsStage(cfg, db, s, m);
    case Restart(_) => if s.stage.Down? || s.stage.Idle? { AtRestIsOk(db, Tick(cfg.hash, s, i)); }
    case _ => AdvanceKeeps(cfg, db, host, s, i);
  }
}
