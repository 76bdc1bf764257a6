/** What every run of the composed system guarantees. */
module Convergence {
  import opened Wrappers
  import opened Text
  import opened StoreModel
  import opened StoreLog
  import opened StoreReleases
  import opened StorePublish
  import opened Extraction
  import opened ArchiveRoundTrip
  import opened SubscriberModel
  import opened SubscriberSafety
  import opened World

  // ---------------------------------------------------------------- the store moves on

  lemma FilesStay(cfg: Config, a: Db, b: Db, id: int)
    requires AllReleasesOk(cfg, a) && Extends(a, b) && 1 <= id <= |a.releases|
    ensures id <= |b.releases| && FilesAt(b, id) == FilesAt(a, id) && b.releases[id - 1] == a.releases[id - 1]
  {
    hide Components, Closed;
    assert ReleaseOk(cfg, a, id);
    FilesSurvive(cfg, a, b, id);
  }

  lemma DirsStay(cfg: Config, a: Db, b: Db, dirs: map<string, Tree>)
    requires AllReleasesOk(cfg, a) && Extends(a, b) && DirsOk(a, dirs)
    ensures DirsOk(b, dirs)
  {
    hide AllReleasesOk, Extends, FilesAt, IsDirOf;
    forall name | name in dirs && !IsTemp(name) ensures exists id :: HoldsRelease(b, name, dirs[name], id) {
      var id :| HoldsRelease(a, name, dirs[name], id);
      FilesStay(cfg, a, b, id);
      assert HoldsRelease(b, name, dirs[name], id);
    }
    forall name | name in dirs && IsTemp(name) ensures exists id, pid :: HoldsPart(b, name, dirs[name], id, pid) {
      var id, pid :| HoldsPart(a, name, dirs[name], id, pid);
      FilesStay(cfg, a, b, id);
      assert HoldsPart(b, name, dirs[name], id, pid);
    }
  }

  lemma FsStays(cfg: Config, a: Db, b: Db, fs: Fs)
    requires AllReleasesOk(cfg, a) && Extends(a, b) && FsOk(a, fs)
    ensures FsOk(b, fs)
  {
    hide AllReleasesOk, Extends, FilesAt, At, DirsOk;
    DirsStay(cfg, a, b, fs.dirs);
    if fs.applied.Some? {
      var id, n :| Wrote(a, fs, fs.applied.value, id, n);
      FilesStay(cfg, a, b, id);
      assert Wrote(b, fs, fs.applied.value, id, n);
    }
  }

  lemma StageStays(cfg: Config, a: Db, b: Db, s: Sub)
    requires AllReleasesOk(cfg, a) && Extends(a, b) && StageOk(a, s)
    ensures StageOk(b, s)
  {
    hide AllReleasesOk, Extends, FilesAt, At, StreamOk, Components;
    if Working(s) || (s.stage.Send? && s.pass.ok) { FilesStay(cfg, a, b, s.pass.cur.id); }
  }

  // ---------------------------------------------------------------- beacons

  /** An ok heartbeat for release N was sent while `corpus` showed exactly release N. */
  ghost predicate Truthful(db: Db, b: Beacon) {
    b.ok ==> 1 <= b.id <= |db.releases| && View(b.fs) == Some(TreeOf(FilesAt(db, b.id)))
  }

  ghost predicate BeaconOk(cfg: Config, db: Db, b: Beacon) {
    Truthful(db, b) && (b.ok && b.ack ==> AckEarned(cfg.hash, b.fs, b.pass))
  }

  ghost predicate WorldOk(cfg: Config, w: World) {
    var db := Exec(cfg, w.ops).db;
    && FsOk(db, w.sub.fs) && StageOk(db, w.sub)
    && LocalInv(cfg.hash, w.sub) && PassInv(cfg.hash, w.sub)
    && forall k :: 0 <= k < |w.sent| ==> BeaconOk(cfg, db, w.sent[k])
  }

  lemma EmittedIsOk(cfg: Config, db: Db, s: Sub, i: Input)
    requires FsOk(db, s.fs) && StageOk(db, s) && PassInv(cfg.hash, s)
    ensures forall b :: b in Emitted(s, i) ==> BeaconOk(cfg, db, b)
  {
    hide FsOk, AckEarned, KeepsInstalled, FilesAt, StreamOk;
    if Emits(s, i).Some? && s.pass.ok { AtShowsRelease(db, s.fs, s.pass.cur.id); }
  }

  lemma BeaconStays(cfg: Config, a: Db, b: Db, beacon: Beacon)
    requires AllReleasesOk(cfg, a) && Extends(a, b) && BeaconOk(cfg, a, beacon)
    ensures BeaconOk(cfg, b, beacon)
  {
    hide AllReleasesOk, Extends, FilesAt, AckEarned;
    if beacon.ok { FilesStay(cfg, a, b, beacon.id); }
  }

  lemma OpKeeps(cfg: Config, w: World, op: Op)
    requires WorldOk(cfg, w)
    ensures WorldOk(cfg, w.(ops := w.ops + [op]))
  {
    hide AllReleasesOk, Extends, FsOk, StageOk, LocalInv, PassInv, BeaconOk, Exec;
    var a, b := Exec(cfg, w.ops).db, Exec(cfg, w.ops + [op]).db;
    ReleasesAreSound(cfg, w.ops);
    RunExtendsByStep(cfg, w.ops, op);
    FsStays(cfg, a, b, w.sub.fs);
    StageStays(cfg, a, b, w.sub);
    forall k | 0 <= k < |w.sent| ensures BeaconOk(cfg, b, w.sent[k]) { BeaconStays(cfg, a, b, w.sent[k]); }
  }

  lemma InputKeeps(cfg: Config, host: string, w: World, i: Input)
    requires WorldOk(cfg, w) && Honest(Exec(cfg, w.ops).db, host, w.sub, i)
    ensures WorldOk(cfg, World(w.ops, Tick(cfg.hash, w.sub, i), w.sent + Emitted(w.sub, i)))
  {
    hide AllReleasesOk, FsOk, StageOk, LocalInv, PassInv, BeaconOk, Exec, Tick, Honest, Emitted;
    var db := Exec(cfg, w.ops).db;
    ReleasesAreSound(cfg, w.ops);
    TickKeeps(cfg, db, host, w.sub, i);
    TickKeepsPass(cfg.hash, w.sub, i);
    EmittedIsOk(cfg, db, w.sub, i);
  }

  lemma TurnKeeps(cfg: Config, host: string, w: World, act: Act)
    requires WorldOk(cfg, w)
    ensures WorldOk(cfg, Turn(cfg, host, w, act))
  {
    hide WorldOk, Honest, Tick, Emitted;
    match act
    case Serve(op) => OpKeeps(cfg, w, op);
    case Local(i) => if Honest(Exec(cfg, w.ops).db, host, w.sub, i) { InputKeeps(cfg, host, w, i); }
    case Deliver(k, error) => if k < |w.sent| { OpKeeps(cfg, w, Arrival(host, w.sent[k], error)); }
  }

  lemma StartOk(cfg: Config)
    ensures WorldOk(cfg, START)
  {
  }

  lemma {:induction false} WorldsAreOk(cfg: Config, host: string, acts: seq<Act>)
    ensures WorldOk(cfg, Play(cfg, host, acts))
  {
    hide WorldOk, Turn;
    if acts == [] {
      StartOk(cfg);
    } else {
      WorldsAreOk(cfg, host, acts[..|acts| - 1]);
      TurnKeeps(cfg, host, Play(cfg, host, acts[..|acts| - 1]), acts[|acts| - 1]);
    }
  }

  /** Truthful convergence: in every run, with crashes, torn writes and lost messages anywhere, every
      ok heartbeat for release N that was ever sent was sent while `corpus` resolved to a complete
      tree holding exactly the paths and bodies of release N, as the store still serves it. */
  lemma HeartbeatsTellTheTruth(cfg: Config, host: string, acts: seq<Act>, k: nat)
    requires var w := Play(cfg, host, acts); k < |w.sent| && w.sent[k].ok
    ensures var w := Play(cfg, host, acts); var db, b := Exec(cfg, w.ops).db, w.sent[k];
      && Archive(db, b.id).Ok? && View(b.fs) == Some(TreeOf(Archive(db, b.id).value))
  {
    hide FsOk, StageOk, LocalInv, PassInv, AckEarned, Archive, Components, Closed, MembersMatch;
    var w := Play(cfg, host, acts);
    var db, b := Exec(cfg, w.ops).db, w.sent[k];
    WorldsAreOk(cfg, host, acts);
    ReleasesAreSound(cfg, w.ops);
    assert BeaconOk(cfg, db, b);
    assert ReleaseOk(cfg, db, b.id);
    ArchiveReadsBack(cfg, db, b.id);
  }

  /** Marker, corpus and server never disagree the wrong way round: a readable marker names a release
      no newer than the one `corpus` shows, which is no newer than the store's newest, and carries that
      release's hash or, torn, a start of it. */
  lemma MarkerCorpusServer(cfg: Config, host: string, acts: seq<Act>)
    ensures var w := Play(cfg, host, acts); var db, fs := Exec(cfg, w.ops).db, w.sub.fs;
      && (fs.corpus.Some? ==> exists id :: At(fs, id) && 1 <= id <= |db.releases| && View(fs) == Some(TreeOf(FilesAt(db, id))))
      && (ReadApplied(fs.applied).Some? ==>
            exists m, id :: 1 <= m <= id <= |db.releases| && At(fs, id) && ReadApplied(fs.applied).value.0 == Decimal(m)
                            && ReadApplied(fs.applied).value.1 <= db.releases[m - 1].contentHash)
  {
    hide StageOk, LocalInv, PassInv, BeaconOk, FilesAt, DirsOk, Components, At, MarkerText, TreeOf, AllReleasesOk, Fields;
    var w := Play(cfg, host, acts);
    var db, fs := Exec(cfg, w.ops).db, w.sub.fs;
    WorldsAreOk(cfg, host, acts);
    if fs.corpus.Some? {
      var id :| At(fs, id);
      AtShowsRelease(db, fs, id);
    }
    if ReadApplied(fs.applied).Some? {
      var m, n :| Wrote(db, fs, fs.applied.value, m, n);
      var id :| m <= id && At(fs, id);
      ReleasesAreSound(cfg, w.ops);
      TornMarkerNames(cfg, db, m, n);
      AtShowsRelease(db, fs, id);
      assert 1 <= m <= id <= |db.releases| && At(fs, id) && ReadApplied(fs.applied).value.0 == Decimal(m)
             && ReadApplied(fs.applied).value.1 <= db.releases[m - 1].contentHash;
    }
  }

  lemma TornMarkerNames(cfg: Config, db: Db, id: int, n: nat)
    requires AllReleasesOk(cfg, db) && 1 <= id <= |db.releases|
    ensures var read := ReadApplied(Some(Prefix(MarkerText(id, db.releases[id - 1].contentHash), n)));
      read.Some? ==> read.value.0 == Decimal(id) && read.value.1 <= db.releases[id - 1].contentHash
  {
    hide Components, Closed, MembersMatch, ContentBytes;
    var hash := db.releases[id - 1].contentHash;
    assert ReleaseOk(cfg, db, id);
    DecimalShape(id);
    var text := MarkerText(id, hash);
    var m := if n <= |text| then n else |text|;
    assert |text| == |Decimal(id)| + |hash| + 2 && text[..|text|] == text;
    FieldsOfPrefix(Decimal(id), hash, m);
    assert Prefix(text, n) == text[..m];
  }

  // ---------------------------------------------------------------- resync

  predicate Acknowledges(op: Op, host: string) {
    op.Beat? && op.host == host && op.ok && op.resyncApplied
  }

  lemma FlagChange(cfg: Config, db: Db, op: Op, host: string)
    ensures host in db.resync && host !in Step(cfg, db, op).0.resync ==> Acknowledges(op, host)
    ensures host !in db.resync && host in Step(cfg, db, op).0.resync ==> op == Resync(host)
    ensures op == Resync(host) && ValidIdent(host) ==> host in Step(cfg, db, op).0.resync
    ensures Acknowledges(op, host) && ValidIdent(host) ==> host !in Step(cfg, db, op).0.resync
  {
    hide TrimSpace, Candidate, CandidateRows, ValidSave, CandidateHash, ManifestDocs, ClearPolicies;
    match op
    case CutRelease(expected, editor) => CutOutcomes(cfg, db, expected, editor); assert Cut(cfg, db, expected, editor).db.resync == db.resync;
    case _ =>
  }

  /** At-least-once: whatever happens, the host's flag goes from set to clear only when a heartbeat of
      this host arrives whose pass polled the flag as set and then verified, freshly installed,
      selected and marked a tree: the tree of the release it reports. A pass that crashed, failed
      or lost its heartbeat leaves the flag set. */
  lemma FlagClearsOnlyWhenEarned(cfg: Config, host: string, acts: seq<Act>, act: Act)
    requires host in Exec(cfg, Play(cfg, host, acts).ops).db.resync
    requires host !in Exec(cfg, Play(cfg, host, acts + [act]).ops).db.resync
    ensures var w := Play(cfg, host, acts); var db := Exec(cfg, w.ops).db;
      && act.Deliver? && act.k < |w.sent| && var b := w.sent[act.k];
      && b.ok && b.ack && AckEarned(cfg.hash, b.fs, b.pass)
      && Archive(db, b.id).Ok? && b.fs.dirs[b.pass.dir] == TreeOf(Archive(db, b.id).value)
  {
    hide TrimSpace, FsOk, StageOk, LocalInv, PassInv, Archive, Step, Truthful, Honest, TreeOf, Tick, Emitted;
    assert (acts + [act])[..|acts|] == acts;
    var w := Play(cfg, host, acts);
    var db := Exec(cfg, w.ops).db;
    var after := Turn(cfg, host, w, act);
    assert Play(cfg, host, acts + [act]) == after;
    match act
    case Serve(op) =>
      ExecSnoc(cfg, w.ops, op);
      FlagChange(cfg, db, op, host);
    case Local(_) =>
    case Deliver(k, error) =>
      if k < |w.sent| {
        var b := w.sent[k];
        ExecSnoc(cfg, w.ops, Arrival(host, b, error));
        FlagChange(cfg, db, Arrival(host, b, error), host);
        WorldsAreOk(cfg, host, acts);
        assert BeaconOk(cfg, db, b);
        HeartbeatsTellTheTruth(cfg, host, acts, k);
      }
  }

  /** Acknowledgements are untagged: any acknowledging heartbeat that arrives after a newer request
      clears that request too, although no pass has polled since. */
  lemma LateAckClearsNewerRequest(cfg: Config, host: string, acts: seq<Act>, k: nat, error: string)
    requires ValidIdent(host)
    requires var w := Play(cfg, host, acts); k < |w.sent| && w.sent[k].ok && w.sent[k].ack
    ensures host in Exec(cfg, Play(cfg, host, acts + [Serve(Resync(host))]).ops).db.resync
    ensures host !in Exec(cfg, Play(cfg, host, acts + [Serve(Resync(host))] + [Deliver(k, error)]).ops).db.resync
  {
    hide Step, Emitted, Honest, Tick;
    var w := Play(cfg, host, acts);
    var w' := w.(ops := w.ops + [Resync(host)]);
    assert (acts + [Serve(Resync(host))])[..|acts|] == acts;
    assert Play(cfg, host, acts + [Serve(Resync(host))]) == w';
    ExecSnoc(cfg, w.ops, Resync(host));
    FlagChange(cfg, Exec(cfg, w.ops).db, Resync(host), host);
    assert (acts + [Serve(Resync(host))] + [Deliver(k, error)])[..|acts| + 1] == acts + [Serve(Resync(host))];
    ExecSnoc(cfg, w'.ops, Arrival(host, w.sent[k], error));
    FlagChange(cfg, Exec(cfg, w'.ops).db, Arrival(host, w.sent[k], error), host);
  }
}
