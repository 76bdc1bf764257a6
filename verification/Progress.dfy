/** Runs of the composed system can always be carried on to a converged host and a truthful heartbeat. */
module Progress {
  import opened Wrappers
  import opened Text
  import opened StoreModel
  import opened StoreLog
  import opened StoreReleases
  import opened StorePublish
  import opened Extraction
  import opened ArchiveRoundTrip
  import opened SubscriberModel
  import opened SubscriberSafety
  import opened World
  import opened Convergence
  import opened SelfStabilisation
  import opened Reports

  lemma PlaySnoc(cfg: Config, host: string, acts: seq<Act>, act: Act)
    ensures Play(cfg, host, acts + [act]) == Turn(cfg, host, Play(cfg, host, acts), act)
  {
    assert (acts + [act])[..|acts|] == acts;
  }

  // ---------------------------------------------------------------- the program's passes

  /** Every response this pass gets is the store's, the store holding still meanwhile. */
  predicate HonestPass(hash: string -> Digest, db: Db, host: string, s: Sub, env: nat -> Input, k: nat)
    decreases Remaining(s.stage), |s.pass.rest|
  {
    var i := Running(env(k));
    s.stage.Down? ||
    (Honest(db, host, s, i) &&
     (s.stage.Send? ||
      (TickDescends(hash, s, i);
       HonestPass(hash, db, host, Tick(hash, s, i), env, k + 1))))
  }

  function SentBy(e: Ending): seq<Beacon> {
    match e.sent case None => [] case Some(b) => [b]
  }

  /** A pass, step by step as its environment says, is a stretch of a run of the composed system. */
  lemma {:induction false} PassPlays(cfg: Config, host: string, acts: seq<Act>, env: nat -> Input, k: nat) returns (more: seq<Act>)
    requires var w := Play(cfg, host, acts); HonestPass(cfg.hash, Exec(cfg, w.ops).db, host, w.sub, env, k)
    ensures var w := Play(cfg, host, acts); var e := PassFrom(cfg.hash, w.sub, env, k);
      Play(cfg, host, acts + more) == World(w.ops, e.sub, w.sent + SentBy(e))
    ensures forall j :: 0 <= j < |more| ==> more[j] == Local(Running(env(k + j)))
    decreases Remaining(Play(cfg, host, acts).sub.stage), |Play(cfg, host, acts).sub.pass.rest|
  {
    hide Tick, Play, Exec, Honest;
    var w, i := Play(cfg, host, acts), Running(env(k));
    more := [];
    if w.sub.stage.Down? {
      assert acts + [] == acts;
    } else {
      PlaySnoc(cfg, host, acts, Local(i));
      if w.sub.stage.Send? {
        more := [Local(i)];
      } else {
        TickDescends(cfg.hash, w.sub, i);
        more := PassPlays(cfg, host, acts + [Local(i)], env, k + 1);
        assert acts + [Local(i)] + more == acts + ([Local(i)] + more);
        more := [Local(i)] + more;
      }
    }
  }

  /** One run of the subscriber program against the store, the store holding still: the files it leaves
      and the heartbeat it sends are those of a stretch of the composed system. */
  lemma ConvergeIsPlayed(cfg: Config, host: string, acts: seq<Act>, env: nat -> Input) returns (more: seq<Act>)
    requires var w := Play(cfg, host, acts); w.sub.stage.Idle? && HonestPass(cfg.hash, Exec(cfg, w.ops).db, host, w.sub, env, 0)
    ensures var w, v := Play(cfg, host, acts), Play(cfg, host, acts + more);
      var e := PassFrom(cfg.hash, IdleAt(w.sub.fs, w.sub.pid), env, 0);
      v.ops == w.ops && v.sub.fs == e.sub.fs && v.sent == w.sent + SentBy(e)
  {
    hide Play, HonestPass, PassFrom, Exec;
    more := PassPlays(cfg, host, acts, env, 0);
    IdleForgets(cfg.hash, Play(cfg, host, acts).sub, env);
  }

  lemma IdleForgets(hash: string -> Digest, s: Sub, env: nat -> Input)
    requires s.stage.Idle?
    ensures var e, e' := PassFrom(hash, s, env, 0), PassFrom(hash, IdleAt(s.fs, s.pid), env, 0); e.sub.fs == e'.sub.fs && e.sent == e'.sent
  {
    var i := Running(env(0));
    PassStep(hash, s, env, 0);
    PassStep(hash, IdleAt(s.fs, s.pid), env, 0);
    assert i.Crash? || Tick(hash, s, i) == Tick(hash, IdleAt(s.fs, s.pid), i);
  }

  // ---------------------------------------------------------------- carrying a run on

  /** The process dies and is started again. */
  lemma RestartHere(cfg: Config, host: string, acts: seq<Act>, pid: nat) returns (more: seq<Act>)
    ensures var w := Play(cfg, host, acts); Play(cfg, host, acts + more) == w.(sub := Sub(w.sub.fs, pid, Idle, w.sub.pass))
  {
    hide Exec, Play;
    var w := Play(cfg, host, acts);
    more := [Local(Crash(Nothing)), Local(Restart(pid))];
    PlaySnoc(cfg, host, acts, Local(Crash(Nothing)));
    PlaySnoc(cfg, host, acts + [Local(Crash(Nothing))], Local(Restart(pid)));
    assert acts + [Local(Crash(Nothing))] + [Local(Restart(pid))] == acts + more;
    assert w.sent + [] == w.sent;
  }

  lemma {:induction false} StretchPlays(cfg: Config, host: string, acts: seq<Act>, cur: Current, files: seq<File>) returns (more: seq<Act>)
    requires var w := Play(cfg, host, acts); var db := Exec(cfg, w.ops).db;
      && !w.sub.stage.Down? && (Polled(w.sub) ==> w.sub.pass.cur == cur)
      && CurrentReply(db, host) == Some(cur) && Archive(db, cur.id) == Ok(files)
    ensures var w := Play(cfg, host, acts); Play(cfg, host, acts + more) == w.(sub := ToHeartbeat(cfg.hash, w.sub, cur, TarOf(files)))
    decreases Remaining(Play(cfg, host, acts).sub.stage), |Play(cfg, host, acts).sub.pass.rest|
  {
    hide Tick, Play, Exec, CurrentReply, Archive, TarOf;
    var w, tar := Play(cfg, host, acts), TarOf(files);
    more := [];
    if w.sub.stage.Send? {
      assert acts + [] == acts;
    } else {
      var i := Feed(w.sub, cur, tar);
      TickDescends(cfg.hash, w.sub, i);
      PlaySnoc(cfg, host, acts, Local(i));
      assert w.sent + [] == w.sent;
      TickPolls(cfg.hash, w.sub, i);
      FeedLives(cfg.hash, w.sub, cur, tar);
      more := StretchPlays(cfg, host, acts + [Local(i)], cur, files);
      assert acts + [Local(i)] + more == acts + ([Local(i)] + more);
      more := [Local(i)] + more;
    }
  }

  lemma FeedLives(hash: string -> Digest, s: Sub, cur: Current, tar: seq<Entry>)
    requires !s.stage.Down?
    ensures !Tick(hash, s, Feed(s, cur, tar)).stage.Down?
  {
    hide Components, RecomputeHash, WantSet, Fresh, Matches, DirName, MarkerText, CanWrite, Admits, TempTree, TempName;
  }

  lemma IdleRolls(hash: string -> Digest, s: Sub, cur: Current, tar: seq<Entry>)
    requires s.stage.Idle?
    ensures ToHeartbeat(hash, s, cur, tar) == ToHeartbeat(hash, IdleAt(s.fs, s.pid), cur, tar)
  {
    hide ToHeartbeat;
    var t := Roll(hash, s, cur, tar);
    var t' := Roll(hash, IdleAt(s.fs, s.pid), cur, tar);
  }

  /** Progress: wherever a run stands, in the middle of a pass or dead, once the store has a release it
      can be carried on, the store holding still, to a host that shows exactly the current release and
      a heartbeat that says so, acknowledging if the flag is set. */
  lemma RunsCanConverge(cfg: Config, host: string, acts: seq<Act>, pid: nat) returns (more: seq<Act>)
    requires |Exec(cfg, Play(cfg, host, acts).ops).db.releases| > 0
    ensures var w, v := Play(cfg, host, acts), Play(cfg, host, acts + more); var db := Exec(cfg, w.ops).db;
      && v.ops == w.ops && |v.sent| == |w.sent| + 1 && v.sent[..|w.sent|] == w.sent
      && var b := v.sent[|w.sent|];
      && b.ok && b.ack == (host in db.resync) && b.id == |db.releases| && b.fs == v.sub.fs
      && v.sub.stage.Idle? && Archive(db, b.id).Ok? && View(v.sub.fs) == Some(TreeOf(Archive(db, b.id).value))
  {
    hide Play, Exec, ToHeartbeat, CurrentReply, Archive, TarOf, TreeOf, View, KeepsInstalled, Offers;
    var w := Play(cfg, host, acts);
    var db := Exec(cfg, w.ops).db;
    OnePassConverges(cfg, host, acts, pid, pid);
    CurrentIsOffered(cfg, w.ops, host);
    var cur, files := CurrentReply(db, host).value, Archive(db, |db.releases|).value;
    var start := RestartHere(cfg, host, acts, pid);
    IdleRolls(cfg.hash, Play(cfg, host, acts + start).sub, cur, TarOf(files));
    var stretch := StretchPlays(cfg, host, acts + start, cur, files);
    var t := ToHeartbeat(cfg.hash, IdleAt(w.sub.fs, pid), cur, TarOf(files));
    assert Play(cfg, host, acts + start + stretch) == World(w.ops, t, w.sent);
    PlaySnoc(cfg, host, acts + start + stretch, Local(Go));
    more := start + (stretch + [Local(Go)]);
    assert acts + more == acts + start + stretch + [Local(Go)];
  }

  // ---------------------------------------------------------------- late acknowledgements

  /** The late acknowledgement happens: wherever a run stands, it can be carried on so that a resync is
      requested and converged on, its acknowledgement is still under way when a second request is made,
      no pass polls after that, and delivering the acknowledgement clears the second request. */
  lemma LateAckHappens(cfg: Config, host: string, acts: seq<Act>, pid: nat) returns (more: seq<Act>, k: nat)
    requires ValidIdent(host) && |Exec(cfg, Play(cfg, host, acts).ops).db.releases| > 0
    ensures more != [] && more[|more| - 1] == Serve(Resync(host))
    ensures host in Exec(cfg, Play(cfg, host, acts + more).ops).db.resync
    ensures host !in Exec(cfg, Play(cfg, host, acts + more + [Deliver(k, "")]).ops).db.resync
  {
    hide Play, Exec, Step, TreeOf, Archive, View;
    var request := Serve(Resync(host));
    var w := Play(cfg, host, acts);
    PlaySnoc(cfg, host, acts, request);
    ExecSnoc(cfg, w.ops, Resync(host));
    FlagChange(cfg, Exec(cfg, w.ops).db, Resync(host), host);
    RunExtendsByStep(cfg, w.ops, Resync(host));
    var pass := RunsCanConverge(cfg, host, acts + [request], pid);
    k := |w.sent|;
    LateAckClearsNewerRequest(cfg, host, acts + [request] + pass, k, "");
    more := [request] + pass + [request];
    assert acts + more == acts + [request] + pass + [request];
  }

  /** And a store with a release is two operations away. */
  lemma FirstRelease(cfg: Config, host: string, collection: string) returns (acts: seq<Act>)
    requires ValidIdent(collection) && InReleaseBearing(cfg, collection)
    ensures |Exec(cfg, Play(cfg, host, acts).ops).db.releases| > 0
  {
    hide Candidate, CandidateHash, RowPasses, Fields;
    var save := DocSave("First", "active", "", [], "", "", "", [], "", None);
    var ops := [Op.SaveDoc(collection, "first", save)];
    acts := [Serve(ops[0])] + [Serve(Op.CutRelease("", ""))];
    assert [Serve(ops[0])] == [] + [Serve(ops[0])] && ops == [] + ops && [] + [ops[0]] == ops;
    PlaySnoc(cfg, host, [], Serve(ops[0]));
    PlaySnoc(cfg, host, [Serve(ops[0])], Serve(Op.CutRelease("", "")));
    ExecSnoc(cfg, [], ops[0]);
    ExecSnoc(cfg, ops, Op.CutRelease("", ""));
    var db := Exec(cfg, ops).db;
    FirstSave(cfg, collection, save);
    CandidateAcceptsExactly(cfg, ops);
    CutOutcomes(cfg, db, "", "");
    CutShape(cfg, db, "", "");
  }

  /** So from nothing, with any collection to release, a run leads to the late acknowledgement. */
  lemma LateAckFromScratch(cfg: Config, host: string, collection: string, pid: nat) returns (acts: seq<Act>, k: nat)
    requires ValidIdent(host) && ValidIdent(collection) && InReleaseBearing(cfg, collection)
    ensures acts != [] && acts[|acts| - 1] == Serve(Resync(host))
    ensures host in Exec(cfg, Play(cfg, host, acts).ops).db.resync
    ensures host !in Exec(cfg, Play(cfg, host, acts + [Deliver(k, "")]).ops).db.resync
  {
    hide Play, Exec;
    acts := FirstRelease(cfg, host, collection);
    var more;
    more, k := LateAckHappens(cfg, host, acts, pid);
    acts := acts + more;
  }

  lemma FirstSave(cfg: Config, collection: string, save: DocSave)
    requires ValidIdent(collection) && InReleaseBearing(cfg, collection)
    requires save == DocSave("First", "active", "", [], "", "", "", [], "", None)
    ensures var db := Exec(cfg, [Op.SaveDoc(collection, "first", save)]).db;
      && (exists d :: d in db.docs && Selected(cfg, d))
      && forall d :: d in db.docs && Selected(cfg, d) ==> RowPasses(cfg, db, d)
  {
    hide Step, Exec, ValidIdent, RowPasses, NewRow;
    var op := Op.SaveDoc(collection, "first", save);
    assert [] + [op] == [op];
    ExecSnoc(cfg, [], op);
    NothingExecuted(cfg);
    var row := NewRow(1, collection, "first", 1, save);
    FirstStep(cfg, collection, save);
    var db := Step(cfg, EMPTY, op).0;
    FirstRow(cfg, collection, save);
    assert row in db.docs;
    FirstRowPasses(cfg, db, row);
  }

  lemma NothingExecuted(cfg: Config)
    ensures Exec(cfg, []).db == EMPTY
  {
  }

  lemma FirstStep(cfg: Config, collection: string, save: DocSave)
    requires ValidIdent(collection) && collection in cfg.inRelease
    requires save == DocSave("First", "active", "", [], "", "", "", [], "", None)
    ensures Step(cfg, EMPTY, Op.SaveDoc(collection, "first", save)).0 == EMPTY.(docs := [NewRow(1, collection, "first", 1, save)])
  {
    hide SaveTx, NewRow, ValidIdent, ValidSave;
    SaveIsValid(save);
    FirstSaveTx(cfg, collection, save);
  }

  lemma FirstRow(cfg: Config, collection: string, save: DocSave)
    requires InReleaseBearing(cfg, collection) && save.status == "active" && save.body == ""
    ensures var row := NewRow(1, collection, "first", 1, save); Selected(cfg, row) && row.body == ""
  {
    hide Join;
  }

  lemma SaveIsValid(save: DocSave)
    requires save == DocSave("First", "active", "", [], "", "", "", [], "", None)
    ensures ValidSave(save) && ValidIdent("first")
  {
  }

  lemma FirstSaveTx(cfg: Config, collection: string, save: DocSave)
    requires collection in cfg.inRelease && save.links == [] && save.base.None? && save.status == "active"
    ensures SaveTx(cfg, EMPTY, collection, "first", save) ==
            Outcome(EMPTY.(docs := [NewRow(1, collection, "first", 1, save)]), Ok(1))
  {
    hide NewRow;
    assert Demote([], collection, "first") == [];
  }

  lemma FirstRowPasses(cfg: Config, db: Db, row: DocRow)
    requires db.links == [] && row.body == ""
    ensures RowPasses(cfg, db, row)
  {
  }

  // ---------------------------------------------------------------- what heartbeats name

  /** A heartbeat reports failure and release 0, or a stored release, acknowledging exactly when it is ok
      and its poll carried the flag. */
  ghost predicate NamesRelease(db: Db, b: Beacon) {
    || (b.id == 0 && !b.ok && !b.ack)
    || (b.id == b.pass.cur.id && CurOk(db, b.pass.cur) && b.ack == (b.ok && b.pass.cur.resync))
  }

  ghost predicate ReporterOk(db: Db, s: Sub) {
    s.stage in {Idle, Down} || Reporter(s, NOTHING_YET, false) || (Reporter(s, s.pass.cur, true) && CurOk(db, s.pass.cur))
  }

  ghost predicate NamesOk(cfg: Config, w: World) {
    var db := Exec(cfg, w.ops).db;
    ReporterOk(db, w.sub) && forall k :: 0 <= k < |w.sent| ==> NamesRelease(db, w.sent[k])
  }

  lemma NamesAfterOp(cfg: Config, w: World, op: Op)
    requires NamesOk(cfg, w)
    ensures NamesOk(cfg, w.(ops := w.ops + [op]))
  {
    hide AllReleasesOk, Extends, FilesAt, Exec, Reporter;
    var a, b := Exec(cfg, w.ops).db, Exec(cfg, w.ops + [op]).db;
    ReleasesAreSound(cfg, w.ops);
    RunExtendsByStep(cfg, w.ops, op);
    forall cur: Current | CurOk(a, cur) ensures CurOk(b, cur) { FilesStay(cfg, a, b, cur.id); }
  }

  lemma ReporterAfterTick(cfg: Config, db: Db, host: string, s: Sub, i: Input)
    requires ReporterOk(db, s) && Honest(db, host, s, i) && AllReleasesOk(cfg, db)
    ensures ReporterOk(db, Tick(cfg.hash, s, i))
  {
    hide Tick, Reporter, AllReleasesOk, CurrentReply, CurOk, Archive;
    if s.stage.Idle? {
      FirstPoll(cfg.hash, s, i);
      if i.Reply? {
        ReplyIsNewest(cfg, db, host);
        PolledCur(Tick(cfg.hash, s, i), i.cur);
      }
    } else {
      DownStays(cfg.hash, s, i);
      SendIsLast(cfg.hash, s, i);
      if s.stage !in {Send, Down} {
        OnlySending(s);
        ReporterTicks(cfg.hash, s, i, s.pass.cur);
        if !Tick(cfg.hash, s, i).stage.Down? { PolledCur(Tick(cfg.hash, s, i), s.pass.cur); }
      }
    }
  }

  lemma PolledCur(s: Sub, cur: Current)
    requires Reporter(s, cur, true)
    ensures s.pass.cur == cur
  {
  }

  lemma OnlySending(s: Sub)
    ensures Reporter(s, NOTHING_YET, false) ==> s.stage.Send?
  {
  }

  lemma NamesAfterInput(cfg: Config, host: string, w: World, i: Input)
    requires NamesOk(cfg, w) && Honest(Exec(cfg, w.ops).db, host, w.sub, i)
    ensures NamesOk(cfg, World(w.ops, Tick(cfg.hash, w.sub, i), w.sent + Emitted(w.sub, i)))
  {
    hide Tick, Exec, Honest, CurOk, AllReleasesOk, ReporterOk;
    var db := Exec(cfg, w.ops).db;
    ReleasesAreSound(cfg, w.ops);
    ReporterAfterTick(cfg, db, host, w.sub, i);
    EmittedNames(db, w.sub, i);
  }

  lemma EmittedNames(db: Db, s: Sub, i: Input)
    requires ReporterOk(db, s)
    ensures forall b :: b in Emitted(s, i) ==> NamesRelease(db, b)
  {
    hide CurOk;
  }

  /** In every run every heartbeat, ok or not, names the release its pass polled, or 0 having polled
      nothing. */
  lemma {:induction false} HeartbeatsNameTheirPoll(cfg: Config, host: string, acts: seq<Act>)
    ensures NamesOk(cfg, Play(cfg, host, acts))
  {
    hide Honest, Tick, Emitted, NamesOk;
    if acts == [] {
      StartNames(cfg);
    } else {
      var w, act := Play(cfg, host, acts[..|acts| - 1]), acts[|acts| - 1];
      HeartbeatsNameTheirPoll(cfg, host, acts[..|acts| - 1]);
      match act
      case Serve(op) => NamesAfterOp(cfg, w, op);
      case Local(i) => if Honest(Exec(cfg, w.ops).db, host, w.sub, i) { NamesAfterInput(cfg, host, w, i); }
      case Deliver(k, error) => if k < |w.sent| { NamesAfterOp(cfg, w, Arrival(host, w.sent[k], error)); }
    }
  }

  lemma StartNames(cfg: Config)
    ensures NamesOk(cfg, START)
  {
  }

  // ---------------------------------------------------------------- what the fleet view says

  lemma HeartbeatChange(cfg: Config, db: Db, op: Op, host: string)
    requires !(op.Beat? && op.host == host)
    ensures var after := Step(cfg, db, op).0.heartbeats;
      (host in after <==> host in db.heartbeats) && (host in after ==> after[host] == db.heartbeats[host])
  {
    hide TrimSpace, Candidate, CandidateRows, ValidSave, CandidateHash, ManifestDocs, ClearPolicies;
    match op
    case CutRelease(expected, editor) => CutOutcomes(cfg, db, expected, editor);
    case _ =>
  }

  ghost predicate ReportedBy(row: HeartbeatRow, b: Beacon) {
    row.releaseId == b.id && row.ok == b.ok && (b.ok ==> row.error == "")
  }

  /** The fleet view is truthful: in every run the host's heartbeat row is one the host sent, and when it
      says ok for a release, `corpus` showed exactly that release as it was sent. */
  lemma {:induction false} FleetShowsTruth(cfg: Config, host: string, acts: seq<Act>) returns (k: nat)
    requires host in Exec(cfg, Play(cfg, host, acts).ops).db.heartbeats
    ensures var w := Play(cfg, host, acts); var db := Exec(cfg, w.ops).db; var row := db.heartbeats[host];
      && k < |w.sent| && ReportedBy(row, w.sent[k]) && (row.releaseId == 0 || 1 <= row.releaseId <= |db.releases|)
      && (row.ok ==> Archive(db, row.releaseId).Ok? && View(w.sent[k].fs) == Some(TreeOf(Archive(db, row.releaseId).value)))
  {
    hide Archive, TreeOf, View, Exec;
    k := RowWasSent(cfg, host, acts);
    HeartbeatsNameTheirPoll(cfg, host, acts);
    var w := Play(cfg, host, acts);
    if w.sent[k].ok { HeartbeatsTellTheTruth(cfg, host, acts, k); }
  }

  lemma {:induction false} RowWasSent(cfg: Config, host: string, acts: seq<Act>) returns (k: nat)
    requires host in Exec(cfg, Play(cfg, host, acts).ops).db.heartbeats
    ensures var w := Play(cfg, host, acts); k < |w.sent| && ReportedBy(Exec(cfg, w.ops).db.heartbeats[host], w.sent[k])
  {
    hide Step, Tick, Emitted, Honest;
    if acts == [] {
      assert false;
    } else {
      var init, act := acts[..|acts| - 1], acts[|acts| - 1];
      var w := Play(cfg, host, init);
      if act.Serve? && !(act.op.Beat? && act.op.host == host) {
        ExecSnoc(cfg, w.ops, act.op);
        HeartbeatChange(cfg, Exec(cfg, w.ops).db, act.op, host);
        k := RowWasSent(cfg, host, init);
      } else if act.Deliver? && act.k < |w.sent| {
        ExecSnoc(cfg, w.ops, Arrival(host, w.sent[act.k], act.error));
        if ValidIdent(host) {
          ArrivalWrites(cfg, Exec(cfg, w.ops).db, host, w.sent[act.k], act.error);
          k := act.k;
        } else {
          ArrivalWrites(cfg, Exec(cfg, w.ops).db, host, w.sent[act.k], act.error);
          k := RowWasSent(cfg, host, init);
        }
      } else {
        k := RowWasSent(cfg, host, init);
      }
    }
  }

  lemma ArrivalWrites(cfg: Config, db: Db, host: string, b: Beacon, error: string)
    ensures var after := Step(cfg, db, Arrival(host, b, error)).0.heartbeats;
      if ValidIdent(host) then host in after && ReportedBy(after[host], b) else after == db.heartbeats
  {
  }
}
