/** What a pass reports: the release it polled, ok or not, and an acknowledgement exactly when earned. */
module Reports {
  import opened Wrappers
  import opened Text
  import opened StoreModel
  import opened Extraction
  import opened SubscriberModel
  import opened SubscriberSafety

  /** A pass under way that polled this response, or, `polled` being false, one that got none. */
  predicate Reporter(s: Sub, cur: Current, polled: bool) {
    var p := s.pass;
    if !polled then s.stage.Send? && !p.ok && !p.ack && p.cur == NOTHING_YET
    else
      && !s.stage.Idle? && p.cur == cur
      && (s.stage.Clear? ==> cur.resync)
      && (s.stage !in {Clear, Send, Down} ==> p.fired == cur.resync)
      && (s.stage.Compare? && p.fired ==> s.fs.applied.None?)
      && (s.stage.Send? ==> p.ack == (p.ok && cur.resync))
  }

  lemma ReporterBegins(hash: string -> Digest, s: Sub, i: Input, cur: Current)
    requires Reporter(s, cur, true) && s.stage in {Clear, Compare, Prepare, RmTmp, MkTmp, Fetch}
    ensures Reporter(Advance(hash, s, i), cur, true)
  {
    hide WantSet, TempTree, TempName, Fields, WithDir, WithoutDir;
  }

  lemma ReporterGoesOn(hash: string -> Digest, s: Sub, i: Input, cur: Current)
    requires Reporter(s, cur, true) && s.stage !in {Clear, Compare, Prepare, RmTmp, MkTmp, Fetch, Send, Down}
    ensures Reporter(Advance(hash, s, i), cur, true)
  {
    hide Components, RecomputeHash, Fresh, DirName, MarkerText, CanWrite, Admits, TempTree, TempName, TempLink, WithDir, WithoutDir;
  }

  lemma ReporterAdvances(hash: string -> Digest, s: Sub, i: Input, cur: Current)
    requires Reporter(s, cur, true) && s.stage !in {Send, Down}
    ensures Reporter(Advance(hash, s, i), cur, true)
  {
    hide Advance;
    if s.stage in {Clear, Compare, Prepare, RmTmp, MkTmp, Fetch} {
      ReporterBegins(hash, s, i, cur);
    } else {
      StageOfReporter(s, cur);
      ReporterGoesOn(hash, s, i, cur);
    }
  }

  lemma StageOfReporter(s: Sub, cur: Current)
    requires Reporter(s, cur, true)
    ensures !s.stage.Idle?
  {
  }

  lemma FailLeavesMarker(s: Sub, m: Mess)
    ensures !s.stage.Mark? ==> FailFs(s, m).applied == s.fs.applied
  {
    hide Components, CanWrite, Admits, TempName, HalfRemoved;
  }

  lemma ReporterFails(s: Sub, fs: Fs, cur: Current)
    requires Reporter(s, cur, true) && s.stage !in {Send, Down}
    ensures Reporter(AfterFail(s.(fs := fs)), cur, true)
  {
  }

  lemma ReporterTicks(hash: string -> Digest, s: Sub, i: Input, cur: Current)
    requires Reporter(s, cur, true) && s.stage !in {Send, Down}
    ensures var t := Tick(hash, s, i); t.stage.Down? || Reporter(t, cur, true)
  {
    hide Advance, FailFs, AfterFail;
    match i
    case Crash(_) =>
    case Fail(m) => ReporterFails(s, FailFs(s, m), cur);
    case Restart(_) =>
    case _ => ReporterAdvances(hash, s, i, cur);
  }

  lemma FirstPoll(hash: string -> Digest, s: Sub, i: Input)
    requires s.stage.Idle?
    ensures var t := Tick(hash, s, i);
      && (i.Restart? ==> t.stage.Idle?) && (i.Crash? <==> t.stage.Down?)
      && (!i.Restart? && !i.Crash? ==> Reporter(t, if i.Reply? then i.cur else NOTHING_YET, i.Reply?))
  {
  }

  // ---------------------------------------------------------------- one pass

  /** What a heartbeat says, given the input of its pass's poll. */
  predicate Reports(b: Beacon, poll: Input) {
    if poll.Reply? then
      b.id == poll.cur.id && b.pass.cur == poll.cur && b.ack == (b.ok && poll.cur.resync)
    else
      b.id == 0 && !b.ok && !b.ack
  }

  lemma {:induction false} RestReports(hash: string -> Digest, s: Sub, env: nat -> Input, k: nat, cur: Current)
    requires Reporter(s, cur, true)
    ensures var e := PassFrom(hash, s, env, k);
      && (e.sent.Some? ==> Reports(e.sent.value, Reply(cur)) && e.sent.value.fs == e.sub.fs)
      && (e.sent.None? <==> e.sub.stage.Down?)
    ensures PassFrom(hash, s, env, k).sent.None? && !s.stage.Down? ==> exists j :: j >= k && env(j).Crash?
    decreases Remaining(s.stage), |s.pass.rest|
  {
    hide Tick;
    var i := Running(env(k));
    if s.stage.Send? {
      SendEnds(hash, s, i);
      assert i.Crash? ==> env(k).Crash?;
    } else if !s.stage.Down? {
      TickDescends(hash, s, i);
      ReporterTicks(hash, s, i, cur);
      var t := Tick(hash, s, i);
      if t.stage.Down? {
        DownByCrash(hash, s, i);
        assert env(k).Crash?;
      } else {
        RestReports(hash, t, env, k + 1, cur);
      }
    }
  }

  lemma SendEnds(hash: string -> Digest, s: Sub, i: Input)
    requires s.stage.Send? && !i.Restart?
    ensures Tick(hash, s, i).fs == s.fs && (Tick(hash, s, i).stage.Down? <==> i.Crash?)
  {
  }

  lemma DownByCrash(hash: string -> Digest, s: Sub, i: Input)
    requires !s.stage.Down? && Tick(hash, s, i).stage.Down?
    ensures i.Crash?
  {
    hide Components, RecomputeHash, WantSet, Fresh, Matches, DirName, MarkerText, CanWrite, Admits, FailFs, TempTree, TempName;
  }

  /** Every pass sends exactly one heartbeat unless it dies. A pass that polled a response reports that
      response's release, whether it went well or not, and acknowledges exactly when it went well and
      the response carried the flag; a pass that got no response reports failure and release 0. */
  lemma PassReports(hash: string -> Digest, fs: Fs, pid: nat, env: nat -> Input)
    ensures var e := PassFrom(hash, Sub(fs, pid, Idle, NewPass(NOTHING_YET, fs)), env, 0);
      && (e.sent.Some? ==> Reports(e.sent.value, env(0)) && e.sent.value.fs == e.sub.fs)
      && (e.sent.None? <==> e.sub.stage.Down?)
      && (e.sent.None? ==> exists j: nat :: env(j).Crash?)
  {
    hide Tick, PassFrom, Reporter;
    var s := Sub(fs, pid, Idle, NewPass(NOTHING_YET, fs));
    var i := Running(env(0));
    FirstPoll(hash, s, i);
    PassStep(hash, s, env, 0);
    var t := Tick(hash, s, i);
    if i.Crash? {
      DeadPass(hash, t, env, 1);
      assert env(0).Crash?;
    } else if i.Reply? {
      RestReports(hash, t, env, 1, i.cur);
      if PassFrom(hash, t, env, 1).sent.None? {
        var j :| j >= 1 && env(j).Crash?;
      }
    } else {
      UnpolledPass(hash, t, env, 1);
    }
  }

  lemma DeadPass(hash: string -> Digest, s: Sub, env: nat -> Input, k: nat)
    requires s.stage.Down?
    ensures PassFrom(hash, s, env, k) == Ending(s, None)
  {
  }

  lemma UnpolledPass(hash: string -> Digest, s: Sub, env: nat -> Input, k: nat)
    requires Reporter(s, NOTHING_YET, false)
    ensures var e := PassFrom(hash, s, env, k);
      && (e.sent.Some? ==> Reports(e.sent.value, Go) && e.sent.value.fs == e.sub.fs)
      && (e.sent.None? <==> e.sub.stage.Down?) && (e.sent.None? ==> env(k).Crash?)
  {
    hide Tick;
    SendEnds(hash, s, Running(env(k)));
  }

  // ---------------------------------------------------------------- whole runs

  /** The poll that began the pass under way: input `j`, met when idle, the process not idle since. */
  ghost predicate PollOf(hash: string -> Digest, s: Sub, inputs: seq<Input>, j: nat) {
    && j < |inputs| && Ticks(hash, s, inputs[..j]).stage.Idle?
    && (forall k :: j < k <= |inputs| ==> !Ticks(hash, s, inputs[..k]).stage.Idle?)
  }

  lemma {:induction false} RunReporter(hash: string -> Digest, s: Sub, inputs: seq<Input>) returns (j: nat)
    requires s.stage.Idle?
    ensures var t := Ticks(hash, s, inputs);
      t.stage in {Idle, Down} ||
      (PollOf(hash, s, inputs, j) && Reporter(t, if inputs[j].Reply? then inputs[j].cur else NOTHING_YET, inputs[j].Reply?))
  {
    hide Tick, Reporter;
    j := 0;
    if inputs != [] {
      var n := |inputs| - 1;
      var before, t, i := Ticks(hash, s, inputs[..n]), Ticks(hash, s, inputs), inputs[n];
      j := RunReporter(hash, s, inputs[..n]);
      assert inputs[..n + 1] == inputs;
      if t.stage !in {Idle, Down} {
        if before.stage.Idle? {
          FirstPoll(hash, before, i);
          j := n;
        } else {
          DownStays(hash, before, i);
          SendIsLast(hash, before, i);
          UnpolledSends(before, inputs[..n][j]);
          if before.stage !in {Down, Send} { ReporterTicks(hash, before, i, inputs[..n][j].cur); }
          forall k | j < k <= |inputs| ensures !Ticks(hash, s, inputs[..k]).stage.Idle? {
            if k <= n { assert inputs[..n][..k] == inputs[..k]; }
          }
          assert inputs[..n][..j] == inputs[..j];
        }
      }
    }
  }

  lemma DownStays(hash: string -> Digest, s: Sub, i: Input)
    ensures s.stage.Down? ==> Tick(hash, s, i).stage in {Idle, Down}
  {
  }

  lemma SendIsLast(hash: string -> Digest, s: Sub, i: Input)
    ensures s.stage.Send? ==> Tick(hash, s, i).stage in {Idle, Down} || Tick(hash, s, i) == s
  {
  }

  lemma UnpolledSends(s: Sub, poll: Input)
    ensures Reporter(s, if poll.Reply? then poll.cur else NOTHING_YET, poll.Reply?) && !s.stage.Send? ==> poll.Reply?
  {
  }

  /** In every run of the machine, every heartbeat reports on the poll of its own pass. */
  lemma RunsReport(hash: string -> Digest, s: Sub, inputs: seq<Input>, i: Input) returns (j: nat)
    requires s.stage.Idle? && Emits(Ticks(hash, s, inputs), i).Some?
    ensures PollOf(hash, s, inputs, j) && Reports(Emits(Ticks(hash, s, inputs), i).value, inputs[j])
  {
    hide Ticks;
    j := RunReporter(hash, s, inputs);
  }
}
