/** Which failures a pass survives, what it reports of the others and what it leaves behind. */
module Failures {
  import opened Wrappers
  import opened Text
  import opened StoreModel
  import opened Extraction
  import opened ArchiveRoundTrip
  import opened SubscriberModel
  import opened SubscriberSafety
  import opened SelfStabilisation
  import opened Reports

  // ---------------------------------------------------------------- fatal failures

  predicate Dropping(s: Sub) {
    s.stage in {DropTmp, DropLink} || (s.stage.Send? && !s.pass.ok)
  }

  lemma DroppingTicks(hash: string -> Digest, s: Sub, i: Input)
    requires Dropping(s) && !s.stage.Send? && !i.Restart?
    ensures var t := Tick(hash, s, i); t.stage.Down? || Dropping(t)
  {
    hide FailFs, TempName, TempLink;
  }

  lemma {:induction false} DroppingReports(hash: string -> Digest, s: Sub, env: nat -> Input, k: nat)
    requires Dropping(s)
    ensures var e := PassFrom(hash, s, env, k); e.sent.Some? ==> !e.sent.value.ok
    decreases Remaining(s.stage), |s.pass.rest|
  {
    hide Tick;
    if !s.stage.Send? {
      var i := Running(env(k));
      TickDescends(hash, s, i);
      DroppingTicks(hash, s, i);
      var t := Tick(hash, s, i);
      if t.stage.Down? { DeadPass(hash, t, env, k + 1); } else { DroppingReports(hash, t, env, k + 1); }
    }
  }

  predicate Fatal(stage: Stage) {
    stage in {Idle, Clear, Prepare, MkTmp, Fetch, Extract, Verify, Install, LinkNew, Flip, Mark, DropTmp, DropLink}
  }

  /** A pass in which a step fails is reported as failed, whatever happens afterwards, unless the step is
      reading the marker or a best-effort removal ahead of a creation. */
  lemma FatalFailureIsReported(hash: string -> Digest, s: Sub, m: Mess, env: nat -> Input, k: nat)
    requires Fatal(s.stage)
    ensures var e := PassFrom(hash, Tick(hash, s, Fail(m)), env, k); e.sent.Some? ==> !e.sent.value.ok
  {
    hide FailFs, PassFrom;
    DroppingReports(hash, Tick(hash, s, Fail(m)), env, k);
  }

  // ---------------------------------------------------------------- failures survived

  /** A marker that cannot be read counts as absent: the pass fetches the release anew. */
  lemma UnreadableMarkerPass(hash: string -> Digest, s: Sub, m: Mess, cur: Current, files: seq<File>)
    requires Offers(hash, cur, files) && s.stage.Compare? && s.pass.cur == cur
    ensures var t := ToHeartbeat(hash, Tick(hash, s, Fail(m)), cur, TarOf(files));
      t.stage.Send? && t.pass.ok && View(t.fs) == Some(TreeOf(files)) && t.fs.applied == Some(MarkerText(cur.id, cur.hash))
  {
    hide ToHeartbeat, TarOf, TreeOf, View, MarkerText, Offers;
    FetchingPass(hash, Tick(hash, s, Fail(m)), cur, files);
  }

  /** A stale temporary link that cannot be removed stops the pass; without one the failed removal is of
      no account. Either way the new directory stays installed. */
  lemma StaleLinkPass(hash: string -> Digest, s: Sub, m: Mess, cur: Current, tar: seq<Entry>)
    requires s.stage.LinkOut?
    ensures var t := ToHeartbeat(hash, Tick(hash, s, Fail(m)), cur, tar);
      && t.stage.Send? && (t.pass.ok <==> TempLink(s.pid) !in s.fs.links) && t.fs.dirs == s.fs.dirs
      && (t.pass.ok ==> t.fs.corpus == Some(s.pass.dir) && t.fs.applied == Some(MarkerText(s.pass.cur.id, s.pass.cur.hash)))
      && (!t.pass.ok ==> t.fs == s.fs)
  {
    hide ToHeartbeat, TempLink, MarkerText;
    var s1 := Tick(hash, s, Fail(m));
    assert s1.stage.LinkNew? && s1.fs == s.fs;
    var s2 := Roll(hash, s1, cur, tar);
    if s2.stage.Send? {
      AtHeartbeat(hash, s2, cur, tar);
    } else {
      var s3 := Roll(hash, s2, cur, tar);
      var s4 := Roll(hash, s3, cur, tar);
      AtHeartbeat(hash, s4, cur, tar);
    }
  }

  /** A rename that fails leaves `corpus` and the marker alone and clears the temporary link away. */
  lemma FailedFlipPass(hash: string -> Digest, s: Sub, m: Mess, cur: Current, tar: seq<Entry>)
    requires s.stage.Flip?
    ensures var t := ToHeartbeat(hash, Tick(hash, s, Fail(m)), cur, tar);
      t.stage.Send? && !t.pass.ok && t.fs == s.fs.(links := s.fs.links - {TempLink(s.pid)})
  {
    hide ToHeartbeat, TempLink;
    var s1 := Tick(hash, s, Fail(m));
    var s2 := Roll(hash, s1, cur, tar);
    AtHeartbeat(hash, s2, cur, tar);
  }

  // ---------------------------------------------------------------- refusals leave nothing

  lemma {:induction false} ExtractRefuses(hash: string -> Digest, s: Sub, cur: Current, tar: seq<Entry>, base: Fs)
    requires s.stage.Extract? && s.pass.cur == cur && Temp(s) in s.fs.dirs && WithoutDir(s.fs, Temp(s)) == WithoutDir(base, Temp(s))
    ensures var t := ToHeartbeat(hash, s, cur, tar); t.stage.Send? && (!t.pass.ok ==> t.fs == WithoutDir(base, Temp(s)))
    decreases |s.pass.rest|
  {
    hide ToHeartbeat, Advance, TakeEntry, TempName, RecomputeHash;
    AdvanceIgnoresInput(hash, s, Feed(s, cur, tar));
    var t := Roll(hash, s, cur, tar);
    ExtractStep(s, base);
    if t.stage.Extract? {
      ExtractRefuses(hash, t, cur, tar, base);
    } else if t.stage.Verify? {
      VerifyRefuses(hash, t, cur, tar, base);
    } else {
      DropEnds(hash, t, cur, tar, base);
    }
  }

  lemma ExtractStep(s: Sub, base: Fs)
    requires s.stage.Extract? && Temp(s) in s.fs.dirs && WithoutDir(s.fs, Temp(s)) == WithoutDir(base, Temp(s))
    ensures var t := TakeEntry(s);
      && t.pass.cur == s.pass.cur && Temp(t) == Temp(s) && Temp(t) in t.fs.dirs && WithoutDir(t.fs, Temp(t)) == WithoutDir(base, Temp(t))
      && (t.stage.DropTmp? || t.stage.Verify? || (t.stage.Extract? && |t.pass.rest| < |s.pass.rest|))
  {
    hide TempName, Components, CanWrite, Admits;
    var t := TakeEntry(s);
    assert t.fs == s.fs || exists tree :: t.fs == WithDir(s.fs, Temp(s), tree);
    assert t.fs.dirs - {Temp(s)} == s.fs.dirs - {Temp(s)};
  }

  lemma DropEnds(hash: string -> Digest, s: Sub, cur: Current, tar: seq<Entry>, base: Fs)
    requires s.stage.DropTmp? && WithoutDir(s.fs, Temp(s)) == WithoutDir(base, Temp(s))
    ensures var t := ToHeartbeat(hash, s, cur, tar); t.stage.Send? && !t.pass.ok && t.fs == WithoutDir(base, Temp(s))
  {
    hide ToHeartbeat, TempName;
    var t := Roll(hash, s, cur, tar);
    AtHeartbeat(hash, t, cur, tar);
  }

  lemma VerifyRefuses(hash: string -> Digest, s: Sub, cur: Current, tar: seq<Entry>, base: Fs)
    requires s.stage.Verify? && s.pass.cur == cur && Temp(s) in s.fs.dirs && WithoutDir(s.fs, Temp(s)) == WithoutDir(base, Temp(s))
    ensures var t := ToHeartbeat(hash, s, cur, tar); t.stage.Send? && (t.pass.ok <==> Hashes(hash, TempTree(s), cur))
    ensures var t := ToHeartbeat(hash, s, cur, tar); !t.pass.ok ==> t.fs == WithoutDir(base, Temp(s))
  {
    hide ToHeartbeat, TempName, RecomputeHash, TempTree;
    if Hashes(hash, TempTree(s), cur) {
      ToSend(hash, s, cur, tar);
    } else {
      var t := Roll(hash, s, cur, tar);
      DropEnds(hash, t, cur, tar, base);
    }
  }

  /** Refusals leave nothing: whatever manifest and archive a server answers, an undisturbed pass that
      does not end ok has changed nothing but to clear its temporary directory away, and before that
      its manifest's paths being unsafe, not even that. */
  lemma RefusedPass(hash: string -> Digest, s: Sub, cur: Current, tar: seq<Entry>)
    requires s.stage.Prepare? && s.pass.cur == cur
    ensures var t := ToHeartbeat(hash, s, cur, tar);
      && t.stage.Send?
      && (!t.pass.ok ==> t.fs == if WantSet(cur.paths).Some? then WithoutDir(s.fs, TempName(cur.id, s.pid)) else s.fs)
      && (WantSet(cur.paths).None? ==> !t.pass.ok)
  {
    hide ToHeartbeat, TempName, RecomputeHash, WantSet, TempTree;
    var s1 := Roll(hash, s, cur, tar);
    if WantSet(cur.paths).None? {
      AtHeartbeat(hash, s1, cur, tar);
    } else {
      var s2 := Roll(hash, s1, cur, tar);
      ToExtract(hash, s2, cur, tar);
      var temp := TempName(cur.id, s.pid);
      var e := Sub(WithDir(s2.fs, temp, TempTree(s2)), s.pid, Extract, s2.pass.(left := TempTree(s2), rest := tar, whole := true, seen := {}, got := []));
      assert e.fs.dirs - {temp} == s.fs.dirs - {temp};
      ExtractRefuses(hash, e, cur, tar, s.fs);
    }
  }

  // ---------------------------------------------------------------- torn writes

  /** A write broken off may leave any part of the marker from its start, by failure or by death. */
  lemma AnyStartMayBeLeft(hash: string -> Digest, s: Sub, part: string)
    requires s.stage.Mark? && part <= MarkerText(s.pass.cur.id, s.pass.cur.hash)
    ensures Tick(hash, s, Fail(Bytes(|part|))).fs == s.fs.(applied := Some(part))
    ensures Tick(hash, s, Crash(Bytes(|part|))).fs == s.fs.(applied := Some(part)) && Tick(hash, s, Crash(Nothing)).fs == s.fs
  {
    hide MarkerText;
    assert Prefix(MarkerText(s.pass.cur.id, s.pass.cur.hash), |part|) == part;
  }
}
