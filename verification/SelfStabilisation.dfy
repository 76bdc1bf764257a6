/** One undisturbed pass against a quiescent server ends on the current release. */
module SelfStabilisation {
  import opened Wrappers
  import opened Text
  import opened StoreModel
  import opened StoreLog
  import opened StoreReleases
  import opened StorePublish
  import opened Extraction
  import opened ArchiveRoundTrip
  import opened SubscriberModel
  import opened SubscriberSafety
  import opened World
  import opened Convergence

  /** What an undisturbed network and file system answer to the current step. */
  function Feed(s: Sub, cur: Current, tar: seq<Entry>): Input {
    match s.stage case Idle => Reply(cur) case Fetch => Stream(tar, true) case _ => Go
  }

  /** The pass from here to the heartbeat it sends; it always gets there. */
  function ToHeartbeat(hash: string -> Digest, s: Sub, cur: Current, tar: seq<Entry>): Sub
    decreases Remaining(s.stage), |s.pass.rest|
  {
    if s.stage.Send? || s.stage.Down? then s
    else
      TickDescends(hash, s, Feed(s, cur, tar));
      ToHeartbeat(hash, Tick(hash, s, Feed(s, cur, tar)), cur, tar)
  }

  /** One step of an undisturbed pass. */
  lemma Roll(hash: string -> Digest, s: Sub, cur: Current, tar: seq<Entry>) returns (t: Sub)
    requires !s.stage.Send? && !s.stage.Down?
    ensures t == Advance(hash, s, Feed(s, cur, tar)) && ToHeartbeat(hash, s, cur, tar) == ToHeartbeat(hash, t, cur, tar)
  {
    hide Advance;
    t := Tick(hash, s, Feed(s, cur, tar));
  }

  lemma AtHeartbeat(hash: string -> Digest, s: Sub, cur: Current, tar: seq<Entry>)
    requires s.stage.Send?
    ensures ToHeartbeat(hash, s, cur, tar) == s
  {
  }

  function IdleAt(fs: Fs, pid: nat): Sub {
    Sub(fs, pid, Idle, NewPass(NOTHING_YET, fs))
  }

  /** A release offered on the wire: manifest, archive and hash belong together. */
  ghost predicate Offers(hash: string -> Digest, cur: Current, files: seq<File>) {
    Layable(files) && cur.paths == PathsOf(files) && cur.hash == ContentHash(hash, files)
  }

  // ---------------------------------------------------------------- the steps of a good pass

  lemma ToMake(hash: string -> Digest, s: Sub, cur: Current, files: seq<File>)
    requires Offers(hash, cur, files) && s.stage.Prepare? && s.pass.cur == cur
    ensures ToHeartbeat(hash, s, cur, TarOf(files)) ==
            ToHeartbeat(hash, Sub(WithoutDir(s.fs, TempName(cur.id, s.pid)), s.pid, MkTmp, s.pass.(want := NameSet(cur.paths))), cur, TarOf(files))
  {
    hide Components, TarOf, PathsOf, TempName, RecomputeHash, Fresh, ToHeartbeat, Layable;
    LayableWantSet(files);
    var s1 := Roll(hash, s, cur, TarOf(files));
    var s2 := Roll(hash, s1, cur, TarOf(files));
  }

  lemma ToExtract(hash: string -> Digest, s: Sub, cur: Current, tar: seq<Entry>)
    requires s.stage.MkTmp? && s.pass.cur == cur
    ensures var pass := s.pass.(left := TempTree(s), rest := tar, whole := true, seen := {}, got := []);
      ToHeartbeat(hash, s, cur, tar) == ToHeartbeat(hash, Sub(WithDir(s.fs, Temp(s), TempTree(s)), s.pid, Extract, pass), cur, tar)
  {
    hide Components, TempName, RecomputeHash, Fresh, ToHeartbeat;
    var s1 := Roll(hash, s, cur, tar);
    var s2 := Roll(hash, s1, cur, tar);
  }

  /** Where an undisturbed extraction ends. */
  function Extracted(s: Sub, tree: Tree): Sub {
    var p := s.pass;
    Sub(WithDir(s.fs, Temp(s), tree), s.pid, Verify, p.(rest := [], seen := p.seen + NamesOf(p.rest), got := p.got + p.rest))
  }

  lemma {:induction false} ThroughExtract(hash: string -> Digest, s: Sub, cur: Current, tar: seq<Entry>, tree: Tree)
    requires s.stage.Extract? && s.pass.cur == cur && s.pass.whole && Temp(s) in s.fs.dirs
    requires ExtractFrom(TempTree(s), s.pass.seen, s.pass.rest, s.pass.want) == Some(tree)
    ensures ToHeartbeat(hash, s, cur, tar) == ToHeartbeat(hash, Extracted(s, tree), cur, tar)
    decreases |s.pass.rest|
  {
    hide ToHeartbeat, Extracted, Advance, ExtractFrom, TempTree, Temp;
    var t := Roll(hash, s, cur, tar);
    AdvanceIgnoresInput(hash, s, Feed(s, cur, tar));
    if s.pass.rest == [] {
      ExtractEnds(s, tree);
    } else {
      ExtractTakes(s, tree);
      ThroughExtract(hash, t, cur, tar, tree);
      ExtractedSame(s, t, tree);
    }
  }

  lemma ExtractEnds(s: Sub, tree: Tree)
    requires s.stage.Extract? && s.pass.rest == [] && s.pass.whole && Temp(s) in s.fs.dirs
    requires ExtractFrom(TempTree(s), s.pass.seen, s.pass.rest, s.pass.want) == Some(tree)
    ensures TakeEntry(s) == Extracted(s, tree)
  {
    hide TempName;
    assert NamesOf([]) == {} && s.pass.seen + {} == s.pass.seen && s.pass.got + [] == s.pass.got;
    assert s.fs.dirs[Temp(s) := tree] == s.fs.dirs;
  }

  lemma ExtractTakes(s: Sub, tree: Tree)
    requires s.stage.Extract? && s.pass.rest != [] && Temp(s) in s.fs.dirs
    requires ExtractFrom(TempTree(s), s.pass.seen, s.pass.rest, s.pass.want) == Some(tree)
    ensures var t, e := TakeEntry(s), s.pass.rest[0];
      && t.stage.Extract? && t.pid == s.pid && Temp(t) == Temp(s) && Temp(t) in t.fs.dirs
      && t.fs == WithDir(s.fs, Temp(s), TempTree(t))
      && t.pass == s.pass.(rest := s.pass.rest[1..], seen := s.pass.seen + {e.name}, got := s.pass.got + [e])
      && ExtractFrom(TempTree(t), t.pass.seen, t.pass.rest, t.pass.want) == Some(tree)
  {
    hide Components, CanWrite, Admits, TempName;
    assert TempTree(TakeEntry(s)) == TempTree(s)[Components(s.pass.rest[0].name) := s.pass.rest[0].body];
  }

  lemma ExtractedSame(s: Sub, t: Sub, tree: Tree)
    requires s.pass.rest != [] && t.pid == s.pid && Temp(t) == Temp(s)
    requires var e := s.pass.rest[0];
      && t.fs == WithDir(s.fs, Temp(s), TempTree(t))
      && t.pass == s.pass.(rest := s.pass.rest[1..], seen := s.pass.seen + {e.name}, got := s.pass.got + [e])
    ensures Extracted(t, tree) == Extracted(s, tree)
  {
    hide TempName, TempTree;
    var e, rest := s.pass.rest[0], s.pass.rest[1..];
    assert s.pass.rest == [e] + rest;
    NamesOfCons(e, rest);
    assert s.pass.seen + {e.name} + NamesOf(rest) == s.pass.seen + NamesOf(s.pass.rest);
    assert s.pass.got + [e] + rest == s.pass.got + s.pass.rest;
  }

  lemma NamesOfCons(e: Entry, rest: seq<Entry>)
    ensures NamesOf([e] + rest) == {e.name} + NamesOf(rest)
  {
    var all := [e] + rest;
    assert all[0] == e && forall i :: 0 <= i < |rest| ==> all[i + 1] == rest[i];
    forall w | w in NamesOf(all) ensures w in {e.name} + NamesOf(rest) {
      var i :| 0 <= i < |all| && all[i].name == w;
      assert i > 0 ==> rest[i - 1].name == w;
    }
    forall w | w in {e.name} + NamesOf(rest) ensures w in NamesOf(all) {
      if w != e.name { var i :| 0 <= i < |rest| && rest[i].name == w; assert all[i + 1].name == w; }
    }
  }

  /** Verified, installed and linked. */
  lemma ToFlip(hash: string -> Digest, s: Sub, cur: Current, tar: seq<Entry>) returns (t: Sub)
    requires s.stage.Verify? && s.pass.cur == cur && Temp(s) in s.fs.dirs && Hashes(hash, TempTree(s), cur)
    ensures ToHeartbeat(hash, s, cur, tar) == ToHeartbeat(hash, t, cur, tar)
    ensures var dir := DirName(cur.id, Fresh(s.fs.dirs.Keys, cur.id));
      && t.stage.Flip? && t.pass == s.pass.(dir := dir)
      && t.fs.dirs == (s.fs.dirs - {Temp(s)})[dir := TempTree(s)]
  {
    hide Components, TempName, DirName, RecomputeHash, Decimal, MarkerText, Fresh, ToHeartbeat, Overlay;
    var s1 := Roll(hash, s, cur, tar);
    var s2 := Roll(hash, s1, cur, tar);
    var s3 := Roll(hash, s2, cur, tar);
    t := Roll(hash, s3, cur, tar);
  }

  lemma ToSend(hash: string -> Digest, s: Sub, cur: Current, tar: seq<Entry>)
    requires s.stage.Verify? && s.pass.cur == cur && Temp(s) in s.fs.dirs && Hashes(hash, TempTree(s), cur)
    ensures var t := ToHeartbeat(hash, s, cur, tar); var dir := DirName(cur.id, Fresh(s.fs.dirs.Keys, cur.id));
      && t.stage.Send? && t.pass.ok && t.pass.ack == s.pass.fired && t.pass.cur == cur
      && t.fs.corpus == Some(dir) && View(t.fs) == Some(TempTree(s))
      && t.fs.applied == Some(MarkerText(cur.id, cur.hash))
      && t.fs.dirs == (s.fs.dirs - {Temp(s)})[dir := TempTree(s)]
  {
    hide Components, TempName, DirName, RecomputeHash, Decimal, MarkerText, Fresh, ToHeartbeat, Overlay, TempTree;
    var s4 := ToFlip(hash, s, cur, tar);
    var s5 := Roll(hash, s4, cur, tar);
    var s6 := Roll(hash, s5, cur, tar);
    AtHeartbeat(hash, s6, cur, tar);
  }

  lemma OverlayExtracts(left: Tree, files: seq<File>)
    requires Layable(files) && Disjoint(left, TarOf(files))
    ensures ExtractFrom(left, {}, TarOf(files), NameSet(PathsOf(files))) == Some(Overlay(left, TarOf(files)))
  {
    hide Components, Overlay;
    var want := NameSet(PathsOf(files));
    LayableExtracts(files);
    ExtractFromDecides(map[], {}, TarOf(files), want);
    ExtractFromDecides(left, {}, TarOf(files), want);
  }

  /** A file of the archive wins over anything found under its path. */
  lemma OverlayBodies(left: Tree, files: seq<File>, i: nat)
    requires Layable(files) && i < |files|
    ensures var p := Components(files[i].path); LastBody(TarOf(files), p) == Some(files[i].body)
    ensures var p := Components(files[i].path); p in Overlay(left, TarOf(files)) && Overlay(left, TarOf(files))[p] == files[i].body
  {
    hide Components;
    var p := Components(files[i].path);
    LayableTree(files, i);
    OverlayHolds(map[], TarOf(files), p);
    OverlayHolds(left, TarOf(files), p);
  }

  lemma OverlayRehashes(hash: string -> Digest, left: Tree, cur: Current, files: seq<File>)
    requires Offers(hash, cur, files)
    ensures Hashes(hash, Overlay(left, TarOf(files)), cur)
  {
    hide Components, Overlay;
    forall i | 0 <= i < |files| { OverlayBodies(left, files, i); }
    ReadFilesBack(Overlay(left, TarOf(files)), files);
  }

  /** From the making of the temporary directory on, whatever the removal left in it: the offered files
      are laid over that, and the result is installed in a directory that was free, selected and
      marked. */
  lemma FillingPass(hash: string -> Digest, s: Sub, cur: Current, files: seq<File>)
    requires Offers(hash, cur, files) && s.stage.MkTmp? && s.pass.cur == cur && s.pass.want == NameSet(cur.paths)
    requires Disjoint(TempTree(s), TarOf(files))
    ensures var t := ToHeartbeat(hash, s, cur, TarOf(files)); var tree := Overlay(TempTree(s), TarOf(files));
      && t.stage.Send? && t.pass.ok && t.pass.ack == s.pass.fired && t.pass.cur == cur
      && View(t.fs) == Some(tree) && t.fs.applied == Some(MarkerText(cur.id, cur.hash))
      && t.fs.corpus.Some? && !IsTemp(t.fs.corpus.value) && t.fs.corpus.value !in s.fs.dirs && KeepsInstalled(s.fs, t.fs)
  {
    hide Components, Overlay, DirName, TempName, RecomputeHash, MarkerText, Layable, TarOf, ToHeartbeat, ExtractFrom, Disjoint;
    var tar, left := TarOf(files), TempTree(s);
    ToExtract(hash, s, cur, tar);
    var e := Sub(WithDir(s.fs, Temp(s), left), s.pid, Extract, s.pass.(left := left, rest := tar, whole := true, seen := {}, got := []));
    assert TempTree(e) == left;
    OverlayExtracts(left, files);
    ThroughExtract(hash, e, cur, tar, Overlay(left, tar));
    var v := Extracted(e, Overlay(left, tar));
    OverlayRehashes(hash, left, cur, files);
    assert TempTree(v) == Overlay(left, tar);
    ToSend(hash, v, cur, tar);
    NamesApart(cur.id, Fresh(v.fs.dirs.Keys, cur.id), cur.id, s.pid);
    assert v.fs.dirs.Keys == s.fs.dirs.Keys + {Temp(s)};
  }

  /** A pass that has to fetch: whatever directories, links and marker it finds, it installs the
      offered files in a directory that was free, points `corpus` there and marks it. */
  lemma FetchingPass(hash: string -> Digest, s: Sub, cur: Current, files: seq<File>)
    requires Offers(hash, cur, files) && s.stage.Prepare? && s.pass.cur == cur
    ensures var t := ToHeartbeat(hash, s, cur, TarOf(files));
      && t.stage.Send? && t.pass.ok && t.pass.ack == s.pass.fired && t.pass.cur == cur
      && View(t.fs) == Some(TreeOf(files)) && t.fs.applied == Some(MarkerText(cur.id, cur.hash))
      && t.fs.corpus.Some? && t.fs.corpus.value !in s.fs.dirs && KeepsInstalled(s.fs, t.fs)
  {
    hide Components, Overlay, DirName, TempName, RecomputeHash, MarkerText, Layable, TarOf, ToHeartbeat, Disjoint;
    var temp := TempName(cur.id, s.pid);
    ToMake(hash, s, cur, files);
    var m := Sub(WithoutDir(s.fs, temp), s.pid, MkTmp, s.pass.(want := NameSet(cur.paths)));
    assert TempTree(m) == map[];
    LayableDisjoint(files);
    FillingPass(hash, m, cur, files);
    NamesApart(0, 0, cur.id, s.pid);
  }

  lemma LayableDisjoint(files: seq<File>)
    requires Layable(files)
    ensures Disjoint(map[], TarOf(files))
  {
    LayableExtracts(files);
    ExtractFromDecides(map[], {}, TarOf(files), set p | p in PathsOf(files));
  }

  // ---------------------------------------------------------------- resync heals anything

  /** With the resync flag set, one undisturbed pass reaches the current release from any local state
      at all: whatever trees, links and marker are lying around, however they came about. */
  lemma ResyncHeals(hash: string -> Digest, fs: Fs, pid: nat, cur: Current, files: seq<File>)
    requires Offers(hash, cur, files) && cur.resync
    ensures var t := ToHeartbeat(hash, IdleAt(fs, pid), cur, TarOf(files));
      && t.stage.Send? && t.pass.ok && t.pass.ack && t.pass.cur == cur
      && View(t.fs) == Some(TreeOf(files)) && t.fs.applied == Some(MarkerText(cur.id, cur.hash))
      && t.fs.corpus.Some? && t.fs.corpus.value !in fs.dirs && KeepsInstalled(fs, t.fs)
  {
    hide Components, Overlay, RecomputeHash, MarkerText, Layable, Offers, ToHeartbeat, TarOf, TreeOf;
    var s1 := Roll(hash, IdleAt(fs, pid), cur, TarOf(files));
    var s2 := Roll(hash, s1, cur, TarOf(files));
    var s3 := Roll(hash, s2, cur, TarOf(files));
    FetchingPass(hash, s3, cur, files);
  }

  /** A marker that names the current release: the pass changes nothing on disk and reports ok. */
  lemma ConvergedPass(hash: string -> Digest, fs: Fs, pid: nat, cur: Current, tar: seq<Entry>)
    requires Matches(fs, cur) && !cur.resync
    ensures var t := ToHeartbeat(hash, IdleAt(fs, pid), cur, tar); t.stage.Send? && t.pass.ok && !t.pass.ack && t.pass.cur == cur && t.fs == fs
  {
    hide Matches, ToHeartbeat;
    var s1 := Roll(hash, IdleAt(fs, pid), cur, tar);
    var s2 := Roll(hash, s1, cur, tar);
    AtHeartbeat(hash, s2, cur, tar);
  }

  lemma UnmatchedPass(hash: string -> Digest, fs: Fs, pid: nat, cur: Current, files: seq<File>)
    requires Offers(hash, cur, files) && !Matches(fs, cur) && !cur.resync
    ensures var t := ToHeartbeat(hash, IdleAt(fs, pid), cur, TarOf(files));
      && t.stage.Send? && t.pass.ok && !t.pass.ack && t.pass.cur == cur && View(t.fs) == Some(TreeOf(files)) && t.fs.applied == Some(MarkerText(cur.id, cur.hash))
      && KeepsInstalled(fs, t.fs)
  {
    hide Components, Overlay, RecomputeHash, MarkerText, Layable, Offers, Matches, ToHeartbeat, TarOf, TreeOf;
    var s1 := Roll(hash, IdleAt(fs, pid), cur, TarOf(files));
    var s2 := Roll(hash, s1, cur, TarOf(files));
    FetchingPass(hash, s2, cur, files);
  }

  /** A marker names the current release exactly when its text is the id and the hash, parted and
      surrounded by any white space; anything else counts as no marker. */
  lemma MarkerMatchesExactly(fs: Fs, cur: Current)
    ensures Matches(fs, cur) <==> fs.applied.Some? && Fields(fs.applied.value) == [Decimal(cur.id), cur.hash]
  {
    hide Fields, Decimal;
  }

  lemma WholeMarkerMatches(fs: Fs, cur: Current)
    requires Plain(cur.hash) && cur.hash != "" && fs.applied == Some(MarkerText(cur.id, cur.hash))
    ensures Matches(fs, cur)
  {
    DecimalShape(cur.id);
    var text := MarkerText(cur.id, cur.hash);
    assert text[..|Decimal(cur.id)| + |cur.hash| + 2] == text;
    FieldsOfPrefix(Decimal(cur.id), cur.hash, |Decimal(cur.id)| + |cur.hash| + 2);
  }

  // ---------------------------------------------------------------- from any reachable state

  /** The current release as one undisturbed pass meets it. */
  lemma CurrentIsOffered(cfg: Config, ops: seq<Op>, host: string)
    requires |Exec(cfg, ops).db.releases| > 0
    ensures var db := Exec(cfg, ops).db; var reply := CurrentReply(db, host);
      && reply.Some? && reply.value.id == |db.releases| && reply.value.resync == (host in db.resync)
      && Offers(cfg.hash, reply.value, FilesAt(db, |db.releases|))
      && Archive(db, |db.releases|) == Ok(FilesAt(db, |db.releases|))
      && Plain(reply.value.hash) && reply.value.hash != ""
  {
    hide Components, TarOf, ReleaseOk, ContentBytes, CurrentReply, Archive, Layable, ReadRelease, RowsOf;
    var db := Exec(cfg, ops).db;
    ReleasesAreSound(cfg, ops);
    ReplyIsNewest(cfg, db, host);
    assert ReleaseOk(cfg, db, |db.releases|);
    ReleaseOnWire(cfg, db, |db.releases|);
    HashIsStored(cfg, db, |db.releases|);
  }

  lemma HashIsStored(cfg: Config, db: Db, r: nat)
    requires ReleaseOk(cfg, db, r)
    ensures db.releases[r - 1].contentHash == ContentHash(cfg.hash, FilesAt(db, r))
  {
  }

  /** Self-stabilisation: from the files left by any run (any crashes, failures, torn writes), with a
      server that has a release and holds still, one undisturbed pass ends with `corpus` showing
      exactly the current release and reports ok; a further pass, the flag being clear, finds itself
      converged, reports ok and changes nothing on disk. */
  lemma OnePassConverges(cfg: Config, host: string, acts: seq<Act>, pid: nat, pid': nat)
    requires |Exec(cfg, Play(cfg, host, acts).ops).db.releases| > 0
    ensures var w := Play(cfg, host, acts); var db := Exec(cfg, w.ops).db;
      && CurrentReply(db, host).Some? && Archive(db, |db.releases|).Ok?
      && var cur, files := CurrentReply(db, host).value, Archive(db, |db.releases|).value;
      var t := ToHeartbeat(cfg.hash, IdleAt(w.sub.fs, pid), cur, TarOf(files));
      && t.stage.Send? && t.pass.ok && t.pass.ack == (host in db.resync) && t.pass.cur == cur
      && View(t.fs) == Some(TreeOf(files)) && KeepsInstalled(w.sub.fs, t.fs)
      && var t' := ToHeartbeat(cfg.hash, IdleAt(t.fs, pid'), cur.(resync := false), TarOf(files));
      t'.stage.Send? && t'.pass.ok && t'.fs == t.fs
  {
    hide FsOk, StageOk, LocalInv, PassInv, BeaconOk, FilesAt, Archive, CurrentReply, ToHeartbeat, TreeOf, TarOf, Offers, AllReleasesOk, KeepsInstalled, View;
    var w := Play(cfg, host, acts);
    var db := Exec(cfg, w.ops).db;
    ReleasesAreSound(cfg, w.ops);
    WorldsAreOk(cfg, host, acts);
    CurrentIsOffered(cfg, w.ops, host);
    var cur, files := CurrentReply(db, host).value, FilesAt(db, |db.releases|);
    OnePassFrom(cfg, db, host, w.sub.fs, pid);
    ConvergedPass(cfg.hash, ToHeartbeat(cfg.hash, IdleAt(w.sub.fs, pid), cur, TarOf(files)).fs, pid', cur.(resync := false), TarOf(files));
  }

  /** Tampering is healed: while the host's flag is set, one undisturbed pass reaches the current
      release from any files whatever, altered release trees included. When its heartbeat arrives the
      flag clears, and the next pass reports ok without touching the disk. */
  lemma ResyncHealsTampering(cfg: Config, ops: seq<Op>, host: string, fs: Fs, pid: nat, pid': nat)
    requires ValidIdent(host) && |Exec(cfg, ops).db.releases| > 0 && host in Exec(cfg, ops).db.resync
    ensures var db := Exec(cfg, ops).db;
      && CurrentReply(db, host).Some? && Archive(db, |db.releases|).Ok?
      && var cur, files := CurrentReply(db, host).value, Archive(db, |db.releases|).value;
      var t := ToHeartbeat(cfg.hash, IdleAt(fs, pid), cur, TarOf(files));
      && t.stage.Send? && t.pass.ok && t.pass.ack && View(t.fs) == Some(TreeOf(files))
      && t.fs.corpus.Some? && t.fs.corpus.value !in fs.dirs
      && var db' := Step(cfg, db, Beat(host, cur.id, t.pass.ok, "", t.pass.ack)).0;
      && host !in db'.resync && CurrentReply(db', host) == Some(cur.(resync := false))
      && var t' := ToHeartbeat(cfg.hash, IdleAt(t.fs, pid'), cur.(resync := false), TarOf(files));
      t'.stage.Send? && t'.pass.ok && t'.fs == t.fs
  {
    hide FilesAt, Archive, CurrentReply, ToHeartbeat, TreeOf, TarOf, Offers, KeepsInstalled, View, Matches;
    var db := Exec(cfg, ops).db;
    CurrentIsOffered(cfg, ops, host);
    var cur, files := CurrentReply(db, host).value, FilesAt(db, |db.releases|);
    ResyncHeals(cfg.hash, fs, pid, cur, files);
    var t := ToHeartbeat(cfg.hash, IdleAt(fs, pid), cur, TarOf(files));
    WholeMarkerMatches(t.fs, cur);
    MatchesIgnoresFlag(t.fs, cur);
    ConvergedPass(cfg.hash, t.fs, pid', cur.(resync := false), TarOf(files));
    ReplyAfterAck(cfg, db, host, cur.id);
  }

  lemma ReplyAfterAck(cfg: Config, db: Db, host: string, id: int)
    requires ValidIdent(host) && CurrentReply(db, host).Some?
    ensures var db' := Step(cfg, db, Beat(host, id, true, "", true)).0;
      host !in db'.resync && CurrentReply(db', host) == Some(CurrentReply(db, host).value.(resync := false))
  {
    hide Sort, JoinDocs, MembersOf;
  }

  lemma OnePassFrom(cfg: Config, db: Db, host: string, fs: Fs, pid: nat)
    requires FsOk(db, fs) && AllReleasesOk(cfg, db) && |db.releases| > 0 && CurrentReply(db, host).Some?
    requires var cur := CurrentReply(db, host).value;
      Offers(cfg.hash, cur, FilesAt(db, |db.releases|)) && Plain(cur.hash) && cur.hash != ""
    ensures var cur, files := CurrentReply(db, host).value, FilesAt(db, |db.releases|);
      var t := ToHeartbeat(cfg.hash, IdleAt(fs, pid), cur, TarOf(files));
      && t.stage.Send? && t.pass.ok && t.pass.ack == cur.resync && t.pass.cur == cur && View(t.fs) == Some(TreeOf(files))
      && KeepsInstalled(fs, t.fs) && Matches(t.fs, cur.(resync := false))
  {
    hide FsOk, FilesAt, CurrentReply, ToHeartbeat, TreeOf, TarOf, Matches, Offers, AllReleasesOk, KeepsInstalled, Plain, MarkerText, View;
    var cur, files := CurrentReply(db, host).value, FilesAt(db, |db.releases|);
    var t := ToHeartbeat(cfg.hash, IdleAt(fs, pid), cur, TarOf(files));
    if cur.resync {
      ResyncHeals(cfg.hash, fs, pid, cur, files);
      WholeMarkerMatches(t.fs, cur);
    } else if Matches(fs, cur) {
      ConvergedPass(cfg.hash, fs, pid, cur, TarOf(files));
      MatchedShowsCurrent(cfg, db, host, fs);
      KeepsTransitive(fs, fs, fs);
    } else {
      UnmatchedPass(cfg.hash, fs, pid, cur, files);
      WholeMarkerMatches(t.fs, cur);
    }
    MatchesIgnoresFlag(t.fs, cur);
  }

  lemma MatchesIgnoresFlag(fs: Fs, cur: Current)
    ensures Matches(fs, cur) == Matches(fs, cur.(resync := false))
  {
  }

  /** A marker matching the current release is only ever found on a corpus that shows it. */
  lemma MatchedShowsCurrent(cfg: Config, db: Db, host: string, fs: Fs)
    requires FsOk(db, fs) && AllReleasesOk(cfg, db) && |db.releases| > 0
    requires CurrentReply(db, host).Some? && Matches(fs, CurrentReply(db, host).value)
    ensures View(fs) == Some(TreeOf(FilesAt(db, |db.releases|)))
  {
    hide CurrentReply, AllReleasesOk, FsOk, FilesAt, Components, At, Matches, Wrote;
    ReplyIsNewest(cfg, db, host);
    var cur := CurrentReply(db, host).value;
    var id := MatchedMarkerIsBehind(cfg, db, fs, cur);
    AtShowsRelease(db, fs, id);
  }

  lemma MatchedMarkerIsBehind(cfg: Config, db: Db, fs: Fs, cur: Current) returns (id: int)
    requires FsOk(db, fs) && AllReleasesOk(cfg, db) && Matches(fs, cur)
    ensures cur.id <= id && At(fs, id)
  {
    hide AllReleasesOk, DirsOk, At, Components;
    var k, n :| Wrote(db, fs, fs.applied.value, k, n);
    MarkerNames(cfg, db, fs, k, n, cur);
    id :| k <= id && At(fs, id);
  }
}
