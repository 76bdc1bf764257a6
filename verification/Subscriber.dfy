/** The subscriber as the program it is: one converge pass, step by step on the host's files.

    `env(k)` says how the pass's k-th system call or request goes. Each method carries out a stretch
    of the pass and is proved to move the files exactly as the machine's steps do; the ghost `s` is
    the machine's state. */
module Subscriber {
  import opened Wrappers
  import opened Text
  import opened StoreModel
  import opened StoreChecks
  import opened Extraction
  import opened SubscriberModel
  import Reports

  datatype Status = Proceed | Failed | Died

  // ---------------------------------------------------------------- manifest paths

  /** `validateEntryPath`. */
  method CheckEntryPath(dest: Path, name: string) returns (target: Option<Path>)
    ensures target == ValidateEntryPath(dest, name)
  {
    if name == "" { return None; }
    if name[0] == '/' { return None; }
    var parts := Split(name, '/');
    for k := 0 to |parts|
      invariant ".." !in parts[..k]
    {
      assert parts[..k + 1] == parts[..k] + [parts[k]];
      if parts[k] == ".." { return None; }
    }
    assert parts[..|parts|] == parts;
    var t := CleanOnto(dest, parts);
    if t != dest && !Below(dest, t) { return None; }
    return Some(t);
  }

  /** `buildWantSet`. */
  method BuildWantSet(dest: Path, paths: seq<string>) returns (want: Option<set<string>>)
    ensures want == WantSet(paths)
  {
    var names: set<string> := {};
    for k := 0 to |paths|
      invariant forall i :: 0 <= i < k ==> SafeName(paths[i])
      invariant names == set p | p in paths[..k]
    {
      var target := CheckEntryPath(dest, paths[k]);
      EntryPathDecides(dest, paths[k]);
      if target.None? {
        assert paths[k] in paths && !SafeName(paths[k]);
        return None;
      }
      names := names + {paths[k]};
      assert paths[..k + 1] == paths[..k] + [paths[k]];
    }
    assert paths[..|paths|] == paths;
    return Some(names);
  }

  lemma {:induction false} ReadFilesSnoc(tree: Tree, paths: seq<string>, p: string)
    ensures ReadFiles(tree, paths + [p]) ==
            if ReadFiles(tree, paths).None? || Components(p) !in tree then None
            else Some(ReadFiles(tree, paths).value + [File(p, tree[Components(p)])])
  {
    if paths == [] {
      assert paths + [p] == [p] && [p][1..] == paths;
      assert ReadFiles(tree, [p][1..]) == Some([]);
      if Components(p) in tree { assert [File(p, tree[Components(p)])] + [] == [] + [File(p, tree[Components(p)])]; }
    } else {
      assert (paths + [p])[1..] == paths[1..] + [p] && (paths + [p])[0] == paths[0];
      ReadFilesSnoc(tree, paths[1..], p);
      if Components(paths[0]) in tree && ReadFiles(tree, paths[1..]).Some? && Components(p) in tree {
        var f, rest, g := File(paths[0], tree[Components(paths[0])]), ReadFiles(tree, paths[1..]).value, File(p, tree[Components(p)]);
        assert [f] + (rest + [g]) == ([f] + rest) + [g];
      }
    }
  }

  lemma {:induction false} UnreadableStays(tree: Tree, paths: seq<string>, k: nat)
    requires k <= |paths| && ReadFiles(tree, paths[..k]).None?
    ensures ReadFiles(tree, paths).None?
    decreases |paths| - k
  {
    if k == |paths| {
      assert paths[..k] == paths;
    } else {
      assert paths[..k + 1] == paths[..k] + [paths[k]];
      ReadFilesSnoc(tree, paths[..k], paths[k]);
      UnreadableStays(tree, paths, k + 1);
    }
  }

  /** `recomputeContentHash`: one running hash over the manifest's paths. */
  method RecomputeContentHash(hash: string -> Digest, tree: Tree, paths: seq<string>) returns (sum: Option<string>)
    ensures sum == RecomputeHash(hash, tree, paths)
  {
    var content := "";
    ghost var files: seq<File> := [];
    for k := 0 to |paths|
      invariant ReadFiles(tree, paths[..k]) == Some(files) && content == ContentBytes(hash, files)
    {
      assert paths[..k + 1] == paths[..k] + [paths[k]];
      ReadFilesSnoc(tree, paths[..k], paths[k]);
      var p := Components(paths[k]);
      if p !in tree {
        UnreadableStays(tree, paths, k + 1);
        return None;
      }
      var body := tree[p];
      ContentBytesSnoc(hash, files, File(paths[k], body));
      content := content + (paths[k] + "\0" + hash(body));
      files := files + [File(paths[k], body)];
    }
    assert paths[..|paths|] == paths;
    return Some(HashText(hash(content)));
  }

  /** `freshReleaseDir`: the least free suffix, found by counting up. */
  method FreshReleaseDir(names: set<string>, id: int) returns (dir: string)
    ensures dir == DirName(id, Fresh(names, id))
    ensures dir !in names
  {
    var n := 0;
    while DirName(id, n) in names
      invariant AllTaken(names, id, n)
      decreases |names| - n
    {
      TakenNamesAreMany(names, id, n);
      TakenNamesAreMany(names, id, n + 1);
      n := n + 1;
    }
    FreshIsLeast(names, id, n);
    dir := DirName(id, n);
  }

  lemma FreshIsLeast(names: set<string>, id: int, n: nat)
    requires AllTaken(names, id, n) && DirName(id, n) !in names
    ensures Fresh(names, id) == n
  {
    var m := Fresh(names, id);
    assert AllTaken(names, id, m) && DirName(id, m) !in names;
  }

  // ---------------------------------------------------------------- the pass

  class Subscriber {
    const hash: string -> Digest
    const home: Path
    const pid: nat

    var applied: Option<string>
    var corpus: Option<string>
    var links: map<string, string>
    var dirs: map<string, Tree>

    constructor (hash: string -> Digest, home: Path, pid: nat, fs: Fs)
      ensures Files() == fs && this.hash == hash && this.home == home && this.pid == pid
    {
      this.hash, this.home, this.pid := hash, home, pid;
      applied, corpus, links, dirs := fs.applied, fs.corpus, fs.links, fs.dirs;
    }

    ghost function Files(): Fs
      reads this
    {
      Fs(applied, corpus, links, dirs)
    }

    /** The host's files are where the machine says they are. */
    ghost predicate At(s: Sub)
      reads this
    {
      Files() == s.fs && pid == s.pid
    }

    /** Step `k` goes as `env` says; the machine moves to `t`. */
    ghost predicate Moved(s: Sub, env: nat -> Input, k: nat, t: Sub, k': nat)
    {
      PassFrom(hash, s, env, k) == PassFrom(hash, t, env, k')
    }

    lemma OneStep(s: Sub, env: nat -> Input, k: nat) returns (t: Sub)
      requires !s.stage.Send? && !s.stage.Down?
      ensures t == Tick(hash, s, Running(env(k))) && Moved(s, env, k, t, k + 1)
    {
      t := Tick(hash, s, Running(env(k)));
      PassStep(hash, s, env, k);
    }

    /** Recursive removal, best effort: it may stop half way. */
    method RemoveAll(name: string, i: Input)
      modifies this`dirs
      ensures dirs == (match i
                       case Fail(m) => if m.Left? && name in old(dirs) then old(dirs)[name := HalfRemoved(old(dirs)[name], m.paths)] else old(dirs)
                       case Crash(m) => if m.Left? && name in old(dirs) then old(dirs)[name := HalfRemoved(old(dirs)[name], m.paths)] else old(dirs)
                       case _ => old(dirs) - {name})
    {
      if i.Fail? || i.Crash? {
        if i.mess.Left? && name in dirs { dirs := dirs[name := HalfRemoved(dirs[name], i.mess.paths)]; }
      } else {
        dirs := dirs - {name};
      }
    }

    /** The resync step: erase the marker. */
    method ClearMarker(env: nat -> Input, k: nat, ghost s: Sub) returns (st: Status, ghost t: Sub)
      requires At(s) && s.stage.Clear?
      modifies this`applied
      ensures At(t) && Moved(s, env, k, t, k + 1)
      ensures st == Died ==> t.stage.Down?
      ensures st == Failed ==> t == Reporting(s, false, false)
      ensures st == Proceed ==> t == s.(fs := t.fs, stage := Compare, pass := s.pass.(fired := true))
    {
      hide PassFrom;
      t := OneStep(s, env, k);
      var i := env(k);
      if i.Crash? { return Died, t; }
      if i.Fail? { return Failed, t; }
      applied := None;
      return Proceed, t;
    }

    /** One entry of the stream: refused, written, or broken off with a part of its bytes written. */
    method TakeOne(env: nat -> Input, k: nat, ghost s: Sub, temp: string, want: set<string>, e: Entry)
      returns (st: Status, ghost t: Sub)
      requires At(s) && s.stage.Extract? && temp == Temp(s) && temp in dirs
      requires s.pass.rest != [] && s.pass.rest[0] == e && s.pass.want == want
      modifies this`dirs
      ensures At(t) && Moved(s, env, k, t, k + 1) && temp in dirs
      ensures st == Proceed ==>
        t == s.(fs := t.fs, pass := s.pass.(rest := s.pass.rest[1..], seen := s.pass.seen + {e.name}, got := s.pass.got + [e]))
      ensures st == Failed ==> t == s.(fs := t.fs, stage := DropTmp)
      ensures st == Died ==> t.stage.Down?
    {
      hide PassFrom, Components, TempName;
      var i := env(k);
      t := OneStep(s, env, k);
      var good := CheckEntry(e, want);
      var p := Components(e.name);
      var fits := CanWrite(dirs[temp], p);
      if i.Crash? || i.Fail? {
        if good && fits && i.mess.Bytes? { dirs := dirs[temp := dirs[temp][p := Prefix(e.body, i.mess.n)]]; }
        if i.Crash? { return Died, t; }
        return Failed, t;
      }
      if !good || !fits { return Failed, t; }
      dirs := dirs[temp := dirs[temp][p := e.body]];
      return Proceed, t;
    }

    /** The end of the stream: it must be whole and every manifested name must have occurred. */
    method EndStream(env: nat -> Input, k: nat, ghost s: Sub, want: set<string>, whole: bool, seen: set<string>)
      returns (st: Status, ghost t: Sub)
      requires At(s) && s.stage.Extract? && s.pass.rest == []
      requires s.pass.want == want && s.pass.whole == whole && s.pass.seen == seen
      ensures At(t) && Moved(s, env, k, t, k + 1)
      ensures st == Proceed ==> t == s.(stage := Verify)
      ensures st == Failed ==> t == s.(stage := DropTmp)
      ensures st == Died ==> t.stage.Down?
    {
      hide PassFrom, Components, TempName;
      t := OneStep(s, env, k);
      if env(k).Crash? { return Died, t; }
      if env(k).Fail? || !whole || !(want <= seen) { return Failed, t; }
      return Proceed, t;
    }

    /** `extractTar`: entry by entry, then the completeness check. */
    method ExtractStream(env: nat -> Input, k0: nat, ghost s: Sub, temp: string, want: set<string>,
                         entries: seq<Entry>, whole: bool) returns (st: Status, k: nat, ghost t: Sub)
      requires At(s) && s.stage.Extract? && temp == Temp(s) && temp in dirs
      requires s.pass.want == want && s.pass.rest == entries && s.pass.whole == whole && s.pass.seen == {}
      modifies this`dirs
      ensures At(t) && Moved(s, env, k0, t, k) && temp in dirs
      ensures st == Proceed ==> t.stage.Verify?
      ensures st == Failed ==> t.stage.DropTmp?
      ensures st == Died ==> t.stage.Down?
      ensures st != Died ==> t.pass.cur == s.pass.cur && t.pass.fired == s.pass.fired
    {
      hide PassFrom, Tick, TempName;
      var seen: set<string> := {};
      var rest := entries;
      k, t := k0, s;
      while |rest| > 0
        invariant At(t) && t.stage.Extract? && temp in dirs && Moved(s, env, k0, t, k)
        invariant t.pass.want == want && t.pass.rest == rest && t.pass.whole == whole && t.pass.seen == seen
        invariant t.pass.cur == s.pass.cur && t.pass.fired == s.pass.fired
        decreases |rest|
      {
        st, t := TakeOne(env, k, t, temp, want, rest[0]);
        k := k + 1;
        if st != Proceed { return; }
        seen := seen + {rest[0].name};
        rest := rest[1..];
      }
      st, t := EndStream(env, k, t, want, whole, seen);
      k := k + 1;
    }

    /** The per-entry refusals of `extractTar`. */
    method CheckEntry(e: Entry, want: set<string>) returns (good: bool)
      ensures good == Admits(want, e)
    {
      var target := CheckEntryPath(home, e.name);
      EntryPathDecides(home, e.name);
      good := target.Some? && e.regular && e.name in want;
    }

    method RemoveLink(env: nat -> Input, k: nat, ghost s: Sub, tmpLink: string) returns (st: Status, ghost t: Sub)
      requires At(s) && s.stage in {LinkOut, DropLink} && tmpLink == TempLink(pid)
      modifies this`links
      ensures At(t) && Moved(s, env, k, t, k + 1)
      ensures st == Died ==> t.stage.Down?
      ensures st != Died && s.stage.LinkOut? ==> t == s.(fs := t.fs, stage := LinkNew)
      ensures st != Died && s.stage.DropLink? ==> t == Reporting(s.(fs := t.fs), false, false)
    {
      hide PassFrom, TempLink;
      t := OneStep(s, env, k);
      if env(k).Crash? { return Died, t; }
      if env(k).Fail? { return Failed, t; }
      links := links - {tmpLink};
      return Proceed, t;
    }

    method MakeLink(env: nat -> Input, k: nat, ghost s: Sub, tmpLink: string, dir: string) returns (st: Status, ghost t: Sub)
      requires At(s) && s.stage.LinkNew? && tmpLink == TempLink(pid) && s.pass.dir == dir
      modifies this`links
      ensures At(t) && Moved(s, env, k, t, k + 1)
      ensures st == Died ==> t.stage.Down?
      ensures st == Failed ==> t == Reporting(s.(fs := t.fs), false, false)
      ensures st == Proceed ==> t == s.(fs := t.fs, stage := Flip)
    {
      hide PassFrom, TempLink;
      t := OneStep(s, env, k);
      if env(k).Crash? { return Died, t; }
      if env(k).Fail? || tmpLink in links { return Failed, t; }
      links := links[tmpLink := dir];
      return Proceed, t;
    }

    method RenameLink(env: nat -> Input, k: nat, ghost s: Sub, tmpLink: string, dir: string) returns (st: Status, ghost t: Sub)
      requires At(s) && s.stage.Flip? && tmpLink == TempLink(pid) && s.pass.dir == dir
      modifies this`links, this`corpus
      ensures At(t) && Moved(s, env, k, t, k + 1)
      ensures st == Died ==> t.stage.Down?
      ensures st == Failed ==> t == s.(fs := t.fs, stage := DropLink)
      ensures st == Proceed ==> t == s.(fs := t.fs, stage := Mark) && corpus == Some(dir)
    {
      hide PassFrom, TempLink;
      t := OneStep(s, env, k);
      if env(k).Crash? { return Died, t; }
      if env(k).Fail? { return Failed, t; }
      corpus, links := Some(dir), links - {tmpLink};
      return Proceed, t;
    }

    /** `flipCorpus`: clear a stale temporary link, make the new one, rename it over `corpus`. */
    method FlipCorpus(env: nat -> Input, k0: nat, ghost s: Sub, dir: string) returns (st: Status, k: nat, ghost t: Sub)
      requires At(s) && s.stage.LinkOut? && s.pass.dir == dir
      modifies this`links, this`corpus
      ensures At(t) && Moved(s, env, k0, t, k)
      ensures st == Proceed ==> t == s.(fs := t.fs, stage := Mark) && corpus == Some(dir)
      ensures st == Failed ==> t == Reporting(s.(fs := t.fs), false, false)
      ensures st == Died ==> t.stage.Down?
    {
      hide PassFrom, Tick, TempLink;
      var tmpLink := TempLink(pid);
      k := k0;
      st, t := RemoveLink(env, k, s, tmpLink);
      k := k + 1;
      if st == Died { return; }
      st, t := MakeLink(env, k, t, tmpLink, dir);
      k := k + 1;
      if st != Proceed { return; }
      st, t := RenameLink(env, k, t, tmpLink, dir);
      k := k + 1;
      if st != Failed { return; }
      st, t := RemoveLink(env, k, t, tmpLink);
      k := k + 1;
      st := if st == Died then Died else Failed;
    }

    /** `writeApplied`: a failed write may leave any prefix of the marker. */
    method WriteApplied(env: nat -> Input, k: nat, ghost s: Sub, cur: Current) returns (st: Status, ghost t: Sub)
      requires At(s) && s.stage.Mark? && s.pass.cur == cur
      modifies this`applied
      ensures At(t) && Moved(s, env, k, t, k + 1)
      ensures st == Proceed ==> t == Reporting(s.(fs := t.fs), true, s.pass.fired)
      ensures st == Failed ==> t == Reporting(s.(fs := t.fs), false, false)
      ensures st == Died ==> t.stage.Down?
    {
      hide PassFrom, MarkerText;
      t := OneStep(s, env, k);
      var i := env(k);
      var text := MarkerText(cur.id, cur.hash);
      if i.Crash? || i.Fail? {
        if i.mess.Bytes? { applied := Some(Prefix(text, i.mess.n)); }
        if i.Crash? { return Died, t; }
        return Failed, t;
      }
      applied := Some(text);
      return Proceed, t;
    }

    /** `os.RemoveAll(tmpDir)` on the way to a failure heartbeat. */
    method DropTemp(env: nat -> Input, k: nat, ghost s: Sub, temp: string) returns (st: Status, ghost t: Sub)
      requires At(s) && s.stage.DropTmp? && temp == Temp(s)
      modifies this`dirs
      ensures At(t) && Moved(s, env, k, t, k + 1)
      ensures st == Failed ==> t == Reporting(s.(fs := t.fs), false, false)
      ensures st == Died ==> t.stage.Down?
      ensures st != Proceed
    {
      hide PassFrom, TempName;
      t := OneStep(s, env, k);
      RemoveAll(temp, env(k));
      return if env(k).Crash? then Died else Failed, t;
    }

    /** `heartbeat`: the pass's outcome goes out, unless the process dies first. */
    method SendHeartbeat(env: nat -> Input, k: nat, id: int, ok: bool, ack: bool, ghost s: Sub)
      returns (sent: Option<(int, bool, bool)>)
      requires At(s) && s.stage.Send? && s.pass.cur.id == id && s.pass.ok == ok && s.pass.ack == ack
      ensures sent == if env(k).Crash? then None else Some((id, ok, ack))
      ensures Tells(PassFrom(hash, s, env, k), sent) && Files() == PassFrom(hash, s, env, k).sub.fs
    {
      return if env(k).Crash? then None else Some((id, ok, ack));
    }

    /** The heartbeat on the wire carries what the machine sends. */
    ghost predicate Tells(e: Ending, sent: Option<(int, bool, bool)>)
    {
      match e.sent
      case None => sent.None?
      case Some(b) => sent == Some((b.id, b.ok, b.ack))
    }

    lemma DeadEnd(s: Sub, env: nat -> Input, k: nat)
      requires s.stage.Down?
      ensures PassFrom(hash, s, env, k) == Ending(s, None)
    {
    }

    // -------------------------------------------------------------- stretches of the pass

    /** `fetchCurrent`: a response, or none. */
    method FetchCurrent(env: nat -> Input, ghost s: Sub) returns (st: Status, cur: Current, ghost t: Sub)
      requires At(s) && s.stage.Idle?
      ensures At(t) && Moved(s, env, 0, t, 1)
      ensures st == Died ==> t.stage.Down?
      ensures st == Failed ==> t == Reporting(s.(pass := NewPass(NOTHING_YET, s.fs)), false, false)
      ensures st == Proceed ==> t == s.(stage := if cur.resync then Clear else Compare, pass := NewPass(cur, s.fs))
    {
      hide PassFrom;
      cur := NOTHING_YET;
      t := OneStep(s, env, 0);
      var i := env(0);
      if i.Crash? { return Died, cur, t; }
      if !i.Reply? { return Failed, cur, t; }
      return Proceed, i.cur, t;
    }

    /** Reading the marker; an unreadable one counts as absent. */
    method CheckMarker(env: nat -> Input, k: nat, ghost s: Sub, cur: Current) returns (st: Status, converged: bool, ghost t: Sub)
      requires At(s) && s.stage.Compare? && s.pass.cur == cur
      ensures At(t) && Moved(s, env, k, t, k + 1)
      ensures st == Died ==> t.stage.Down?
      ensures st != Died ==> t == if converged then Reporting(s, true, false) else s.(stage := Prepare)
      ensures st != Failed
    {
      hide PassFrom, ReadApplied;
      t := OneStep(s, env, k);
      converged := false;
      if env(k).Crash? { return Died, converged, t; }
      if !env(k).Fail? {
        var read := ReadApplied(applied);
        converged := read.Some? && read.value.0 == Decimal(cur.id) && read.value.1 == cur.hash;
      }
      return Proceed, converged, t;
    }

    /** `os.MkdirAll(releasesDir)` and `buildWantSet`. */
    method PrepareWant(env: nat -> Input, k: nat, ghost s: Sub, cur: Current) returns (st: Status, want: set<string>, ghost t: Sub)
      requires At(s) && s.stage.Prepare? && s.pass.cur == cur
      ensures At(t) && Moved(s, env, k, t, k + 1)
      ensures st == Died ==> t.stage.Down?
      ensures st == Failed ==> t == Reporting(s, false, false)
      ensures st == Proceed ==> t == s.(stage := RmTmp, pass := s.pass.(want := want))
    {
      hide PassFrom, WantSet;
      want := {};
      t := OneStep(s, env, k);
      if env(k).Crash? { return Died, want, t; }
      if env(k).Fail? { return Failed, want, t; }
      var valid := BuildWantSet(home + ["releases", TempName(cur.id, pid)], cur.paths);
      if valid.None? { return Failed, want, t; }
      return Proceed, valid.value, t;
    }

    /** A temporary directory, as fresh as removal could make it. */
    method FreshTemp(env: nat -> Input, k0: nat, ghost s: Sub, temp: string) returns (st: Status, k: nat, ghost t: Sub)
      requires At(s) && s.stage.RmTmp? && temp == Temp(s)
      modifies this`dirs
      ensures At(t) && Moved(s, env, k0, t, k)
      ensures st == Died ==> t.stage.Down?
      ensures st == Failed ==> t == Reporting(s.(fs := t.fs), false, false)
      ensures st == Proceed ==> t == s.(fs := t.fs, stage := Fetch, pass := s.pass.(left := t.pass.left)) && temp in dirs
    {
      hide PassFrom, Tick, TempName;
      k := k0 + 1;
      st, t := RemoveStale(env, k0, s, temp);
      if st == Died { return; }
      st, t := MakeTemp(env, k, t, temp);
      k := k + 1;
    }

    method RemoveStale(env: nat -> Input, k: nat, ghost s: Sub, temp: string) returns (st: Status, ghost t: Sub)
      requires At(s) && s.stage.RmTmp? && temp == Temp(s)
      modifies this`dirs
      ensures At(t) && Moved(s, env, k, t, k + 1)
      ensures st == Died ==> t.stage.Down?
      ensures st != Died ==> t == s.(fs := t.fs, stage := MkTmp)
    {
      hide PassFrom, TempName;
      t := OneStep(s, env, k);
      RemoveAll(temp, env(k));
      return if env(k).Crash? then Died else Proceed, t;
    }

    method MakeTemp(env: nat -> Input, k: nat, ghost s: Sub, temp: string) returns (st: Status, ghost t: Sub)
      requires At(s) && s.stage.MkTmp? && temp == Temp(s)
      modifies this`dirs
      ensures At(t) && Moved(s, env, k, t, k + 1)
      ensures st == Died ==> t.stage.Down?
      ensures st == Failed ==> t == Reporting(s, false, false)
      ensures st == Proceed ==> t == s.(fs := t.fs, stage := Fetch, pass := s.pass.(left := t.pass.left)) && temp in dirs
    {
      hide PassFrom, TempName;
      t := OneStep(s, env, k);
      if env(k).Crash? { return Died, t; }
      if env(k).Fail? { return Failed, t; }
      if temp !in dirs { dirs := dirs[temp := map[]]; }
      assert dirs == t.fs.dirs;
      return Proceed, t;
    }

    /** `fetchAndExtractArchive`. */
    method FetchAndExtract(env: nat -> Input, k0: nat, ghost s: Sub, temp: string, want: set<string>)
      returns (st: Status, k: nat, ghost t: Sub)
      requires At(s) && s.stage.Fetch? && temp == Temp(s) && temp in dirs && s.pass.want == want
      modifies this`dirs
      ensures At(t) && Moved(s, env, k0, t, k)
      ensures st == Died ==> t.stage.Down?
      ensures st == Failed ==> t.stage.DropTmp?
      ensures st == Proceed ==> t.stage.Verify? && temp in dirs
      ensures st != Died ==> t.pass.cur == s.pass.cur && t.pass.fired == s.pass.fired
    {
      hide PassFrom, TempName;
      var i := env(k0);
      t := OneStep(s, env, k0);
      k := k0 + 1;
      if i.Crash? { return Died, k, t; }
      if !i.Stream? { return Failed, k, t; }
      st, k, t := ExtractStream(env, k, t, temp, want, i.entries, i.whole);
    }

    /** Recomputing the hash of what was extracted. */
    method VerifyTemp(env: nat -> Input, k: nat, ghost s: Sub, temp: string, cur: Current) returns (st: Status, ghost t: Sub)
      requires At(s) && s.stage.Verify? && temp == Temp(s) && temp in dirs && s.pass.cur == cur
      ensures At(t) && Moved(s, env, k, t, k + 1)
      ensures st == Died ==> t.stage.Down?
      ensures st == Failed ==> t == s.(stage := DropTmp)
      ensures st == Proceed ==> t == s.(stage := Install)
    {
      hide PassFrom, TempName, RecomputeHash;
      t := OneStep(s, env, k);
      if env(k).Crash? { return Died, t; }
      if env(k).Fail? { return Failed, t; }
      var got := RecomputeContentHash(hash, dirs[temp], cur.paths);
      return if got == Some(cur.hash) then Proceed else Failed, t;
    }

    /** `freshReleaseDir` and `os.Rename(tmpDir, releaseDir)`. */
    method InstallTemp(env: nat -> Input, k: nat, ghost s: Sub, temp: string, cur: Current)
      returns (st: Status, dir: string, ghost t: Sub)
      requires At(s) && s.stage.Install? && temp == Temp(s) && temp in dirs && s.pass.cur == cur
      modifies this`dirs
      ensures At(t) && Moved(s, env, k, t, k + 1)
      ensures st == Died ==> t.stage.Down?
      ensures st == Failed ==> t == s.(stage := DropTmp)
      ensures st == Proceed ==> t == s.(fs := t.fs, stage := LinkOut, pass := s.pass.(dir := dir)) && dir !in old(dirs)
    {
      hide PassFrom, TempName, DirName;
      t := OneStep(s, env, k);
      dir := "";
      if env(k).Crash? { return Died, dir, t; }
      if env(k).Fail? { return Failed, dir, t; }
      dir := FreshReleaseDir(dirs.Keys, cur.id);
      var tree := dirs[temp];
      dirs := (dirs - {temp})[dir := tree];
      return Proceed, dir, t;
    }

    /** From the temporary directory to the marker. */
    method Materialise(env: nat -> Input, k0: nat, ghost s: Sub, cur: Current, want: set<string>)
      returns (st: Status, k: nat, ghost t: Sub)
      requires At(s) && s.stage.RmTmp? && s.pass.cur == cur && s.pass.want == want
      modifies this`dirs, this`links, this`corpus, this`applied
      ensures At(t) && Moved(s, env, k0, t, k)
      ensures st == Died ==> t.stage.Down?
      ensures st == Failed ==> t.stage.Send? && !t.pass.ok && !t.pass.ack && t.pass.cur == cur
      ensures st == Proceed ==> t.stage.Send? && t.pass.ok && t.pass.ack == s.pass.fired && t.pass.cur == cur
    {
      hide PassFrom, Tick, TempName;
      var temp := TempName(cur.id, pid);
      st, k, t := FreshTemp(env, k0, s, temp);
      if st != Proceed { return; }
      st, k, t := FillTemp(env, k, t, temp, cur, want);
      if st == Died { return; }
      if st == Failed {
        st, t := DropTemp(env, k, t, temp);
        k := k + 1;
        return;
      }
      st, k, t := Select(env, k, t, temp, cur);
    }

    method FillTemp(env: nat -> Input, k0: nat, ghost s: Sub, temp: string, cur: Current, want: set<string>)
      returns (st: Status, k: nat, ghost t: Sub)
      requires At(s) && s.stage.Fetch? && temp == Temp(s) && temp in dirs && s.pass.cur == cur && s.pass.want == want
      modifies this`dirs
      ensures At(t) && Moved(s, env, k0, t, k)
      ensures st == Died ==> t.stage.Down?
      ensures st == Failed ==> t.stage.DropTmp?
      ensures st == Proceed ==> t.stage.Install? && temp in dirs
      ensures st != Died ==> t.pass.cur == cur && t.pass.fired == s.pass.fired
    {
      hide PassFrom, Tick, TempName;
      st, k, t := FetchAndExtract(env, k0, s, temp, want);
      if st != Proceed { return; }
      st, t := VerifyTemp(env, k, t, temp, cur);
      k := k + 1;
    }

    method Select(env: nat -> Input, k0: nat, ghost s: Sub, temp: string, cur: Current) returns (st: Status, k: nat, ghost t: Sub)
      requires At(s) && s.stage.Install? && temp == Temp(s) && temp in dirs && s.pass.cur == cur
      modifies this`dirs, this`links, this`corpus, this`applied
      ensures At(t) && Moved(s, env, k0, t, k)
      ensures st == Died ==> t.stage.Down?
      ensures st == Failed ==> t.stage.Send? && !t.pass.ok && !t.pass.ack && t.pass.cur == cur
      ensures st == Proceed ==> t.stage.Send? && t.pass.ok && t.pass.ack == s.pass.fired && t.pass.cur == cur
    {
      hide PassFrom, Tick, TempName;
      var dir;
      st, dir, t := InstallTemp(env, k0, s, temp, cur);
      k := k0 + 1;
      if st == Died { return; }
      if st == Failed {
        st, t := DropTemp(env, k, t, temp);
        k := k + 1;
        return;
      }
      st, k, t := FlipCorpus(env, k, t, dir);
      if st != Proceed { return; }
      st, t := WriteApplied(env, k, t, cur);
      k := k + 1;
    }

    /** `converge`: one pass from idle to its heartbeat, its death, or its failure heartbeat. The files
        it leaves and the heartbeat it sends are the machine's. The heartbeat names the release polled,
        ok or not, and acknowledges exactly an ok pass that was asked to resync; with nothing polled it
        reports failure and release 0. Only death keeps it from being sent. */
    method Converge(env: nat -> Input) returns (sent: Option<(int, bool, bool)>)
      modifies this
      ensures var e := PassFrom(hash, Sub(old(Files()), pid, Idle, NewPass(NOTHING_YET, old(Files()))), env, 0);
        Files() == e.sub.fs && Tells(e, sent)
      ensures sent.Some? ==>
        if env(0).Reply? then sent.value == (env(0).cur.id, sent.value.1, sent.value.1 && env(0).cur.resync)
        else sent == Some((0, false, false))
      ensures sent.None? ==> exists j: nat :: env(j).Crash?
    {
      hide PassFrom, Tick, TempName, Decimal;
      ghost var s := Sub(Files(), pid, Idle, NewPass(NOTHING_YET, Files()));
      var st, cur;
      ghost var t;
      Reports.PassReports(hash, s.fs, pid, env);
      st, cur, t := FetchCurrent(env, s);
      var k := 1;
      if st == Died { DeadEnd(t, env, k); return None; }
      if st == Failed { sent := SendHeartbeat(env, k, 0, false, false, t); return; }
      var resyncFired := false;
      if cur.resync {
        st, t := ClearMarker(env, k, t);
        k := k + 1;
        if st == Died { DeadEnd(t, env, k); return None; }
        if st == Failed { sent := SendHeartbeat(env, k, cur.id, false, false, t); return; }
        resyncFired := true;
      }
      var converged;
      st, converged, t := CheckMarker(env, k, t, cur);
      k := k + 1;
      if st == Died { DeadEnd(t, env, k); return None; }
      if converged { sent := SendHeartbeat(env, k, cur.id, true, false, t); return; }
      var want;
      st, want, t := PrepareWant(env, k, t, cur);
      k := k + 1;
      if st == Died { DeadEnd(t, env, k); return None; }
      if st == Failed { sent := SendHeartbeat(env, k, cur.id, false, false, t); return; }
      st, k, t := Materialise(env, k, t, cur, want);
      if st == Died { DeadEnd(t, env, k); return None; }
      sent := SendHeartbeat(env, k, cur.id, st == Proceed, st == Proceed && resyncFired, t);
    }
  }
}
