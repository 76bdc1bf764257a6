/** Fail-soft, whatever the server answers and whichever steps fail or die. */
module SubscriberSafety {
  import opened Wrappers
  import opened Text
  import opened StoreModel
  import opened Extraction
  import opened SubscriberModel

  /** The tree holds the manifest's cleaned paths and nothing else. */
  ghost predicate Manifested(tree: Tree, names: set<string>) {
    forall p :: p in tree <==> exists w :: w in names && Components(w) == p
  }

  function NameSet(paths: seq<string>): set<string> {
    set p | p in paths
  }

  predicate Hashes(hash: string -> Digest, tree: Tree, cur: Current) {
    RecomputeHash(hash, tree, cur.paths) == Some(cur.hash)
  }

  function NamesOf(entries: seq<Entry>): set<string> {
    set i | 0 <= i < |entries| :: entries[i].name
  }

  /** A tree worth pointing `corpus` at: it has the advertised hash, and it is what the pass found in
      its temporary directory overlaid with entries under exactly the manifest's names. */
  ghost predicate Verified(hash: string -> Digest, tree: Tree, p: Pass) {
    Hashes(hash, tree, p.cur) && tree == Overlay(p.left, p.got) && NamesOf(p.got) == NameSet(p.cur.paths)
  }

  predicate Extracting(s: Sub) {
    s.stage in {Fetch, Extract, Verify, Install}
  }

  predicate Placing(s: Sub) {
    s.stage in {LinkOut, LinkNew, Flip, DropLink, Mark}
  }

  ghost predicate LocalInv(hash: string -> Digest, s: Sub) {
    && (s.fs.corpus.Some? ==> !IsTemp(s.fs.corpus.value))
    && (s.stage in {RmTmp, MkTmp} || Extracting(s) ==> s.pass.want == NameSet(s.pass.cur.paths))
    && (Extracting(s) ==> Temp(s) in s.fs.dirs)
    && (s.stage.Fetch? ==> TempTree(s) == s.pass.left)
    && (s.stage in {Extract, Verify, Install} ==> TempTree(s) == Overlay(s.pass.left, s.pass.got))
    && (s.stage.Extract? ==> s.pass.seen <= s.pass.want && s.pass.seen == NamesOf(s.pass.got))
    && (s.stage in {Verify, Install} ==> NamesOf(s.pass.got) == s.pass.want)
    && (s.stage.Install? ==> Hashes(hash, TempTree(s), s.pass.cur))
    && (Placing(s) ==> !IsTemp(s.pass.dir) && s.pass.dir in s.fs.dirs && Verified(hash, s.fs.dirs[s.pass.dir], s.pass))
  }

  /** Installed directories keep their content; only dot-prefixed names are written or removed. */
  predicate KeepsInstalled(a: Fs, b: Fs) {
    forall name :: name in a.dirs && !IsTemp(name) ==> name in b.dirs && b.dirs[name] == a.dirs[name]
  }

  /** The view through `corpus` is the previous one or a complete verified tree of this pass. */
  ghost predicate SoftStep(hash: string -> Digest, s: Sub, t: Sub) {
    && KeepsInstalled(s.fs, t.fs)
    && (View(t.fs) == View(s.fs) || (View(t.fs).Some? && Verified(hash, View(t.fs).value, t.pass)))
  }

  /** Only dot-prefixed directories, the marker and temporary links differ. */
  predicate Quietly(a: Fs, b: Fs) {
    && b.corpus == a.corpus && KeepsInstalled(a, b)
    && forall name :: name in b.dirs && !IsTemp(name) ==> name in a.dirs
  }

  lemma QuietIsSoft(hash: string -> Digest, s: Sub, t: Sub)
    requires (s.fs.corpus.Some? ==> !IsTemp(s.fs.corpus.value)) && Quietly(s.fs, t.fs)
    ensures SoftStep(hash, s, t)
  {
  }

  lemma TempIsTemp(s: Sub)
    ensures IsTemp(Temp(s))
  {
    NamesApart(0, 0, s.pass.cur.id, s.pid);
  }

  lemma TakenGrows(left: Tree, got: seq<Entry>, e: Entry)
    ensures Overlay(left, got + [e]) == Overlay(left, got)[Components(e.name) := e.body]
    ensures NamesOf(got + [e]) == NamesOf(got) + {e.name}
  {
    assert (got + [e])[..|got|] == got;
    assert (got + [e])[|got|] == e;
    forall w ensures w in NamesOf(got + [e]) <==> w in NamesOf(got) + {e.name} {
      if w in NamesOf(got) { var i :| 0 <= i < |got| && got[i].name == w; assert (got + [e])[i].name == w; }
    }
  }

  /** A verified tree holds the manifest's files and nothing else exactly when everything the pass found
      in its temporary directory has a manifest path; what else it holds is what was found. */
  lemma VerifiedIsExact(hash: string -> Digest, tree: Tree, p: Pass)
    requires Verified(hash, tree, p)
    ensures Manifested(tree, NameSet(p.cur.paths)) <==>
            forall q :: q in p.left ==> exists w :: w in NameSet(p.cur.paths) && Components(w) == q
    ensures forall q :: q in tree ==>
            (exists w :: w in NameSet(p.cur.paths) && Components(w) == q) || (q in p.left && tree[q] == p.left[q])
    ensures forall w :: w in NameSet(p.cur.paths) ==> Components(w) in tree
  {
    hide Components, Hashes, Overlay;
    forall q ensures q in tree <==> q in p.left || exists w :: w in NameSet(p.cur.paths) && Components(w) == q {
      OverlayHolds(p.left, p.got, q);
      LandsOn(p, q);
    }
    forall q | q in tree && LastBody(p.got, q).None? ensures q in p.left && tree[q] == p.left[q] {
      OverlayHolds(p.left, p.got, q);
    }
    forall q | q in tree && LastBody(p.got, q).Some? ensures exists w :: w in NameSet(p.cur.paths) && Components(w) == q {
      OverlayHolds(p.left, p.got, q);
      LandsOn(p, q);
    }
  }

  lemma LandsOn(p: Pass, q: Path)
    requires NamesOf(p.got) == NameSet(p.cur.paths)
    ensures (exists i :: 0 <= i < |p.got| && Components(p.got[i].name) == q) <==>
            exists w :: w in NameSet(p.cur.paths) && Components(w) == q
  {
    hide Components;
    if i :| 0 <= i < |p.got| && Components(p.got[i].name) == q {
      assert p.got[i].name in NamesOf(p.got);
    }
    if w :| w in NameSet(p.cur.paths) && Components(w) == q {
      assert w in NamesOf(p.got);
      var i :| 0 <= i < |p.got| && p.got[i].name == w;
    }
  }

  /** When the removal takes effect, nothing is found. */
  lemma RemovalLeavesNothing(hash: string -> Digest, s: Sub, i: Input, j: Input)
    requires s.stage.RmTmp? && !i.Fail? && !i.Crash? && !i.Restart? && !j.Fail? && !j.Crash? && !j.Restart?
    ensures var t := Tick(hash, Tick(hash, s, i), j); t.stage.Fetch? && t.pass.left == map[] && TempTree(t) == map[]
  {
  }

  lemma TakeEntryIsQuiet(s: Sub)
    requires s.stage.Extract?
    ensures Quietly(s.fs, TakeEntry(s).fs)
  {
    TempIsTemp(s);
  }

  lemma TakeEntryKeeps(hash: string -> Digest, s: Sub)
    requires LocalInv(hash, s) && s.stage.Extract?
    ensures LocalInv(hash, TakeEntry(s)) && SoftStep(hash, s, TakeEntry(s))
  {
    hide Verified, Hashes, Overlay, Components, CanWrite, TempName, NamesOf, NameSet;
    TakeEntryIsQuiet(s);
    QuietIsSoft(hash, s, TakeEntry(s));
    if s.pass.rest != [] {
      TakenGrows(s.pass.left, s.pass.got, s.pass.rest[0]);
    } else if s.pass.want <= s.pass.seen {
      assert s.pass.want == s.pass.seen;
    }
  }

  lemma FailIsQuiet(s: Sub, m: Mess)
    ensures Quietly(s.fs, FailFs(s, m))
  {
    TempIsTemp(s);
  }

  lemma FailKeeps(hash: string -> Digest, s: Sub, m: Mess)
    requires LocalInv(hash, s)
    ensures var t := AfterFail(s.(fs := FailFs(s, m))); LocalInv(hash, t) && SoftStep(hash, s, t)
    ensures var t := s.(fs := FailFs(s, m), stage := Down); LocalInv(hash, t) && SoftStep(hash, s, t)
  {
    FailIsQuiet(s, m);
    QuietIsSoft(hash, s, s.(fs := FailFs(s, m), stage := Down));
    QuietIsSoft(hash, s, AfterFail(s.(fs := FailFs(s, m))));
    AfterFailInv(hash, s, m);
  }

  lemma AfterFailInv(hash: string -> Digest, s: Sub, m: Mess)
    requires LocalInv(hash, s)
    ensures LocalInv(hash, AfterFail(s.(fs := FailFs(s, m))))
  {
    hide Verified, Hashes, FailFs, Quietly, TempName, MarkerText;
    FailFsCorpus(s, m);
    FailFsWhilePlacing(s, m);
  }

  lemma FailFsCorpus(s: Sub, m: Mess)
    ensures FailFs(s, m).corpus == s.fs.corpus
  {
  }

  lemma FailFsWhilePlacing(s: Sub, m: Mess)
    ensures Placing(s) ==> FailFs(s, m).dirs == s.fs.dirs
  {
  }

  lemma InstallKeeps(hash: string -> Digest, s: Sub)
    requires LocalInv(hash, s) && s.stage.Install?
    ensures var t := Advance(hash, s, Go); LocalInv(hash, t) && SoftStep(hash, s, t)
  {
    hide Overlay, Hashes, Fresh, DirName, TempName;
    TempIsTemp(s);
    NamesApart(s.pass.cur.id, Fresh(s.fs.dirs.Keys, s.pass.cur.id), s.pass.cur.id, s.pid);
  }

  lemma EarlyIsQuiet(hash: string -> Digest, s: Sub, i: Input)
    requires s.stage in {Idle, Clear, Compare, Prepare, RmTmp, MkTmp, Fetch, Verify}
    ensures Quietly(s.fs, Advance(hash, s, i).fs)
  {
    hide Components, RecomputeHash, WantSet, Matches, TempName;
    TempIsTemp(s);
  }

  lemma QuietCorpus(a: Fs, b: Fs)
    requires Quietly(a, b)
    ensures b.corpus == a.corpus
  {
  }

  lemma EarlyKeeps(hash: string -> Digest, s: Sub, i: Input)
    requires LocalInv(hash, s) && s.stage in {Idle, Clear, Compare, Prepare, RmTmp, MkTmp}
    ensures var t := Advance(hash, s, i); LocalInv(hash, t) && SoftStep(hash, s, t)
  {
    hide Overlay, Hashes, Matches, HalfRemoved, Verified, KeepsInstalled, View, Quietly, TempName;
    TempIsTemp(s);
    EarlyIsQuiet(hash, s, i);
    QuietIsSoft(hash, s, Advance(hash, s, i));
    QuietCorpus(s.fs, Advance(hash, s, i).fs);
  }

  lemma FetchKeeps(hash: string -> Digest, s: Sub, i: Input)
    requires LocalInv(hash, s) && s.stage in {Fetch, Verify}
    ensures var t := Advance(hash, s, i); LocalInv(hash, t) && SoftStep(hash, s, t)
  {
    hide Verified, RecomputeHash, Components, TempName, NameSet, KeepsInstalled, View;
    assert Overlay(s.pass.left, []) == s.pass.left && NamesOf([]) == {};
    EarlyIsQuiet(hash, s, i);
    QuietIsSoft(hash, s, Advance(hash, s, i));
  }

  lemma PlacingKeeps(hash: string -> Digest, s: Sub, i: Input)
    requires LocalInv(hash, s) && Placing(s)
    ensures var t := Advance(hash, s, i); LocalInv(hash, t) && SoftStep(hash, s, t)
  {
    hide Overlay, Hashes, MarkerText, TempLink, Decimal, TempName;
  }

  lemma EndKeeps(hash: string -> Digest, s: Sub, i: Input)
    requires LocalInv(hash, s) && s.stage in {DropTmp, Send, Down}
    ensures var t := Advance(hash, s, i); LocalInv(hash, t) && SoftStep(hash, s, t)
  {
    hide Hashes, Overlay, TempName, HalfRemoved, NameSet, NamesOf;
    TempIsTemp(s);
    QuietIsSoft(hash, s, Advance(hash, s, i));
  }

  lemma RestartIsSoft(hash: string -> Digest, s: Sub, pid: nat)
    requires LocalInv(hash, s)
    ensures LocalInv(hash, Tick(hash, s, Restart(pid))) && SoftStep(hash, s, Tick(hash, s, Restart(pid)))
  {
    hide Verified;
  }

  /** Every micro-step, effective, failed or fatal, of any pass against any server is fail-soft. */
  lemma TickIsSoft(hash: string -> Digest, s: Sub, i: Input)
    requires LocalInv(hash, s)
    ensures LocalInv(hash, Tick(hash, s, i)) && SoftStep(hash, s, Tick(hash, s, i))
  {
    hide LocalInv, SoftStep, FailFs, AfterFail, Advance, TakeEntry;
    match i
    case Crash(m) => FailKeeps(hash, s, m);
    case Fail(m) => FailKeeps(hash, s, m);
    case Restart(pid) => RestartIsSoft(hash, s, pid);
    case _ =>
      if !s.stage.Idle? && !s.stage.Fetch? { AdvanceIgnoresInput(hash, s, i); }
      if s.stage.Extract? { TakeEntryKeeps(hash, s); }
      else if s.stage.Install? { InstallKeeps(hash, s); }
      else if s.stage in {Idle, Clear, Compare, Prepare, RmTmp, MkTmp} { EarlyKeeps(hash, s, i); }
      else if s.stage in {Fetch, Verify} { FetchKeeps(hash, s, i); }
      else if Placing(s) { PlacingKeeps(hash, s, i); }
      else { EndKeeps(hash, s, i); }
  }

  /** The process after these inputs. */
  function Ticks(hash: string -> Digest, s: Sub, inputs: seq<Input>): Sub {
    if inputs == [] then s else Tick(hash, Ticks(hash, s, inputs[..|inputs| - 1]), inputs[|inputs| - 1])
  }

  predicate Polled(s: Sub) {
    s.stage !in {Idle, Send, Down}
  }

  predicate Early(s: Sub) {
    s.stage in {Clear, Compare, Prepare, RmTmp, MkTmp, Fetch, Extract, Verify, Install}
  }

  predicate SamePass(s: Sub, t: Sub) {
    t.pass.start == s.pass.start && t.pass.cur == s.pass.cur && (!Early(s) ==> !Early(t) && t.pass.left == s.pass.left && t.pass.got == s.pass.got)
  }

  lemma TickIsSamePass(hash: string -> Digest, s: Sub, i: Input)
    requires !s.stage.Idle? && !i.Restart?
    ensures SamePass(s, Tick(hash, s, i)) && (Tick(hash, s, i).stage.Idle? ==> s.stage.Send?)
  {
    hide FailFs, Advance;
    if Early(s) { EarlyIsSamePass(hash, s, i); } else { LateIsSamePass(hash, s, i); }
  }

  lemma EarlyIsSamePass(hash: string -> Digest, s: Sub, i: Input)
    requires Early(s)
    ensures var t := Advance(hash, s, i); SamePass(s, t) && !t.stage.Idle?
  {
    hide Components, RecomputeHash, WantSet, Fresh, Matches, DirName, MarkerText, CanWrite, Admits, TempTree, TempName, TempLink;
  }

  lemma LateIsSamePass(hash: string -> Digest, s: Sub, i: Input)
    requires !Early(s) && !s.stage.Idle?
    ensures var t := Advance(hash, s, i); SamePass(s, t) && (t.stage.Idle? ==> s.stage.Send?)
  {
    hide MarkerText, TempName, TempLink;
  }

  /** The pass under way polled this response. */
  lemma TickPolls(hash: string -> Digest, s: Sub, i: Input)
    ensures var t := Tick(hash, s, i);
      Polled(t) ==> if s.stage.Idle? then i == Reply(t.pass.cur) else Polled(s) && t.pass.cur == s.pass.cur
  {
    if s.stage in {Send, Down} {
      EndPollsNothing(hash, s, i);
    } else if !s.stage.Idle? && !i.Restart? {
      hide Tick;
      TickIsSamePass(hash, s, i);
    }
  }

  lemma EndPollsNothing(hash: string -> Digest, s: Sub, i: Input)
    requires s.stage in {Send, Down}
    ensures !Polled(Tick(hash, s, i))
  {
  }

  lemma LateIsStable(hash: string -> Digest, s: Sub, i: Input)
    requires s.stage in {LinkOut, LinkNew, Mark, DropLink, DropTmp, Send, Down}
    ensures Quietly(s.fs, Advance(hash, s, i).fs)
  {
    hide MarkerText, TempName, TempLink;
    TempIsTemp(s);
  }

  lemma QuietViews(a: Fs, b: Fs)
    requires (a.corpus.Some? ==> !IsTemp(a.corpus.value)) && Quietly(a, b)
    ensures View(b) == View(a)
  {
  }

  /** Only installing and flipping change what `corpus` shows. */
  lemma ViewIsStable(hash: string -> Digest, s: Sub, i: Input)
    requires s.fs.corpus.Some? ==> !IsTemp(s.fs.corpus.value)
    ensures var t := Tick(hash, s, i);
      View(t.fs) == View(s.fs) || (s.stage.Install? && t.stage.LinkOut?) || (s.stage.Flip? && t.stage.Mark?)
  {
    hide FailFs, Quietly, View, TakeEntry;
    if i.Crash? || i.Fail? {
      FailIsQuiet(s, i.mess);
      QuietViews(s.fs, FailFs(s, i.mess));
      AfterFailFs(s.(fs := FailFs(s, i.mess)));
    } else if !i.Restart? && s.stage !in {Install, Flip} {
      if s.stage.Extract? {
        AdvanceIgnoresInput(hash, s, i);
        TakeEntryIsQuiet(s);
      } else if s.stage in {Idle, Clear, Compare, Prepare, RmTmp, MkTmp, Fetch, Verify} {
        EarlyIsQuiet(hash, s, i);
      } else {
        LateIsStable(hash, s, i);
      }
      QuietViews(s.fs, Advance(hash, s, i).fs);
    }
  }

  lemma AfterFailFs(s: Sub)
    ensures AfterFail(s).fs == s.fs
  {
  }

  /** After these inputs a pass of this run, one that polled a response among them, had verified the
      tree. */
  ghost predicate VerifiedBy(hash: string -> Digest, s: Sub, inputs: seq<Input>, k: nat, tree: Tree) {
    && k <= |inputs| && var p := Ticks(hash, s, inputs[..k]).pass;
    && Verified(hash, tree, p) && exists j :: 0 <= j < k && inputs[j] == Reply(p.cur)
  }

  /** What a session sees is what it saw before, or a tree that some pass of this run verified against
      the response it polled. */
  ghost predicate Shows(hash: string -> Digest, s: Sub, inputs: seq<Input>) {
    var view := View(Ticks(hash, s, inputs).fs);
    view == View(s.fs) || (view.Some? && exists k: nat :: VerifiedBy(hash, s, inputs, k, view.value))
  }

  ghost predicate PolledAmong(hash: string -> Digest, s: Sub, inputs: seq<Input>) {
    var t := Ticks(hash, s, inputs);
    Polled(t) ==> exists j :: 0 <= j < |inputs| && inputs[j] == Reply(t.pass.cur)
  }

  lemma PolledAmongGrows(hash: string -> Digest, s: Sub, inputs: seq<Input>)
    requires inputs != [] && PolledAmong(hash, s, inputs[..|inputs| - 1])
    ensures PolledAmong(hash, s, inputs)
  {
    hide Tick;
    var n := |inputs| - 1;
    TickPolls(hash, Ticks(hash, s, inputs[..n]), inputs[n]);
    if Polled(Ticks(hash, s, inputs)) && !Ticks(hash, s, inputs[..n]).stage.Idle? {
      var j :| 0 <= j < n && inputs[..n][j] == Reply(Ticks(hash, s, inputs[..n]).pass.cur);
      assert inputs[j] == Reply(Ticks(hash, s, inputs).pass.cur);
    }
  }

  lemma ShowsGrows(hash: string -> Digest, s: Sub, inputs: seq<Input>)
    requires inputs != [] && Shows(hash, s, inputs[..|inputs| - 1]) && PolledAmong(hash, s, inputs)
    requires var before := Ticks(hash, s, inputs[..|inputs| - 1]);
      LocalInv(hash, before) && SoftStep(hash, before, Ticks(hash, s, inputs))
    ensures Shows(hash, s, inputs)
  {
    hide Tick, Verified, KeepsInstalled, LocalInv;
    var n := |inputs| - 1;
    var before, t := Ticks(hash, s, inputs[..n]), Ticks(hash, s, inputs);
    if View(t.fs) == View(before.fs) {
      if View(t.fs) != View(s.fs) {
        var k: nat :| VerifiedBy(hash, s, inputs[..n], k, View(t.fs).value);
        assert inputs[..n][..k] == inputs[..k];
        assert VerifiedBy(hash, s, inputs, k, View(t.fs).value);
      }
    } else {
      LocalCorpus(hash, before);
      ViewIsStable(hash, before, inputs[n]);
      assert inputs[..n + 1] == inputs;
      assert VerifiedBy(hash, s, inputs, n + 1, View(t.fs).value);
    }
  }

  lemma LocalCorpus(hash: string -> Digest, s: Sub)
    requires LocalInv(hash, s)
    ensures s.fs.corpus.Some? ==> !IsTemp(s.fs.corpus.value)
  {
  }

  lemma SoftKeeps(hash: string -> Digest, a: Fs, s: Sub, t: Sub)
    requires KeepsInstalled(a, s.fs) && SoftStep(hash, s, t)
    ensures KeepsInstalled(a, t.fs)
  {
  }

  lemma StartIsSoft(hash: string -> Digest, s: Sub)
    requires s.stage.Idle? && (s.fs.corpus.Some? ==> !IsTemp(s.fs.corpus.value))
    ensures LocalInv(hash, s) && KeepsInstalled(s.fs, s.fs) && Shows(hash, s, []) && PolledAmong(hash, s, [])
  {
  }

  /** Fail-soft over whole runs: from any idle process whose `corpus` names no temporary directory,
      after any inputs, every directory that was ever installed still holds what it held; what
      `corpus` shows is what it showed at first, or a tree that a pass of this run verified against a
      response it polled in this run; and the next micro-step is fail-soft too. */
  lemma {:induction false} RunsAreSoft(hash: string -> Digest, s: Sub, inputs: seq<Input>, next: Input)
    requires s.stage.Idle? && (s.fs.corpus.Some? ==> !IsTemp(s.fs.corpus.value))
    ensures var t := Ticks(hash, s, inputs);
      && LocalInv(hash, t) && KeepsInstalled(s.fs, t.fs) && Shows(hash, s, inputs) && PolledAmong(hash, s, inputs)
      && SoftStep(hash, t, Tick(hash, t, next))
    decreases |inputs|
  {
    hide Tick, SoftStep, Shows, PolledAmong, KeepsInstalled, LocalInv;
    if inputs != [] {
      var n := |inputs| - 1;
      var before := Ticks(hash, s, inputs[..n]);
      RunsAreSoft(hash, s, inputs[..n], inputs[n]);
      TickIsSoft(hash, before, inputs[n]);
      PolledAmongGrows(hash, s, inputs);
      ShowsGrows(hash, s, inputs);
      SoftKeeps(hash, s.fs, before, Tick(hash, before, inputs[n]));
    } else {
      StartIsSoft(hash, s);
    }
    TickIsSoft(hash, Ticks(hash, s, inputs), next);
  }

  // ---------------------------------------------------------------- acknowledged resyncs

  /** What an acknowledgement asserts: the pass read the flag, and it verified, freshly installed,
      selected and marked a tree. */
  ghost predicate AckEarned(hash: string -> Digest, fs: Fs, p: Pass) {
    && p.cur.resync
    && p.dir !in p.start.dirs && p.dir in fs.dirs && Verified(hash, fs.dirs[p.dir], p)
    && fs.corpus == Some(p.dir)
    && fs.applied == Some(MarkerText(p.cur.id, p.cur.hash))
  }

  ghost predicate PassInv(hash: string -> Digest, s: Sub) {
    && (s.stage !in {Idle, Down} ==> KeepsInstalled(s.pass.start, s.fs))
    && (s.pass.fired || s.stage.Clear? ==> s.pass.cur.resync)
    && (Placing(s) ==> s.pass.dir !in s.pass.start.dirs)
    && (s.stage.Mark? ==> s.fs.corpus == Some(s.pass.dir))
    && (s.stage.Send? && s.pass.ok && s.pass.ack ==> AckEarned(hash, s.fs, s.pass))
  }

  lemma AdvanceKeepsPass(hash: string -> Digest, s: Sub, i: Input)
    requires LocalInv(hash, s) && PassInv(hash, s)
    requires KeepsInstalled(s.fs, Advance(hash, s, i).fs)
    ensures PassInv(hash, Advance(hash, s, i))
  {
    hide PassInv, LocalInv, Advance;
    if s.stage in {Idle, Clear, Compare, Prepare, RmTmp, MkTmp, Fetch} { EarlyKeepsPass(hash, s, i); }
    else if s.stage in {Extract, Verify, Install} { MiddleKeepsPass(hash, s, i); }
    else { LateKeepsPass(hash, s, i); }
  }

  lemma EarlyKeepsPass(hash: string -> Digest, s: Sub, i: Input)
    requires PassInv(hash, s) && s.stage in {Idle, Clear, Compare, Prepare, RmTmp, MkTmp, Fetch}
    requires KeepsInstalled(s.fs, Advance(hash, s, i).fs)
    ensures PassInv(hash, Advance(hash, s, i))
  {
    hide KeepsInstalled, AckEarned, WantSet, Matches;
    KeepsTransitive(s.pass.start, s.fs, Advance(hash, s, i).fs);
    KeepsTransitive(s.fs, s.fs, s.fs);
  }

  lemma MiddleKeepsPass(hash: string -> Digest, s: Sub, i: Input)
    requires PassInv(hash, s) && s.stage in {Extract, Verify, Install}
    requires KeepsInstalled(s.fs, Advance(hash, s, i).fs)
    ensures PassInv(hash, Advance(hash, s, i))
  {
    hide KeepsInstalled, AckEarned, Components, Fresh, RecomputeHash;
    KeepsTransitive(s.pass.start, s.fs, Advance(hash, s, i).fs);
    if s.stage.Install? { InstallIsFresh(hash, s); }
  }

  lemma LateKeepsPass(hash: string -> Digest, s: Sub, i: Input)
    requires LocalInv(hash, s) && PassInv(hash, s)
    requires s.stage !in {Idle, Clear, Compare, Prepare, RmTmp, MkTmp, Fetch} && s.stage !in {Extract, Verify, Install}
    requires KeepsInstalled(s.fs, Advance(hash, s, i).fs)
    ensures PassInv(hash, Advance(hash, s, i))
  {
    hide KeepsInstalled, AckEarned, LocalInv;
    KeepsTransitive(s.pass.start, s.fs, Advance(hash, s, i).fs);
    if s.stage.Mark? { MarkIsEarned(hash, s); }
  }

  lemma KeepsTransitive(a: Fs, b: Fs, c: Fs)
    ensures KeepsInstalled(a, b) && KeepsInstalled(b, c) ==> KeepsInstalled(a, c)
    ensures KeepsInstalled(a, a)
  {
  }

  lemma InstallIsFresh(hash: string -> Digest, s: Sub)
    requires s.stage.Install? && KeepsInstalled(s.pass.start, s.fs)
    ensures Advance(hash, s, Go).pass.dir !in s.pass.start.dirs
  {
    NamesApart(s.pass.cur.id, Fresh(s.fs.dirs.Keys, s.pass.cur.id), 0, 0);
  }

  lemma MarkIsEarned(hash: string -> Digest, s: Sub)
    requires LocalInv(hash, s) && PassInv(hash, s) && s.stage.Mark?
    ensures var t := Advance(hash, s, Go); t.pass.ok && t.pass.ack ==> AckEarned(hash, t.fs, t.pass)
  {
  }

  lemma FailKeepsPass(hash: string -> Digest, s: Sub, m: Mess)
    requires LocalInv(hash, s) && PassInv(hash, s)
    ensures PassInv(hash, AfterFail(s.(fs := FailFs(s, m)))) && PassInv(hash, s.(fs := FailFs(s, m), stage := Down))
  {
    hide KeepsInstalled, LocalInv, PassInv, FailFs, AfterFail;
    FailIsQuiet(s, m);
    QuietKeeps(s.fs, FailFs(s, m));
    KeepsTransitive(s.pass.start, s.fs, FailFs(s, m));
    KeepsTransitive(FailFs(s, m), FailFs(s, m), FailFs(s, m));
    FailFsCorpus(s, m);
    PassAfterFail(hash, s, FailFs(s, m));
    PassAtDown(hash, s, FailFs(s, m));
  }

  lemma QuietKeeps(a: Fs, b: Fs)
    requires Quietly(a, b)
    ensures KeepsInstalled(a, b)
  {
  }

  lemma PassAfterFail(hash: string -> Digest, s: Sub, fs: Fs)
    requires PassInv(hash, s) && fs.corpus == s.fs.corpus && KeepsInstalled(fs, fs)
    requires KeepsInstalled(s.pass.start, s.fs) ==> KeepsInstalled(s.pass.start, fs)
    ensures PassInv(hash, AfterFail(s.(fs := fs)))
  {
    hide KeepsInstalled, AckEarned;
  }

  lemma PassAtDown(hash: string -> Digest, s: Sub, fs: Fs)
    requires PassInv(hash, s)
    ensures PassInv(hash, s.(fs := fs, stage := Down))
  {
    hide KeepsInstalled, AckEarned;
  }

  lemma TickKeepsPass(hash: string -> Digest, s: Sub, i: Input)
    requires LocalInv(hash, s) && PassInv(hash, s)
    ensures LocalInv(hash, Tick(hash, s, i)) && PassInv(hash, Tick(hash, s, i))
  {
    TickIsSoft(hash, s, i);
    TickPass(hash, s, i);
  }

  lemma TickPass(hash: string -> Digest, s: Sub, i: Input)
    requires LocalInv(hash, s) && PassInv(hash, s)
    requires KeepsInstalled(s.fs, Tick(hash, s, i).fs)
    ensures PassInv(hash, Tick(hash, s, i))
  {
    hide LocalInv, PassInv, Advance, KeepsInstalled, FailFs, AfterFail;
    match i
    case Crash(m) => FailKeepsPass(hash, s, m);
    case Fail(m) => FailKeepsPass(hash, s, m);
    case Restart(pid) => RestartKeepsPass(hash, s, pid);
    case _ => AdvanceKeepsPass(hash, s, i);
  }

  lemma RestartKeepsPass(hash: string -> Digest, s: Sub, pid: nat)
    requires PassInv(hash, s)
    ensures PassInv(hash, Tick(hash, s, Restart(pid)))
  {
  }

  // ---------------------------------------------------------------- whole passes

  lemma {:induction false} TicksCons(hash: string -> Digest, s: Sub, i: Input, rest: seq<Input>)
    ensures Ticks(hash, s, [i] + rest) == Ticks(hash, Tick(hash, s, i), rest)
  {
    hide Tick;
    if rest == [] {
      assert [i] + rest == [i] && [i][..0] == [];
    } else {
      var n := |rest| - 1;
      TicksCons(hash, s, i, rest[..n]);
      assert ([i] + rest)[..n + 1] == [i] + rest[..n];
    }
  }

  /** A pass, as `converge` runs it, is a run of the machine on the inputs its environment gives. */
  lemma {:induction false} PassIsRun(hash: string -> Digest, s: Sub, env: nat -> Input, k: nat) returns (inputs: seq<Input>)
    ensures PassFrom(hash, s, env, k).sub == Ticks(hash, s, inputs)
    ensures forall j :: 0 <= j < |inputs| ==> inputs[j] == Running(env(k + j))
    decreases Remaining(s.stage), |s.pass.rest|
  {
    hide Tick;
    var i := Running(env(k));
    inputs := [];
    if !s.stage.Down? {
      if !s.stage.Send? {
        TickDescends(hash, s, i);
        inputs := PassIsRun(hash, Tick(hash, s, i), env, k + 1);
      }
      TicksCons(hash, s, i, inputs);
      inputs := [i] + inputs;
    }
  }

  /** What `corpus` shows during a pass is what it showed when the pass began, or, once the pass has
      installed its tree, that tree. */
  ghost predicate PassShows(hash: string -> Digest, s: Sub) {
    && (s.stage.Idle? || Early(s) ==> View(s.fs) == View(s.pass.start))
    && (View(s.fs) == View(s.pass.start) || (View(s.fs).Some? && Verified(hash, View(s.fs).value, s.pass)))
  }

  lemma TickShows(hash: string -> Digest, s: Sub, i: Input)
    requires LocalInv(hash, s) && PassShows(hash, s) && !s.stage.Idle? && !s.stage.Send? && !i.Restart?
    ensures PassShows(hash, Tick(hash, s, i))
  {
    hide Tick, LocalInv, KeepsInstalled, Hashes, Overlay;
    TickIsSoft(hash, s, i);
    TickIsSamePass(hash, s, i);
    LocalCorpus(hash, s);
    ViewIsStable(hash, s, i);
  }

  /** The rest of a pass that has polled. */
  lemma {:induction false} RestIsSoft(hash: string -> Digest, s: Sub, env: nat -> Input, k: nat)
    requires LocalInv(hash, s) && PassShows(hash, s) && !s.stage.Idle?
    ensures var t := PassFrom(hash, s, env, k).sub;
      && t.pass.cur == s.pass.cur
      && (View(t.fs) == View(s.pass.start) || (View(t.fs).Some? && Verified(hash, View(t.fs).value, t.pass)))
    decreases Remaining(s.stage), |s.pass.rest|
  {
    hide Tick, LocalInv, Verified;
    var i := Running(env(k));
    if s.stage.Send? {
      SendIsQuiet(hash, s, i);
    } else if !s.stage.Down? {
      TickDescends(hash, s, i);
      TickIsSoft(hash, s, i);
      TickIsSamePass(hash, s, i);
      TickShows(hash, s, i);
      RestIsSoft(hash, Tick(hash, s, i), env, k + 1);
    }
  }

  lemma SendIsQuiet(hash: string -> Digest, s: Sub, i: Input)
    requires s.stage.Send? && !i.Restart?
    ensures Tick(hash, s, i).fs == s.fs && Tick(hash, s, i).pass == s.pass
  {
  }

  /** A whole pass against any server, however its steps go: every installed directory is as it was,
      and what `corpus` shows is what it showed, or the tree this pass verified against the response it
      polled. */
  lemma PassIsSoft(hash: string -> Digest, fs: Fs, pid: nat, env: nat -> Input)
    requires fs.corpus.Some? ==> !IsTemp(fs.corpus.value)
    ensures var s := Sub(fs, pid, Idle, NewPass(NOTHING_YET, fs)); var t := PassFrom(hash, s, env, 0).sub;
      && KeepsInstalled(fs, t.fs)
      && (View(t.fs) == View(fs) ||
          (View(t.fs).Some? && Verified(hash, View(t.fs).value, t.pass) && env(0) == Reply(t.pass.cur)))
  {
    hide Shows, LocalInv, KeepsInstalled, SoftStep, Verified, Advance, FailFs, Ticks;
    var s := Sub(fs, pid, Idle, NewPass(NOTHING_YET, fs));
    var inputs := PassIsRun(hash, s, env, 0);
    RunsAreSoft(hash, s, inputs, Go);
    var i := Running(env(0));
    var t := Tick(hash, s, i);
    assert LocalInv(hash, s) by { StartIsSoft(hash, s); }
    TickIsSoft(hash, s, i);
    FirstTick(hash, s, i);
    PassStep(hash, s, env, 0);
    RestIsSoft(hash, t, env, 1);
    if t.stage in {Send, Down} { ShortPass(hash, t, env, 1); }
  }

  lemma FirstTick(hash: string -> Digest, s: Sub, i: Input)
    requires s.stage.Idle? && !i.Restart? && s.pass == NewPass(NOTHING_YET, s.fs)
    ensures var t := Tick(hash, s, i);
      t.fs == s.fs && !t.stage.Idle? && t.pass.start == s.fs && (t.stage in {Send, Down} || i == Reply(t.pass.cur))
  {
  }

  lemma ShortPass(hash: string -> Digest, s: Sub, env: nat -> Input, k: nat)
    requires s.stage in {Send, Down}
    ensures PassFrom(hash, s, env, k).sub.fs == s.fs
  {
    if s.stage.Send? { SendIsQuiet(hash, s, Running(env(k))); }
  }
}
