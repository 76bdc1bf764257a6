/** When the temporary directory cannot be cleared: what was left in it is installed too. */
module Leftovers {
  import opened Wrappers
  import opened Text
  import opened StoreModel
  import opened Extraction
  import opened ArchiveRoundTrip
  import opened SubscriberModel
  import opened SubscriberSafety
  import opened SelfStabilisation

  lemma {:induction false} ThroughRefusal(hash: string -> Digest, s: Sub, cur: Current, tar: seq<Entry>)
    requires s.stage.Extract? && s.pass.cur == cur && s.pass.whole && Temp(s) in s.fs.dirs
    requires ExtractFrom(TempTree(s), s.pass.seen, s.pass.rest, s.pass.want).None?
    ensures var t := ToHeartbeat(hash, s, cur, tar); t.stage.Send? && !t.pass.ok
    decreases |s.pass.rest|
  {
    hide ToHeartbeat, Components, CanWrite, Admits, TempName, RecomputeHash, Fresh;
    var t := Roll(hash, s, cur, tar);
    AdvanceIgnoresInput(hash, s, Feed(s, cur, tar));
    if t.stage.DropTmp? {
      var u := Roll(hash, t, cur, tar);
      AtHeartbeat(hash, u, cur, tar);
    } else {
      var e := s.pass.rest[0];
      assert TempTree(t) == TempTree(s)[Components(e.name) := e.body];
      ThroughRefusal(hash, t, cur, tar);
    }
  }

  /** Everything found has a path of the offered files. */
  ghost predicate AllOffered(left: Tree, files: seq<File>) {
    forall q :: q in left ==> exists i :: 0 <= i < |files| && Components(files[i].path) == q
  }

  lemma OverlayIsExact(left: Tree, files: seq<File>)
    requires Layable(files)
    ensures Overlay(left, TarOf(files)) == TreeOf(files) <==> AllOffered(left, files)
  {
    hide Components, Overlay;
    var tree := Overlay(left, TarOf(files));
    forall q ensures q in tree <==> q in left || q in TreeOf(files) {
      OverlayHolds(left, TarOf(files), q);
      OverlayHolds(map[], TarOf(files), q);
    }
    forall q ensures q in TreeOf(files) <==> exists i :: 0 <= i < |files| && Components(files[i].path) == q {
      TreeKeys(files, q);
    }
    forall q | q in TreeOf(files) ensures tree[q] == TreeOf(files)[q] {
      OverlayHolds(left, TarOf(files), q);
      OverlayHolds(map[], TarOf(files), q);
    }
  }

  /** A pass whose removal of the temporary directory fails, wholly or half way, and which then runs
      undisturbed: it reports ok exactly when nothing left stands in the way of the offered files; it
      then shows them laid over what was left; and that is the release, no unmanifested file among it,
      exactly when everything left has a path of the release. */
  lemma FailedRemovalPass(hash: string -> Digest, s: Sub, mess: Mess, cur: Current, files: seq<File>)
    requires Offers(hash, cur, files) && s.stage.RmTmp? && s.pass.cur == cur && s.pass.want == NameSet(cur.paths)
    ensures var m := Tick(hash, s, Fail(mess)); var left := TempTree(m);
      var t := ToHeartbeat(hash, m, cur, TarOf(files));
      && t.stage.Send? && (t.pass.ok <==> Disjoint(left, TarOf(files)))
      && (t.pass.ok ==>
            && View(t.fs) == Some(Overlay(left, TarOf(files)))
            && (View(t.fs) == Some(TreeOf(files)) <==> AllOffered(left, files)))
  {
    hide Components, Overlay, TempName, Layable, TarOf, ToHeartbeat, ExtractFrom, Disjoint, RecomputeHash, Fresh, TreeOf, AllOffered, HalfRemoved;
    var m, tar := Tick(hash, s, Fail(mess)), TarOf(files);
    var left := TempTree(m);
    OverlayIsExact(left, files);
    if Disjoint(left, tar) {
      FillingPass(hash, m, cur, files);
    } else {
      ToExtract(hash, m, cur, tar);
      var e := Sub(WithDir(m.fs, Temp(m), left), m.pid, Extract, m.pass.(left := left, rest := tar, whole := true, seen := {}, got := []));
      assert TempTree(e) == left;
      ExtractFromDecides(left, {}, tar, m.pass.want);
      ThroughRefusal(hash, e, cur, tar);
    }
  }

  // ---------------------------------------------------------------- an unmanifested file

  /** An undisturbed stretch of a pass is a run of the machine. */
  lemma {:induction false} StretchIsRun(hash: string -> Digest, s: Sub, cur: Current, tar: seq<Entry>) returns (inputs: seq<Input>)
    ensures ToHeartbeat(hash, s, cur, tar) == Ticks(hash, s, inputs)
    decreases Remaining(s.stage), |s.pass.rest|
  {
    hide Tick;
    inputs := [];
    if !s.stage.Send? && !s.stage.Down? {
      var i := Feed(s, cur, tar);
      TickDescends(hash, s, i);
      inputs := StretchIsRun(hash, Tick(hash, s, i), cur, tar);
      TicksCons(hash, s, i, inputs);
      inputs := [i] + inputs;
    }
  }

  const GUIDE := DocRow(1, "guides", "start", 1, "Start", Active, "", "", "", "", "Hello.", "")

  const STRAY: Path := ["stray.md"]

  function StrayFs(): Fs {
    Fs(None, None, map[], map[TempName(1, 7) := map[STRAY := "Left behind."]])
  }

  lemma GuideIsLayable()
    ensures Layable(FilesOf([GUIDE])) && Disjoint(map[STRAY := "Left behind."], TarOf(FilesOf([GUIDE])))
    ensures STRAY != Components(PathOf(GUIDE))
  {
    PathIsSafe(GUIDE);
    var files := FilesOf([GUIDE]);
    assert files[0].path == PathOf(GUIDE);
    var p := Components(PathOf(GUIDE));
    assert |files| == 1 && p[0] == "guides" && |STRAY[0]| == 8;
    assert STRAY[0] != p[0];
    assert forall q :: q in map[STRAY := "Left behind."] ==> q == STRAY;
    assert CanWrite(map[STRAY := "Left behind."], p);
  }

  /** The source promises that the materialised tree never contains an unmanifested file. Here is a run
      that ends on an ok heartbeat with such a file in view: the temporary directory of an earlier
      process with the same id holds one more file and its removal fails. */
  lemma UnmanifestedFileIsShown(hash: string -> Digest) returns (inputs: seq<Input>)
    ensures var t := Ticks(hash, IdleAt(StrayFs(), 7), inputs);
      && t.stage.Send? && t.pass.ok && t.pass.cur.paths == [PathOf(GUIDE)]
      && View(t.fs).Some? && STRAY in View(t.fs).value && !Manifested(View(t.fs).value, NameSet(t.pass.cur.paths))
  {
    hide Components, Overlay, TempName, Layable, ToHeartbeat, ExtractFrom, Disjoint, RecomputeHash, Fresh, ContentHash, Ticks, PathOf;
    var files := FilesOf([GUIDE]);
    var cur := Current(1, ContentHash(hash, files), PathsOf(files), false);
    GuideIsLayable();
    LayableWantSet(files);
    assert PathsOf(files) == [PathOf(GUIDE)];
    var s := IdleAt(StrayFs(), 7);
    var rm := s.(stage := RmTmp, pass := NewPass(cur, s.fs).(want := NameSet(cur.paths)));
    ToRemoval(hash, s, cur);
    FailedRemovalPass(hash, rm, Nothing, cur, files);
    var m := Tick(hash, rm, Fail(Nothing));
    assert TempTree(m) == map[STRAY := "Left behind."];
    var t := ToHeartbeat(hash, m, cur, TarOf(files));
    OverlayHolds(TempTree(m), TarOf(files), STRAY);
    assert STRAY in View(t.fs).value;
    assert !Manifested(View(t.fs).value, NameSet(cur.paths)) by {
      assert forall w :: w in NameSet(cur.paths) ==> w == PathOf(GUIDE);
    }
    FillingPassCur(hash, rm, cur, files);
    inputs := StretchIsRun(hash, m, cur, TarOf(files));
    TicksCons(hash, rm, Fail(Nothing), inputs);
    inputs := [Fail(Nothing)] + inputs;
    TicksCons3(hash, s, Reply(cur), Go, Go, inputs);
    inputs := [Reply(cur)] + ([Go] + ([Go] + inputs));
  }

  lemma FillingPassCur(hash: string -> Digest, s: Sub, cur: Current, files: seq<File>)
    requires Offers(hash, cur, files) && s.stage.RmTmp? && s.pass.cur == cur && s.pass.want == NameSet(cur.paths)
    requires Disjoint(TempTree(s), TarOf(files))
    ensures ToHeartbeat(hash, Tick(hash, s, Fail(Nothing)), cur, TarOf(files)).pass.cur == cur
  {
    hide Components, Overlay, TempName, Layable, TarOf, ToHeartbeat, Disjoint;
    var m := Tick(hash, s, Fail(Nothing));
    assert TempTree(m) == TempTree(s);
    FillingPass(hash, m, cur, files);
  }

  lemma ToRemoval(hash: string -> Digest, s: Sub, cur: Current)
    requires s.stage.Idle? && !cur.resync && s.fs.applied.None? && WantSet(cur.paths) == Some(NameSet(cur.paths))
    ensures Tick(hash, Tick(hash, Tick(hash, s, Reply(cur)), Go), Go) ==
            s.(stage := RmTmp, pass := NewPass(cur, s.fs).(want := NameSet(cur.paths)))
  {
    hide WantSet;
  }

  lemma TicksCons3(hash: string -> Digest, s: Sub, i: Input, j: Input, k: Input, rest: seq<Input>)
    ensures Ticks(hash, s, [i] + ([j] + ([k] + rest))) == Ticks(hash, Tick(hash, Tick(hash, Tick(hash, s, i), j), k), rest)
  {
    hide Tick;
    TicksCons(hash, s, i, [j] + ([k] + rest));
    TicksCons(hash, Tick(hash, s, i), j, [k] + rest);
    TicksCons(hash, Tick(hash, Tick(hash, s, i), j), k, rest);
  }
}
