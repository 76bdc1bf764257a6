/** One converge pass as a machine of micro-steps on a small file system.

    Every stage is one system call or request of the pass. An input says how it goes: it takes
    effect, it fails (possibly half done), or the process dies in it (possibly half done). */
module SubscriberModel {
  import opened Wrappers
  import opened Text
  import opened StoreModel
  import opened Extraction

  // ---------------------------------------------------------------- the file system

  /** `$KNOWLEDGE_HOME`: the `.applied` bytes, the name `corpus` points at below `releases/`, the
      temporary symlinks, and the directories below `releases/`. */
  datatype Fs = Fs(applied: Option<string>, corpus: Option<string>, links: map<string, string>, dirs: map<string, Tree>)

  /** What a session sees through `corpus`. */
  function View(fs: Fs): Option<Tree> {
    if fs.corpus.Some? && fs.corpus.value in fs.dirs then Some(fs.dirs[fs.corpus.value]) else None
  }

  function Suffix(n: nat): string {
    if n == 0 then "" else "." + Decimal(n)
  }

  /** releases/<id>, releases/<id>.1, releases/<id>.2, ... */
  function DirName(id: int, n: nat): string {
    Decimal(id) + Suffix(n)
  }

  function TempName(id: int, pid: nat): string {
    "." + Decimal(id) + ".tmp." + Decimal(pid)
  }

  function TempLink(pid: nat): string {
    ".corpus.tmp." + Decimal(pid)
  }

  predicate IsTemp(name: string) {
    name != "" && name[0] == '.'
  }

  lemma DecimalStart(id: int)
    ensures Decimal(id) != "" && Decimal(id)[0] != '.'
  {
    DecimalShape(id);
    assert Decimal(id)[0] in Decimal(id);
  }

  lemma NamesApart(id: int, n: nat, other: int, pid: nat)
    ensures !IsTemp(DirName(id, n)) && IsTemp(TempName(other, pid)) && DirName(id, n) != TempName(other, pid)
  {
    DecimalStart(id);
    assert DirName(id, n)[0] == Decimal(id)[0];
    assert TempName(other, pid)[0] == '.';
  }

  lemma SplitDirName(id: int, n: nat)
    ensures Split(DirName(id, n), '.') == if n == 0 then [Decimal(id)] else [Decimal(id), Decimal(n)]
  {
    DecimalShape(id);
    DecimalShape(n);
    if n == 0 {
      assert DirName(id, n) == Decimal(id);
      SplitOfWord(Decimal(id), '.');
    } else {
      var parts := [Decimal(id), Decimal(n)];
      assert parts[1..] == [Decimal(n)];
      assert DirName(id, n) == Decimal(id) + ['.'] + Decimal(n) == Join(parts, '.');
      SplitOfJoin(parts, '.');
    }
  }

  /** A release directory name tells its release id and its suffix. */
  lemma DirNameInjective(id: int, n: nat, id': int, n': nat)
    requires DirName(id, n) == DirName(id', n')
    ensures id == id' && n == n'
  {
    SplitDirName(id, n);
    SplitDirName(id', n');
    var s, t := Split(DirName(id, n), '.'), Split(DirName(id', n'), '.');
    assert s[0] == Decimal(id) && t[0] == Decimal(id');
    DecimalInjective(id, id');
    if n != 0 && n' != 0 {
      assert s[1] == Decimal(n) && t[1] == Decimal(n');
      DecimalInjective(n, n');
    } else {
      assert |s| == |t|;
    }
  }

  /** Temporary names of different releases are different. */
  lemma TempNameInjective(id: int, pid: nat, id': int, pid': nat)
    requires TempName(id, pid) == TempName(id', pid')
    ensures id == id'
  {
    TempNameSplits(id, pid);
    TempNameSplits(id', pid');
    assert ["", Decimal(id), "tmp", Decimal(pid)][1] == ["", Decimal(id'), "tmp", Decimal(pid')][1];
    DecimalInjective(id, id');
  }

  lemma TempNameSplits(id: int, pid: nat)
    ensures Split(TempName(id, pid), '.') == ["", Decimal(id), "tmp", Decimal(pid)]
  {
    hide DecimalNat;
    DecimalShape(id);
    DecimalShape(pid);
    var a, b, c := "tmp" + ['.'] + Decimal(pid), Decimal(id), "";
    SplitOfWord("tmp", '.');
    SplitOfWord(Decimal(pid), '.');
    SplitAtSep("tmp", Decimal(pid), '.');
    SplitOfWord(b, '.');
    SplitAtSep(b, a, '.');
    SplitAtSep(c, b + ['.'] + a, '.');
    assert TempName(id, pid) == c + ['.'] + (b + ['.'] + a);
  }

  // ---------------------------------------------------------------- picking a fresh directory

  /** The names tried and taken below `n`. */
  ghost predicate AllTaken(names: set<string>, id: int, n: nat) {
    forall k :: 0 <= k < n ==> DirName(id, k) in names
  }

  lemma {:induction false} TakenNamesAreMany(names: set<string>, id: int, n: nat)
    requires AllTaken(names, id, n)
    ensures n <= |names|
  {
    if n > 0 {
      var last := DirName(id, n - 1);
      forall k | 0 <= k < n - 1 ensures DirName(id, k) in names - {last} {
        if DirName(id, k) == last { DirNameInjective(id, k, id, n - 1); }
      }
      TakenNamesAreMany(names - {last}, id, n - 1);
    }
  }

  /** `freshReleaseDir`, from suffix `n` on. */
  function FreshFrom(names: set<string>, id: int, n: nat): (m: nat)
    requires AllTaken(names, id, n)
    ensures m >= n && DirName(id, m) !in names && AllTaken(names, id, m)
    decreases |names| - n
  {
    TakenNamesAreMany(names, id, n);
    if DirName(id, n) !in names then n
    else
      TakenNamesAreMany(names, id, n + 1);
      FreshFrom(names, id, n + 1)
  }

  /** The least free suffix: it exists, it is free, and every smaller one is taken. */
  function Fresh(names: set<string>, id: int): (m: nat)
    ensures DirName(id, m) !in names && AllTaken(names, id, m)
  {
    FreshFrom(names, id, 0)
  }

  // ---------------------------------------------------------------- the marker

  function MarkerText(id: int, hash: string): string {
    Decimal(id) + ([' '] + (hash + "\n"))
  }

  /** `readApplied`. */
  function ReadApplied(applied: Option<string>): Option<(string, string)> {
    if applied.None? then None
    else
      var fields := Fields(applied.value);
      if |fields| == 2 then Some((fields[0], fields[1])) else None
  }

  // ---------------------------------------------------------------- a pass

  datatype Stage =
    | Idle | Clear | Compare | Prepare | RmTmp | MkTmp | Fetch | Extract | Verify | Install
    | LinkOut | LinkNew | Flip | Mark | DropTmp | DropLink | Send | Down

  /** The current-release response, as far as the subscriber uses it. */
  datatype Current = Current(id: int, hash: string, paths: seq<string>, resync: bool)

  /** The locals of a pass, with what it began from, what its temporary directory held when extraction
      began and the entries it has taken since. */
  datatype Pass = Pass(
    cur: Current, fired: bool, want: set<string>, rest: seq<Entry>, whole: bool, seen: set<string>,
    dir: string, ok: bool, ack: bool, start: Fs, left: Tree, got: seq<Entry>)

  datatype Sub = Sub(fs: Fs, pid: nat, stage: Stage, pass: Pass)

  /** What a failing or fatal step left behind. */
  datatype Mess = Nothing | Bytes(n: nat) | Left(paths: set<Path>)

  datatype Input =
    | Go
    | Reply(cur: Current)
    | Stream(entries: seq<Entry>, whole: bool)
    | Fail(mess: Mess)
    | Crash(mess: Mess)
    | Restart(pid: nat)

  const NOTHING_YET: Current := Current(0, "", [], false)

  function NewPass(cur: Current, fs: Fs): Pass {
    Pass(cur, false, {}, [], false, {}, "", false, false, fs, map[], [])
  }

  function Temp(s: Sub): string {
    TempName(s.pass.cur.id, s.pid)
  }

  function WithDir(fs: Fs, name: string, tree: Tree): Fs {
    fs.(dirs := fs.dirs[name := tree])
  }

  function WithoutDir(fs: Fs, name: string): Fs {
    fs.(dirs := fs.dirs - {name})
  }

  function TempTree(s: Sub): Tree {
    if Temp(s) in s.fs.dirs then s.fs.dirs[Temp(s)] else map[]
  }

  /** A recursive removal that stopped half way keeps some of the files. */
  function HalfRemoved(tree: Tree, paths: set<Path>): Tree {
    map p | p in tree && p in paths :: tree[p]
  }

  function Prefix(s: string, n: nat): string {
    if n <= |s| then s[..n] else s
  }

  /** The file system after the current step fails, or dies, with this mess. */
  function FailFs(s: Sub, m: Mess): Fs {
    match s.stage
    case RmTmp => if m.Left? && Temp(s) in s.fs.dirs then WithDir(s.fs, Temp(s), HalfRemoved(TempTree(s), m.paths)) else s.fs
    case DropTmp => if m.Left? && Temp(s) in s.fs.dirs then WithDir(s.fs, Temp(s), HalfRemoved(TempTree(s), m.paths)) else s.fs
    case Extract =>
      if m.Bytes? && s.pass.rest != [] && Admits(s.pass.want, s.pass.rest[0]) && CanWrite(TempTree(s), Components(s.pass.rest[0].name))
      then WithDir(s.fs, Temp(s), TempTree(s)[Components(s.pass.rest[0].name) := Prefix(s.pass.rest[0].body, m.n)])
      else s.fs
    case Mark => if m.Bytes? then s.fs.(applied := Some(Prefix(MarkerText(s.pass.cur.id, s.pass.cur.hash), m.n))) else s.fs
    case _ => s.fs
  }

  function To(s: Sub, stage: Stage): Sub {
    s.(stage := stage)
  }

  /** On the way to the heartbeat of this outcome. */
  function Reporting(s: Sub, ok: bool, ack: bool): Sub {
    s.(stage := Send, pass := s.pass.(ok := ok, ack := ack))
  }

  /** The step after a failed one: most failures go straight to the failure heartbeat, those with a
      temporary directory or link drop it first, and removals are best effort. */
  function AfterFail(s: Sub): Sub {
    match s.stage
    case Idle => Reporting(s.(pass := NewPass(NOTHING_YET, s.fs)), false, false)
    case Compare => To(s, Prepare)
    case RmTmp => To(s, MkTmp)
    case Fetch => To(s, DropTmp)
    case Extract => To(s, DropTmp)
    case Verify => To(s, DropTmp)
    case Install => To(s, DropTmp)
    case LinkOut => To(s, LinkNew)
    case Flip => To(s, DropLink)
    case Send => To(s, Idle)
    case Down => s
    case _ => Reporting(s, false, false)
  }

  predicate Matches(fs: Fs, cur: Current) {
    ReadApplied(fs.applied) == Some((Decimal(cur.id), cur.hash))
  }

  /** One entry of the stream, or its end. */
  function TakeEntry(s: Sub): Sub {
    var p := s.pass;
    if p.rest == [] then To(s, if p.whole && p.want <= p.seen then Verify else DropTmp)
    else
      var e := p.rest[0];
      if !Admits(p.want, e) || !CanWrite(TempTree(s), Components(e.name)) then To(s, DropTmp)
      else
        s.(fs := WithDir(s.fs, Temp(s), TempTree(s)[Components(e.name) := e.body]),
           pass := p.(rest := p.rest[1..], seen := p.seen + {e.name}, got := p.got + [e]))
  }

  /** The current step taking effect. */
  function Advance(hash: string -> Digest, s: Sub, i: Input): Sub {
    var p := s.pass;
    match s.stage
    case Idle =>
      if i.Reply? then s.(stage := if i.cur.resync then Clear else Compare, pass := NewPass(i.cur, s.fs)) else AfterFail(s)
    case Clear => s.(fs := s.fs.(applied := None), stage := Compare, pass := p.(fired := true))
    case Compare => if Matches(s.fs, p.cur) then Reporting(s, true, false) else To(s, Prepare)
    case Prepare =>
      (match WantSet(p.cur.paths)
       case None => Reporting(s, false, false)
       case Some(want) => s.(stage := RmTmp, pass := p.(want := want)))
    case RmTmp => s.(fs := WithoutDir(s.fs, Temp(s)), stage := MkTmp)
    case MkTmp => s.(fs := WithDir(s.fs, Temp(s), TempTree(s)), stage := Fetch, pass := p.(left := TempTree(s)))
    case Fetch =>
      if i.Stream? then s.(stage := Extract, pass := p.(rest := i.entries, whole := i.whole, seen := {}, got := [])) else AfterFail(s)
    case Extract => TakeEntry(s)
    case Verify => To(s, if RecomputeHash(hash, TempTree(s), p.cur.paths) == Some(p.cur.hash) then Install else DropTmp)
    case Install =>
      var dir := DirName(p.cur.id, Fresh(s.fs.dirs.Keys, p.cur.id));
      s.(fs := WithDir(WithoutDir(s.fs, Temp(s)), dir, TempTree(s)), stage := LinkOut, pass := p.(dir := dir))
    case LinkOut => s.(fs := s.fs.(links := s.fs.links - {TempLink(s.pid)}), stage := LinkNew)
    case LinkNew =>
      if TempLink(s.pid) in s.fs.links then Reporting(s, false, false)
      else s.(fs := s.fs.(links := s.fs.links[TempLink(s.pid) := p.dir]), stage := Flip)
    case Flip => s.(fs := s.fs.(corpus := Some(p.dir), links := s.fs.links - {TempLink(s.pid)}), stage := Mark)
    case Mark => Reporting(s.(fs := s.fs.(applied := Some(MarkerText(p.cur.id, p.cur.hash)))), true, p.fired)
    case DropTmp => Reporting(s.(fs := WithoutDir(s.fs, Temp(s))), false, false)
    case DropLink => Reporting(s.(fs := s.fs.(links := s.fs.links - {TempLink(s.pid)})), false, false)
    case Send => To(s, Idle)
    case Down => s
  }

  /** One micro-step of the subscriber process. */
  function Tick(hash: string -> Digest, s: Sub, i: Input): Sub {
    match i
    case Crash(m) => s.(fs := FailFs(s, m), stage := Down)
    case Restart(pid) => if s.stage.Down? || s.stage.Idle? then s.(stage := Idle, pid := pid) else s
    case Fail(m) => AfterFail(s.(fs := FailFs(s, m)))
    case _ => Advance(hash, s, i)
  }

  /** A heartbeat, with the pass that sent it and the file system at that moment. */
  datatype Beacon = Beacon(id: int, ok: bool, ack: bool, fs: Fs, pass: Pass)

  /** The heartbeat this step puts on the wire, if any. */
  function Emits(s: Sub, i: Input): Option<Beacon> {
    if s.stage.Send? && !i.Crash? && !i.Restart? then Some(Beacon(s.pass.cur.id, s.pass.ok, s.pass.ack, s.fs, s.pass)) else None
  }

  // ---------------------------------------------------------------- a pass ends

  /** How many kinds of step remain before the heartbeat. */
  function Remaining(stage: Stage): nat {
    match stage
    case Idle => 17 case Clear => 16 case Compare => 15 case Prepare => 14 case RmTmp => 13 case MkTmp => 12
    case Fetch => 11 case Extract => 10 case Verify => 9 case Install => 8 case LinkOut => 7 case LinkNew => 6
    case Flip => 5 case Mark => 4 case DropTmp => 3 case DropLink => 3 case Send => 0 case Down => 0
  }

  /** A running pass meets no restart. */
  function Running(i: Input): Input {
    if i.Restart? then Go else i
  }

  /** Every step, whatever happens to it, brings the pass closer to its heartbeat. */
  lemma TickDescends(hash: string -> Digest, s: Sub, i: Input)
    requires !s.stage.Send? && !s.stage.Down? && !i.Restart?
    ensures var t := Tick(hash, s, i);
      Remaining(t.stage) < Remaining(s.stage) || (t.stage == s.stage && |t.pass.rest| < |s.pass.rest|)
  {
    hide Components, RecomputeHash, WantSet, Fresh, Matches, DirName, MarkerText, CanWrite, Admits, FailFs, TempTree;
  }

  /** Only polling and fetching look at what the input carries. */
  lemma AdvanceIgnoresInput(hash: string -> Digest, s: Sub, i: Input)
    requires !s.stage.Idle? && !s.stage.Fetch?
    ensures Advance(hash, s, i) == Advance(hash, s, Go)
    ensures s.stage.Extract? ==> Advance(hash, s, i) == TakeEntry(s)
  {
  }

  datatype Ending = Ending(sub: Sub, sent: Option<Beacon>)

  /** The pass from here, its k-th and later steps going as `env` says: how it ends and what it sends. */
  function PassFrom(hash: string -> Digest, s: Sub, env: nat -> Input, k: nat): Ending
    decreases Remaining(s.stage), |s.pass.rest|
  {
    var i := Running(env(k));
    if s.stage.Down? then Ending(s, None)
    else if s.stage.Send? then Ending(Tick(hash, s, i), Emits(s, i))
    else
      TickDescends(hash, s, i);
      PassFrom(hash, Tick(hash, s, i), env, k + 1)
  }

  lemma PassStep(hash: string -> Digest, s: Sub, env: nat -> Input, k: nat)
    requires !s.stage.Send? && !s.stage.Down?
    ensures PassFrom(hash, s, env, k) == PassFrom(hash, Tick(hash, s, Running(env(k))), env, k + 1)
  {
  }
}
