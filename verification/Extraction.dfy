/** Paths, trees and tar extraction on the subscriber's side. */
module Extraction {
  import opened Wrappers
  import opened Text
  import opened StoreModel

  /** A cleaned path, as its elements. The empty path is the directory it is relative to. */
  type Path = seq<string>

  /** The regular files below a directory. */
  type Tree = map<Path, string>

  datatype Entry = Entry(name: string, regular: bool, body: string)

  // ---------------------------------------------------------------- entry paths

  /** One element of `filepath.Clean` on an absolute path. */
  function Push(stack: Path, part: string): Path {
    if part == "" || part == "." then stack
    else if part == ".." then (if stack == [] then [] else stack[..|stack| - 1])
    else stack + [part]
  }

  function CleanOnto(stack: Path, parts: seq<string>): Path
    decreases |parts|
  {
    if parts == [] then stack else CleanOnto(Push(stack, parts[0]), parts[1..])
  }

  /** The elements of a name that survive cleaning when none is "..". */
  function Kept(parts: seq<string>): Path {
    if parts == [] then []
    else (if parts[0] == "" || parts[0] == "." then [] else [parts[0]]) + Kept(parts[1..])
  }

  function Components(name: string): Path {
    Kept(Split(name, '/'))
  }

  predicate Below(dest: Path, target: Path) {
    dest < target
  }

  /** `validateEntryPath(destDir, name)`, the target given in full. */
  function ValidateEntryPath(dest: Path, name: string): Option<Path> {
    var parts := Split(name, '/');
    if name == "" || name[0] == '/' || ".." in parts then None
    else
      var target := CleanOnto(dest, parts);
      if target != dest && !Below(dest, target) then None else Some(target)
  }

  predicate SafeName(name: string) {
    name != "" && name[0] != '/' && ".." !in Split(name, '/')
  }

  lemma {:induction false} CleanWithoutDots(stack: Path, parts: seq<string>)
    requires ".." !in parts
    ensures CleanOnto(stack, parts) == stack + Kept(parts)
    decreases |parts|
  {
    if parts != [] {
      CleanWithoutDots(Push(stack, parts[0]), parts[1..]);
    }
  }

  /** The three up-front rejections decide alone: the final escape check never fires, and the target
      is the destination followed by the name's own elements. */
  lemma EntryPathDecides(dest: Path, name: string)
    ensures ValidateEntryPath(dest, name) == if SafeName(name) then Some(dest + Components(name)) else None
  {
    if SafeName(name) { CleanWithoutDots(dest, Split(name, '/')); }
  }

  lemma {:induction false} KeptHoldsRealNames(parts: seq<string>)
    ensures forall c :: c in Kept(parts) ==> c in parts && c != "" && c != "."
  {
    if parts != [] { KeptHoldsRealNames(parts[1..]); }
  }

  // ---------------------------------------------------------------- writing files

  /** Creating `p` fails when it is the directory itself, when one of its parents is a file, or when
      it is a directory already. */
  predicate CanWrite(tree: Tree, p: Path) {
    p != [] && forall q :: q in tree ==> !(q < p) && !(p < q)
  }

  predicate Admits(want: set<string>, e: Entry) {
    SafeName(e.name) && e.regular && e.name in want
  }

  /** `extractTar` on an undisturbed stream: the entries in order, then the completeness check. */
  function ExtractFrom(tree: Tree, seen: set<string>, entries: seq<Entry>, want: set<string>): Option<Tree>
    decreases |entries|
  {
    if entries == [] then if want <= seen then Some(tree) else None
    else
      var e := entries[0];
      if !Admits(want, e) || !CanWrite(tree, Components(e.name)) then None
      else ExtractFrom(tree[Components(e.name) := e.body], seen + {e.name}, entries[1..], want)
  }

  function ExtractTar(entries: seq<Entry>, want: set<string>): Option<Tree> {
    ExtractFrom(map[], {}, entries, want)
  }

  /** `buildWantSet`. */
  function WantSet(paths: seq<string>): Option<set<string>> {
    if forall p :: p in paths ==> SafeName(p) then Some(set p | p in paths) else None
  }

  /** `recomputeContentHash`: the manifest's paths read from the tree, in manifest order. */
  function ReadFiles(tree: Tree, paths: seq<string>): Option<seq<File>> {
    if paths == [] then Some([])
    else if Components(paths[0]) !in tree then None
    else
      match ReadFiles(tree, paths[1..])
      case None => None
      case Some(rest) => Some([File(paths[0], tree[Components(paths[0])])] + rest)
  }

  function RecomputeHash(hash: string -> Digest, tree: Tree, paths: seq<string>): Option<string> {
    match ReadFiles(tree, paths)
    case None => None
    case Some(files) => Some(ContentHash(hash, files))
  }

  /** Reading back succeeds exactly when every manifested file is there, and reads each under its own
      path, in manifest order. */
  lemma {:induction false} ReadFilesDecides(tree: Tree, paths: seq<string>)
    ensures ReadFiles(tree, paths).Some? <==> forall i :: 0 <= i < |paths| ==> Components(paths[i]) in tree
    ensures var read := ReadFiles(tree, paths);
      read.Some? ==>
        && |read.value| == |paths|
        && forall i :: 0 <= i < |paths| ==> Components(paths[i]) in tree && read.value[i] == File(paths[i], tree[Components(paths[i])])
  {
    hide Components;
    if paths != [] {
      ReadFilesDecides(tree, paths[1..]);
      assert forall i :: 0 < i < |paths| ==> paths[i] == paths[1..][i - 1];
    }
  }

  // ---------------------------------------------------------------- what extraction decides

  /** The body of the last entry that lands on `p`, if any does. */
  function LastBody(entries: seq<Entry>, p: Path): Option<string> {
    if entries == [] then None
    else if Components(entries[|entries| - 1].name) == p then Some(entries[|entries| - 1].body)
    else LastBody(entries[..|entries| - 1], p)
  }

  /** Entries applied in order, unchecked. */
  function Overlay(tree: Tree, entries: seq<Entry>): Tree {
    if entries == [] then tree
    else Overlay(tree, entries[..|entries| - 1])[Components(entries[|entries| - 1].name) := entries[|entries| - 1].body]
  }

  lemma {:induction false} OverlayHead(tree: Tree, entries: seq<Entry>)
    requires entries != []
    ensures Overlay(tree, entries) == Overlay(tree[Components(entries[0].name) := entries[0].body], entries[1..])
  {
    var n := |entries| - 1;
    if n > 0 {
      OverlayHead(tree, entries[..n]);
      assert entries[..n][1..] == entries[1..][..n - 1];
      assert entries[..n][0] == entries[0] && entries[1..][n - 1] == entries[n];
    } else {
      assert entries[..n] == [] && entries[1..] == [];
    }
  }

  lemma {:induction false} OverlayHolds(tree: Tree, entries: seq<Entry>, p: Path)
    ensures p in Overlay(tree, entries) <==> p in tree || LastBody(entries, p).Some?
    ensures LastBody(entries, p).Some? ==> Overlay(tree, entries)[p] == LastBody(entries, p).value
    ensures LastBody(entries, p).None? && p in tree ==> Overlay(tree, entries)[p] == tree[p]
    ensures LastBody(entries, p).Some? <==> exists i :: 0 <= i < |entries| && Components(entries[i].name) == p
  {
    hide Components;
    if entries != [] {
      var init, last := entries[..|entries| - 1], entries[|entries| - 1];
      OverlayHolds(tree, init, p);
      assert entries == init + [last];
    }
  }

  predicate Clash(p: Path, q: Path) {
    p < q || q < p
  }

  /** No name lands on the destination itself and none lands above or below another. */
  ghost predicate Disjoint(tree: Tree, entries: seq<Entry>) {
    && (forall i :: 0 <= i < |entries| ==> CanWrite(tree, Components(entries[i].name)))
    && (forall i, j :: 0 <= i < |entries| && 0 <= j < |entries| ==> !Clash(Components(entries[i].name), Components(entries[j].name)))
  }

  lemma DisjointFromHead(tree: Tree, entries: seq<Entry>)
    requires entries != [] && CanWrite(tree, Components(entries[0].name))
    requires Disjoint(tree[Components(entries[0].name) := entries[0].body], entries[1..])
    ensures Disjoint(tree, entries)
  {
    var p := Components(entries[0].name);
    var tree', rest := tree[p := entries[0].body], entries[1..];
    forall i | 0 < i < |entries| ensures CanWrite(tree, Components(entries[i].name)) && !Clash(p, Components(entries[i].name)) {
      assert rest[i - 1] == entries[i];
      assert CanWrite(tree', Components(rest[i - 1].name));
      assert p in tree' && forall q :: q in tree ==> q in tree';
    }
    forall i, j | 0 < i < |entries| && 0 < j < |entries| ensures !Clash(Components(entries[i].name), Components(entries[j].name)) {
      assert rest[i - 1] == entries[i] && rest[j - 1] == entries[j];
    }
  }

  lemma DisjointToHead(tree: Tree, entries: seq<Entry>)
    requires entries != [] && Disjoint(tree, entries)
    ensures CanWrite(tree, Components(entries[0].name))
    ensures Disjoint(tree[Components(entries[0].name) := entries[0].body], entries[1..])
  {
    var p := Components(entries[0].name);
    var tree', rest := tree[p := entries[0].body], entries[1..];
    forall i | 0 <= i < |rest| ensures CanWrite(tree', Components(rest[i].name)) {
      assert rest[i] == entries[i + 1];
      assert !Clash(p, Components(entries[i + 1].name));
    }
    forall i, j | 0 <= i < |rest| && 0 <= j < |rest| ensures !Clash(Components(rest[i].name), Components(rest[j].name)) {
      assert rest[i] == entries[i + 1] && rest[j] == entries[j + 1];
    }
  }

  ghost predicate Occurs(entries: seq<Entry>, name: string) {
    exists i :: 0 <= i < |entries| && entries[i].name == name
  }

  lemma OccursHead(entries: seq<Entry>, name: string)
    requires entries != []
    ensures Occurs(entries, name) <==> entries[0].name == name || Occurs(entries[1..], name)
  {
    if Occurs(entries[1..], name) {
      var i :| 0 <= i < |entries[1..]| && entries[1..][i].name == name;
      assert entries[i + 1].name == name;
    }
    if Occurs(entries, name) {
      var i :| 0 <= i < |entries| && entries[i].name == name;
      assert i > 0 ==> entries[1..][i - 1].name == name;
    }
  }

  ghost predicate AllAdmitted(want: set<string>, entries: seq<Entry>) {
    forall i :: 0 <= i < |entries| ==> Admits(want, entries[i])
  }

  ghost predicate Complete(want: set<string>, seen: set<string>, entries: seq<Entry>) {
    forall w :: w in want ==> w in seen || Occurs(entries, w)
  }

  lemma AdmittedAndCompleteHead(want: set<string>, seen: set<string>, entries: seq<Entry>)
    requires entries != []
    ensures AllAdmitted(want, entries) <==> Admits(want, entries[0]) && AllAdmitted(want, entries[1..])
    ensures Complete(want, seen, entries) <==> Complete(want, seen + {entries[0].name}, entries[1..])
  {
    assert entries == [entries[0]] + entries[1..];
    forall w | w in want ensures Occurs(entries, w) <==> entries[0].name == w || Occurs(entries[1..], w) {
      OccursHead(entries, w);
    }
  }

  lemma {:induction false} ExtractFromDecides(tree: Tree, seen: set<string>, entries: seq<Entry>, want: set<string>)
    ensures ExtractFrom(tree, seen, entries, want).Some? <==>
            AllAdmitted(want, entries) && Disjoint(tree, entries) && Complete(want, seen, entries)
    ensures ExtractFrom(tree, seen, entries, want).Some? ==> ExtractFrom(tree, seen, entries, want).value == Overlay(tree, entries)
    decreases |entries|
  {
    if entries != [] {
      var e := entries[0];
      var tree' := tree[Components(e.name) := e.body];
      OverlayHead(tree, entries);
      AdmittedAndCompleteHead(want, seen, entries);
      ExtractFromDecides(tree', seen + {e.name}, entries[1..], want);
      if Disjoint(tree, entries) { DisjointToHead(tree, entries); }
      if CanWrite(tree, Components(e.name)) && Disjoint(tree', entries[1..]) { DisjointFromHead(tree, entries); }
    } else {
      assert Complete(want, seen, []) <==> want <= seen;
    }
  }

  /** Extraction into an empty directory succeeds exactly when every entry is a safely named, regular,
      manifested file, every manifested name occurs, and no two names get in each other's way. It then
      writes the manifest's cleaned paths and nothing else, each strictly below the destination and
      free of "..", each holding the body of the last entry that lands there. */
  lemma ExtractionIsExact(entries: seq<Entry>, want: set<string>)
    ensures ExtractTar(entries, want).Some? <==>
            AllAdmitted(want, entries) && Disjoint(map[], entries) && Complete(want, {}, entries)
    ensures ExtractTar(entries, want).Some? ==>
            var tree := ExtractTar(entries, want).value;
            && (forall p :: p in tree <==> exists w :: w in want && Components(w) == p)
            && (forall p :: p in tree ==> p != [] && ".." !in p && "" !in p && "." !in p)
            && (forall p :: p in tree ==> LastBody(entries, p) == Some(tree[p]))
  {
    ExtractFromDecides(map[], {}, entries, want);
    if ExtractTar(entries, want).Some? {
      var tree := ExtractTar(entries, want).value;
      forall p ensures p in tree <==> exists w :: w in want && Components(w) == p {
        OverlayHolds(map[], entries, p);
        if p in tree {
          var i :| 0 <= i < |entries| && Components(entries[i].name) == p;
          assert Admits(want, entries[i]);
        }
        if w :| w in want && Components(w) == p {
          var i :| 0 <= i < |entries| && entries[i].name == w;
        }
      }
      forall p | p in tree ensures p != [] && ".." !in p && "" !in p && "." !in p && LastBody(entries, p) == Some(tree[p]) {
        OverlayHolds(map[], entries, p);
        var i :| 0 <= i < |entries| && Components(entries[i].name) == p;
        assert Admits(want, entries[i]) && CanWrite(map[], Components(entries[i].name));
        KeptHoldsRealNames(Split(entries[i].name, '/'));
      }
    }
  }
}
