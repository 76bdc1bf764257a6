/** The Codex adapter's managed block in AGENTS.md: strip the old block, append the new one. */
module ManagedBlock {
  import opened Wrappers
  import opened Text

  const BEGIN_NAME: string := "<!-- agent-knowledge-kit:begin"
  const BEGIN_NOTE: string := " (managed block, do not"
  const BEGIN_REST: string := " edit by hand) -->"

  const BEGIN: string := BEGIN_NAME + BEGIN_NOTE + BEGIN_REST
  const END: string := "<!-- agent-knowledge-kit:end -->"

  lemma MarkersAreLines()
    ensures '\n' !in BEGIN && '\n' !in END && BEGIN != END && BEGIN != "" && END != ""
  {
    assert '\n' !in BEGIN_NAME && '\n' !in BEGIN_NOTE && '\n' !in BEGIN_REST;
    assert |BEGIN| == 71 && |END| == 32;
  }

  lemma MarkersAreMarkers()
    ensures IsMarker(BEGIN) && IsMarker(END)
  {
  }

  // ---------------------------------------------------------------- lines

  /** The records awk and grep see: the text up to each newline, and a last unterminated piece. */
  function Lines(text: string): seq<string> {
    var parts := Split(text, '\n');
    if parts[|parts| - 1] == "" then parts[..|parts| - 1] else parts
  }

  /** What awk prints: every line newline-terminated. */
  function Unlines(lines: seq<string>): string {
    if lines == [] then "" else lines[0] + "\n" + Unlines(lines[1..])
  }

  lemma {:induction false} UnlinesSnoc(lines: seq<string>, l: string)
    ensures Unlines(lines + [l]) == Unlines(lines) + l + "\n"
  {
    if lines == [] {
      assert lines + [l] == [l] && [l][1..] == [];
    } else {
      assert (lines + [l])[1..] == lines[1..] + [l];
      UnlinesSnoc(lines[1..], l);
    }
  }

  lemma {:induction false} UnlinesConcat(a: seq<string>, b: seq<string>)
    ensures Unlines(a + b) == Unlines(a) + Unlines(b)
  {
    if a == [] {
      assert a + b == b;
    } else {
      assert (a + b)[1..] == a[1..] + b;
      UnlinesConcat(a[1..], b);
    }
  }

  lemma {:induction false} SplitOfUnlines(lines: seq<string>)
    requires forall l :: l in lines ==> '\n' !in l
    ensures Split(Unlines(lines), '\n') == lines + [""]
  {
    if lines != [] {
      assert lines == [lines[0]] + lines[1..];
      SplitOfUnlines(lines[1..]);
      SplitOfWord(lines[0], '\n');
      SplitAtSep(lines[0], Unlines(lines[1..]), '\n');
      assert Unlines(lines) == lines[0] + ['\n'] + Unlines(lines[1..]);
    } else {
      assert Split(Unlines(lines), '\n') == [""];
    }
  }

  lemma LinesOfUnlines(lines: seq<string>)
    requires forall l :: l in lines ==> '\n' !in l
    ensures Lines(Unlines(lines)) == lines
  {
    SplitOfUnlines(lines);
  }

  lemma LinesHoldNoNewline(text: string)
    ensures forall l :: l in Lines(text) ==> '\n' !in l
  {
    PartsHoldNoSep(text, '\n');
  }

  // ---------------------------------------------------------------- stripping

  /** The awk program: `inside` is its `inblock` flag when the first line is read. */
  function Outside(lines: seq<string>, inside: bool): seq<string> {
    if lines == [] then []
    else if lines[0] == BEGIN then Outside(lines[1..], true)
    else if lines[0] == END then Outside(lines[1..], false)
    else (if inside then [] else [lines[0]]) + Outside(lines[1..], inside)
  }

  predicate IsMarker(line: string) {
    line == BEGIN || line == END
  }

  /** Line `i` is operator text: no marker, and the nearest marker before it, if any, is an end. */
  ghost predicate IsOperatorLine(lines: seq<string>, i: nat)
    requires i < |lines|
  {
    && !IsMarker(lines[i])
    && forall k :: 0 <= k < i && lines[k] == BEGIN ==> exists e :: k < e < i && lines[e] == END
  }

  /** The flag after reading these lines. */
  function InsideAfter(lines: seq<string>, inside: bool): bool {
    if lines == [] then inside
    else InsideAfter(lines[1..], if lines[0] == BEGIN then true else if lines[0] == END then false else inside)
  }

  lemma {:induction false} OutsideSnoc(lines: seq<string>, l: string, inside: bool)
    ensures Outside(lines + [l], inside) ==
            Outside(lines, inside) + if IsMarker(l) || InsideAfter(lines, inside) then [] else [l]
    ensures InsideAfter(lines + [l], inside) ==
            if l == BEGIN then true else if l == END then false else InsideAfter(lines, inside)
  {
    if lines == [] {
      assert lines + [l] == [l] && [l][1..] == [];
    } else {
      assert (lines + [l])[1..] == lines[1..] + [l];
      OutsideSnoc(lines[1..], l, if lines[0] == BEGIN then true else if lines[0] == END then false else inside);
    }
  }

  /** `awk ... "$TARGET"`, line by line with its flag. */
  method StripBlocks(text: string) returns (kept: string)
    ensures kept == Unlines(Outside(Lines(text), false))
  {
    var lines := Lines(text);
    var out: seq<string> := [];
    var inblock := false;
    for i := 0 to |lines|
      invariant out == Outside(lines[..i], false) && inblock == InsideAfter(lines[..i], false)
    {
      OutsideSnoc(lines[..i], lines[i], false);
      assert lines[..i + 1] == lines[..i] + [lines[i]];
      if lines[i] == BEGIN {
        inblock := true;
      } else if lines[i] == END {
        inblock := false;
      } else if !inblock {
        out := out + [lines[i]];
      }
    }
    assert lines[..|lines|] == lines;
    kept := Unlines(out);
  }

  /** Nothing open at the end: every begin has an end after it. */
  lemma {:induction false} InsideMeansOpen(lines: seq<string>)
    ensures InsideAfter(lines, false) <==>
            exists k :: 0 <= k < |lines| && lines[k] == BEGIN && forall e :: k < e < |lines| ==> lines[e] != END
  {
    if lines != [] {
      var n := |lines| - 1;
      MarkersAreLines();
      InsideMeansOpen(lines[..n]);
      OutsideSnoc(lines[..n], lines[n], false);
      assert lines == lines[..n] + [lines[n]];
    }
  }

  /** The increasing positions of the operator lines. */
  ghost predicate OperatorPositions(lines: seq<string>, at: seq<nat>) {
    && (forall i, j :: 0 <= i < j < |at| ==> at[i] < at[j])
    && (forall i :: 0 <= i < |at| ==> at[i] < |lines| && IsOperatorLine(lines, at[i]))
    && (forall k :: 0 <= k < |lines| && IsOperatorLine(lines, k) ==> k in at)
  }

  /** Stripping keeps exactly the operator lines, in order. */
  lemma {:induction false} OutsideKeepsOperatorLines(lines: seq<string>) returns (at: seq<nat>)
    ensures OperatorPositions(lines, at)
    ensures |at| == |Outside(lines, false)| && forall i :: 0 <= i < |at| ==> Outside(lines, false)[i] == lines[at[i]]
  {
    hide IsMarker, InsideAfter, IsOperatorLine;
    if lines == [] {
      at := [];
    } else {
      var n := |lines| - 1;
      var init := lines[..n];
      at := OutsideKeepsOperatorLines(init);
      OutsideSnoc(init, lines[n], false);
      LastOperatorLine(lines);
      assert lines == init + [lines[n]];
      forall k | 0 <= k < n ensures IsOperatorLine(lines, k) <==> IsOperatorLine(init, k) {
        SameOperatorLine(lines, n, k);
      }
      if !IsMarker(lines[n]) && !InsideAfter(init, false) { at := at + [n]; }
    }
  }

  lemma LastOperatorLine(lines: seq<string>)
    requires lines != []
    ensures var n := |lines| - 1;
      IsOperatorLine(lines, n) <==> !IsMarker(lines[n]) && !InsideAfter(lines[..n], false)
  {
    hide InsideAfter;
    InsideMeansOpen(lines[..|lines| - 1]);
  }

  lemma SameOperatorLine(lines: seq<string>, n: nat, k: nat)
    requires k < n <= |lines|
    ensures IsOperatorLine(lines, k) <==> IsOperatorLine(lines[..n], k)
  {
  }

  // ---------------------------------------------------------------- rendering

  /** `grep -F -x` finds neither marker in the kernel. */
  predicate Accepted(kernel: string) {
    forall l :: l in Lines(kernel) ==> !IsMarker(l)
  }

  function Stripped(text: string): string {
    Unlines(Outside(Lines(text), false))
  }

  /** The file the script leaves: operator text, then the block around the kernel's bytes. */
  function Updated(text: string, kernel: string): string {
    Stripped(text) + (BEGIN + "\n" + kernel + "\n" + END + "\n")
  }

  lemma {:induction false} UnlinesOfSplit(text: string)
    ensures Unlines(Split(text, '\n')) == text + "\n"
  {
    if text == "" {
      assert Split(text, '\n') == [""] && [""][1..] == [];
    } else {
      UnlinesOfSplit(text[1..]);
      var rest := Split(text[1..], '\n');
      assert text == [text[0]] + text[1..];
      if text[0] == '\n' {
        assert ([[]] + rest)[1..] == rest;
      } else {
        assert OntoFirst(text[0], rest)[1..] == rest[1..];
        assert Unlines(rest) == rest[0] + "\n" + Unlines(rest[1..]);
        assert Unlines(OntoFirst(text[0], rest)) == [text[0]] + Unlines(rest);
      }
    }
  }

  lemma {:induction false} JoinOfSplit(text: string)
    ensures Join(Split(text, '\n'), '\n') == text
  {
    if text != "" {
      JoinOfSplit(text[1..]);
      var rest := Split(text[1..], '\n');
      assert text == [text[0]] + text[1..];
      if text[0] == '\n' {
        assert ([[]] + rest)[1..] == rest;
      } else {
        assert OntoFirst(text[0], rest)[1..] == rest[1..];
      }
    }
  }

  /** The block's lines: the begin marker, the kernel split at every newline, the end marker. */
  function Block(kernel: string): seq<string> {
    [BEGIN] + Split(kernel, '\n') + [END]
  }

  ghost predicate MarkerFree(lines: seq<string>) {
    forall i :: 0 <= i < |lines| ==> !IsMarker(lines[i])
  }

  lemma KernelLinesAreFree(kernel: string)
    requires Accepted(kernel)
    ensures MarkerFree(Split(kernel, '\n'))
  {
    MarkersAreLines();
    var parts := Split(kernel, '\n');
    forall i | 0 <= i < |parts| ensures !IsMarker(parts[i]) {
      if parts[|parts| - 1] != "" || i < |parts| - 1 { assert parts[i] in Lines(kernel); }
    }
  }

  lemma {:induction false} OutsideIsFree(lines: seq<string>, inside: bool)
    ensures MarkerFree(Outside(lines, inside))
    ensures forall l :: l in Outside(lines, inside) ==> l in lines
  {
    if lines != [] {
      var next := if lines[0] == BEGIN then true else if lines[0] == END then false else inside;
      OutsideIsFree(lines[1..], next);
      assert lines == [lines[0]] + lines[1..];
    }
  }

  lemma BlockText(kernel: string)
    ensures Unlines(Block(kernel)) == BEGIN + "\n" + kernel + "\n" + END + "\n"
  {
    var parts := Split(kernel, '\n');
    UnlinesOfSplit(kernel);
    assert Block(kernel) == [BEGIN] + (parts + [END]);
    assert Block(kernel)[0] == BEGIN && Block(kernel)[1..] == parts + [END];
    UnlinesSnoc(parts, END);
  }

  /** The lines of an updated file: the operator lines and then the block. */
  lemma UpdatedLines(text: string, kernel: string)
    ensures Lines(Updated(text, kernel)) == Outside(Lines(text), false) + Block(kernel)
  {
    var kept := Outside(Lines(text), false);
    BlockText(kernel);
    UnlinesConcat(kept, Block(kernel));
    LinesHoldNoNewline(text);
    OutsideIsFree(Lines(text), false);
    PartsHoldNoSep(kernel, '\n');
    MarkersAreLines();
    forall l | l in kept + Block(kernel) ensures '\n' !in l {}
    LinesOfUnlines(kept + Block(kernel));
  }

  lemma {:induction false} OutsideOfFree(lines: seq<string>, rest: seq<string>, inside: bool)
    requires MarkerFree(lines)
    ensures Outside(lines + rest, inside) == (if inside then [] else lines) + Outside(rest, inside)
  {
    hide IsMarker;
    MarkersAreMarkers();
    if lines == [] {
      assert lines + rest == rest;
    } else {
      assert (lines + rest)[1..] == lines[1..] + rest && (lines + rest)[0] == lines[0];
      OutsideOfFree(lines[1..], rest, inside);
      assert lines == [lines[0]] + lines[1..];
    }
  }

  lemma OutsideOfBlock(kept: seq<string>, kernel: string)
    requires MarkerFree(kept) && Accepted(kernel)
    ensures Outside(kept + Block(kernel), false) == kept
  {
    var parts := Split(kernel, '\n');
    MarkersAreLines();
    KernelLinesAreFree(kernel);
    OutsideOfFree(kept, Block(kernel), false);
    assert Block(kernel)[0] == BEGIN && Block(kernel)[1..] == parts + [END];
    OutsideOfFree(parts, [END], true);
    assert Outside([END], true) == [] by { assert [END][1..] == []; }
  }

  /** Stripping an updated file gives back the operator text the update kept. */
  lemma StrippedOfUpdated(text: string, kernel: string)
    requires Accepted(kernel)
    ensures Stripped(Updated(text, kernel)) == Stripped(text)
  {
    UpdatedLines(text, kernel);
    OutsideIsFree(Lines(text), false);
    OutsideOfBlock(Outside(Lines(text), false), kernel);
  }

  /** The last update wins: updating with one accepted kernel and then another is updating with the
      other alone, and so repeating an update changes nothing. */
  lemma LastUpdateWins(text: string, first: string, second: string)
    requires Accepted(first)
    ensures Updated(Updated(text, first), second) == Updated(text, second)
    ensures Updated(Updated(text, first), first) == Updated(text, first)
  {
    StrippedOfUpdated(text, first);
  }

  // ---------------------------------------------------------------- what the block holds

  function Occurrences(lines: seq<string>, line: string): nat {
    if lines == [] then 0 else (if lines[0] == line then 1 else 0) + Occurrences(lines[1..], line)
  }

  lemma {:induction false} OccurrencesConcat(a: seq<string>, b: seq<string>, line: string)
    ensures Occurrences(a + b, line) == Occurrences(a, line) + Occurrences(b, line)
  {
    if a == [] {
      assert a + b == b;
    } else {
      assert (a + b)[1..] == a[1..] + b;
      OccurrencesConcat(a[1..], b, line);
    }
  }

  lemma {:induction false} NoOccurrence(lines: seq<string>, line: string)
    requires MarkerFree(lines) && IsMarker(line)
    ensures Occurrences(lines, line) == 0
  {
    if lines != [] { NoOccurrence(lines[1..], line); }
  }

  /** An updated file has exactly one line equal to each marker. */
  lemma OneBlock(text: string, kernel: string, line: string)
    requires Accepted(kernel) && IsMarker(line)
    ensures Occurrences(Lines(Updated(text, kernel)), line) == 1
  {
    var kept, parts := Outside(Lines(text), false), Split(kernel, '\n');
    MarkersAreLines();
    UpdatedLines(text, kernel);
    OutsideIsFree(Lines(text), false);
    KernelLinesAreFree(kernel);
    NoOccurrence(kept, line);
    NoOccurrence(parts, line);
    OccurrencesConcat(kept, Block(kernel), line);
    OccurrencesConcat([BEGIN] + parts, [END], line);
    OccurrencesConcat([BEGIN], parts, line);
    assert [BEGIN][1..] == [] && [END][1..] == [];
  }

  lemma {:induction false} SomeOccurrence(lines: seq<string>, line: string)
    requires line in lines
    ensures Occurrences(lines, line) >= 1
  {
    if lines[0] != line {
      assert lines == [lines[0]] + lines[1..];
      SomeOccurrence(lines[1..], line);
    }
  }

  /** Refusing is exact: an update leaves one line equal to each marker if and only if the kernel is one
      the script accepts. */
  lemma AcceptedExactly(text: string, kernel: string)
    ensures Accepted(kernel) <==> forall line :: IsMarker(line) ==> Occurrences(Lines(Updated(text, kernel)), line) == 1
  {
    if Accepted(kernel) {
      forall line | IsMarker(line) ensures Occurrences(Lines(Updated(text, kernel)), line) == 1 { OneBlock(text, kernel, line); }
    } else {
      var line :| line in Lines(kernel) && IsMarker(line);
      var kept, parts := Outside(Lines(text), false), Split(kernel, '\n');
      UpdatedLines(text, kernel);
      SomeOccurrence(parts, line);
      OccurrencesConcat(kept, Block(kernel), line);
      OccurrencesConcat([BEGIN] + parts, [END], line);
      OccurrencesConcat([BEGIN], parts, line);
      SomeOccurrence(if line == BEGIN then [BEGIN] else [END], line);
    }
  }

  /** The lines from `lines[0]` up to the next end marker. */
  function UpToEnd(lines: seq<string>): seq<string> {
    if lines == [] || lines[0] == END then [] else [lines[0]] + UpToEnd(lines[1..])
  }

  /** The bytes between the first begin marker's line and the line break before the next end marker. */
  function BlockBody(lines: seq<string>): string {
    if lines == [] then ""
    else if lines[0] == BEGIN then Join(UpToEnd(lines[1..]), '\n')
    else BlockBody(lines[1..])
  }

  lemma {:induction false} UpToEndOfFree(lines: seq<string>)
    requires MarkerFree(lines)
    ensures UpToEnd(lines + [END]) == lines
  {
    if lines != [] {
      assert (lines + [END])[0] == lines[0] && (lines + [END])[1..] == lines[1..] + [END];
      UpToEndOfFree(lines[1..]);
    }
  }

  lemma {:induction false} BlockBodyAfterFree(kept: seq<string>, rest: seq<string>)
    requires MarkerFree(kept)
    ensures BlockBody(kept + rest) == BlockBody(rest)
  {
    if kept == [] {
      assert kept + rest == rest;
    } else {
      assert (kept + rest)[0] == kept[0] && (kept + rest)[1..] == kept[1..] + rest;
      BlockBodyAfterFree(kept[1..], rest);
    }
  }

  /** The kernel's bytes are recoverable from the block exactly, final newline or not. */
  lemma KernelIsRecoverable(text: string, kernel: string)
    requires Accepted(kernel)
    ensures BlockBody(Lines(Updated(text, kernel))) == kernel
  {
    hide Lines, Updated, Outside, Join, IsMarker;
    var kept, parts := Outside(Lines(text), false), Split(kernel, '\n');
    UpdatedLines(text, kernel);
    OutsideIsFree(Lines(text), false);
    BlockBodyAfterFree(kept, Block(kernel));
    assert Block(kernel)[0] == BEGIN && Block(kernel)[1..] == parts + [END];
    KernelLinesAreFree(kernel);
    UpToEndOfFree(parts);
    JoinOfSplit(kernel);
  }

  // ---------------------------------------------------------------- operator text

  /** The operator lines of a file survive an update, in order, as the lines before the block. */
  lemma OperatorLinesSurvive(text: string, kernel: string) returns (at: seq<nat>)
    ensures OperatorPositions(Lines(text), at)
    ensures var after := Lines(Updated(text, kernel));
      |at| <= |after| && (forall i :: 0 <= i < |at| ==> after[i] == Lines(text)[at[i]]) && after[|at|..] == Block(kernel)
  {
    at := OutsideKeepsOperatorLines(Lines(text));
    UpdatedLines(text, kernel);
  }

  /** What follows the last line in the file: nothing when the line is unterminated. */
  function LastEnd(text: string): string {
    if text == "" || text[|text| - 1] == '\n' then "\n" else ""
  }

  /** Line `i` with its own line end. */
  function LineBytes(lines: seq<string>, lastEnd: string, i: nat): string
    requires i < |lines|
  {
    lines[i] + if i == |lines| - 1 then lastEnd else "\n"
  }

  /** The chosen ones of the first `n` lines, with their line ends. */
  ghost function Chosen(lines: seq<string>, lastEnd: string, keep: set<nat>, n: nat): string
    requires n <= |lines|
  {
    if n == 0 then ""
    else Chosen(lines, lastEnd, keep, n - 1) + if n - 1 in keep then LineBytes(lines, lastEnd, n - 1) else ""
  }

  /** Line `i` lies between a begin marker and the end marker that closes it. */
  ghost predicate Enclosed(lines: seq<string>, i: nat) {
    exists b, e :: 0 <= b < i < e < |lines| && lines[b] == BEGIN && lines[e] == END && forall k :: b < k < e ==> lines[k] != END
  }

  /** Outside the markers: no marker itself and between no pair of them. */
  ghost predicate IsOutside(lines: seq<string>, i: nat) {
    i < |lines| && !IsMarker(lines[i]) && !Enclosed(lines, i)
  }

  /** Text after a begin marker that no end marker closes. */
  ghost predicate IsStranded(lines: seq<string>, i: nat) {
    i < |lines| && !IsMarker(lines[i]) && exists b :: 0 <= b < i && lines[b] == BEGIN && forall k :: b < k < |lines| ==> lines[k] != END
  }

  ghost function OutsideLines(lines: seq<string>): set<nat> {
    set i: nat | i < |lines| && IsOutside(lines, i)
  }

  ghost function PrintedLines(lines: seq<string>): set<nat> {
    set i: nat | i < |lines| && IsOperatorLine(lines, i)
  }

  function AllLines(n: nat): (r: set<nat>)
    ensures forall i: nat :: i in r <==> i < n
  {
    if n == 0 then {} else AllLines(n - 1) + {n - 1}
  }

  /** The bytes of the file outside the markers. */
  ghost function OutsideBytes(text: string): string {
    Chosen(Lines(text), LastEnd(text), OutsideLines(Lines(text)), |Lines(text)|)
  }

  lemma PrintedIsOutside(lines: seq<string>, i: nat)
    requires i < |lines| && IsOperatorLine(lines, i)
    ensures !Enclosed(lines, i) && !IsStranded(lines, i)
  {
    hide IsMarker;
    forall b | 0 <= b < i && lines[b] == BEGIN ensures exists k :: b < k < i && lines[k] == END {}
  }

  lemma StrandedIsOutside(lines: seq<string>, i: nat)
    requires i < |lines| && IsStranded(lines, i)
    ensures !Enclosed(lines, i)
  {
  }

  lemma RestIsEnclosed(lines: seq<string>, i: nat)
    requires i < |lines| && !IsMarker(lines[i]) && !IsOperatorLine(lines, i) && !IsStranded(lines, i)
    ensures Enclosed(lines, i)
  {
    var b :| 0 <= b < i && lines[b] == BEGIN && forall e :: b < e < i ==> lines[e] != END;
    var e := FirstEnd(lines, b, i);
    assert lines[b] == BEGIN && lines[e] == END && forall k :: b < k < e ==> lines[k] != END;
  }

  /** What lies outside the markers is what awk prints and what it strands. */
  lemma OutsideIsPrintedOrStranded(lines: seq<string>, i: nat)
    requires i < |lines|
    ensures IsOutside(lines, i) <==> IsOperatorLine(lines, i) || IsStranded(lines, i)
    ensures !(IsOperatorLine(lines, i) && IsStranded(lines, i))
  {
    if IsOperatorLine(lines, i) { PrintedIsOutside(lines, i); }
    else if IsStranded(lines, i) { StrandedIsOutside(lines, i); }
    else if !IsMarker(lines[i]) { RestIsEnclosed(lines, i); }
  }

  lemma FirstEnd(lines: seq<string>, b: nat, i: nat) returns (e: nat)
    requires b < i < |lines| && lines[i] != END && lines[b] == BEGIN && !IsMarker(lines[i])
    requires (forall k :: b < k < i ==> lines[k] != END) && !IsStranded(lines, i)
    ensures i < e < |lines| && lines[e] == END && forall k :: b < k < e ==> lines[k] != END
  {
    e := i + 1;
    assert exists k :: b < k < |lines| && lines[k] == END;
    while lines[e] != END
      invariant i < e < |lines| && (forall k :: b < k < e ==> lines[k] != END)
      invariant exists k :: e <= k < |lines| && lines[k] == END
      decreases |lines| - e
    {
      e := e + 1;
    }
  }

  // ---------------------------------------------------------------- chosen lines

  lemma {:induction false} ChosenAll(lines: seq<string>, n: nat)
    requires n <= |lines|
    ensures Chosen(lines, "\n", AllLines(|lines|), n) == Unlines(lines[..n])
  {
    if n > 0 {
      ChosenAll(lines, n - 1);
      assert lines[..n] == lines[..n - 1] + [lines[n - 1]];
      UnlinesSnoc(lines[..n - 1], lines[n - 1]);
      assert Unlines(lines[..n - 1]) + (lines[n - 1] + "\n") == Unlines(lines[..n - 1]) + lines[n - 1] + "\n";
    }
  }

  lemma {:induction false} ChosenBefore(lines: seq<string>, lastEnd: string, keep: set<nat>, n: nat)
    requires n < |lines|
    ensures Chosen(lines, lastEnd, keep, n) == Chosen(lines, "\n", keep, n)
  {
    if n > 0 { ChosenBefore(lines, lastEnd, keep, n - 1); }
  }

  /** Leaving the last line unterminated costs one newline when that line is chosen. */
  lemma ChosenUnterminated(lines: seq<string>, keep: set<nat>)
    ensures Chosen(lines, "", keep, |lines|) + (if lines != [] && |lines| - 1 in keep then "\n" else "") ==
            Chosen(lines, "\n", keep, |lines|)
  {
    if lines != [] {
      var n := |lines| - 1;
      ChosenBefore(lines, "", keep, n);
      var init := Chosen(lines, "\n", keep, n);
      assert init + (lines[n] + "") + "\n" == init + (lines[n] + "\n");
    }
  }

  /** Choosing more lines gives more bytes, no line being empty to its end. */
  lemma {:induction false} ChosenMore(lines: seq<string>, lastEnd: string, keep: set<nat>, more: set<nat>, n: nat)
    requires n <= |lines| && keep <= more
    requires forall i :: 0 <= i < |lines| ==> LineBytes(lines, lastEnd, i) != ""
    ensures |Chosen(lines, lastEnd, keep, n)| <= |Chosen(lines, lastEnd, more, n)|
    ensures (exists i :: i in more && i !in keep && i < n) ==> |Chosen(lines, lastEnd, keep, n)| < |Chosen(lines, lastEnd, more, n)|
  {
    if n > 0 { ChosenMore(lines, lastEnd, keep, more, n - 1); }
  }

  /** awk prints the operator lines, each newline-terminated. */
  lemma {:induction false} PrintedIsChosen(lines: seq<string>, n: nat)
    requires n <= |lines|
    ensures Unlines(Outside(lines[..n], false)) == Chosen(lines, "\n", PrintedLines(lines), n)
  {
    hide IsMarker, InsideAfter, IsOperatorLine, Outside;
    if n > 0 {
      var init := lines[..n - 1];
      assert lines[..n] == init + [lines[n - 1]];
      PrintedIsChosen(lines, n - 1);
      OutsideSnoc(init, lines[n - 1], false);
      LastOperatorLine(lines[..n]);
      assert lines[..n][..n - 1] == init;
      SameOperatorLine(lines, n, n - 1);
      assert n - 1 in PrintedLines(lines) <==> IsOperatorLine(lines[..n], n - 1);
      UnlinesSnoc(Outside(init, false), lines[n - 1]);
      assert Outside(init, false) + [] == Outside(init, false);
      var before := Unlines(Outside(init, false));
      assert before + (lines[n - 1] + "\n") == before + lines[n - 1] + "\n";
      assert before + "" == before;
    } else {
      NothingPrinted(lines[..0]);
    }
  }

  lemma NothingPrinted(lines: seq<string>)
    requires lines == []
    ensures Unlines(Outside(lines, false)) == ""
  {
  }

  lemma {:induction false} LastPart(text: string)
    ensures var parts := Split(text, '\n');
      parts[|parts| - 1] == "" <==> text == "" || text[|text| - 1] == '\n'
  {
    if text != "" { LastPart(text[1..]); }
  }

  /** All lines with their line ends are the file. */
  lemma BytesAreText(text: string)
    ensures Chosen(Lines(text), LastEnd(text), AllLines(|Lines(text)|), |Lines(text)|) == text
  {
    hide Chosen;
    var parts, lines := Split(text, '\n'), Lines(text);
    LastPart(text);
    UnlinesOfSplit(text);
    ChosenAll(lines, |lines|);
    assert lines[..|lines|] == lines;
    if LastEnd(text) == "\n" {
      assert parts == lines + [""];
      UnlinesSnoc(lines, "");
      assert Unlines(lines) + "" == Unlines(lines);
      SameBeforeNewline(Unlines(lines), text);
    } else {
      ChosenUnterminated(lines, AllLines(|lines|));
      SameBeforeNewline(Chosen(lines, "", AllLines(|lines|), |lines|), text);
    }
  }

  lemma SameBeforeNewline(a: string, b: string)
    requires a + "\n" == b + "\n"
    ensures a == b
  {
    assert a == (a + "\n")[..|a|] && b == (b + "\n")[..|b|];
  }

  lemma NoEmptyBytes(text: string, i: nat)
    requires i < |Lines(text)|
    ensures LineBytes(Lines(text), LastEnd(text), i) != ""
  {
    LastPart(text);
  }

  /** The file's last line is outside the markers and has no newline. */
  ghost predicate EndsShort(text: string) {
    text != "" && text[|text| - 1] != '\n' && IsOutside(Lines(text), |Lines(text)| - 1)
  }

  ghost predicate Strands(text: string) {
    exists i: nat :: i < |Lines(text)| && IsStranded(Lines(text), i)
  }

  lemma ShortLastLine(text: string)
    ensures LastEnd(text) == "" ==> Lines(text) != []
    ensures EndsShort(text) ==> LastEnd(text) == ""
  {
    LastPart(text);
  }

  /** A stranded line strands every later line that is no marker. */
  lemma StrandsToTheEnd(lines: seq<string>, i: nat)
    requires i < |lines| && IsStranded(lines, i)
    ensures !IsOperatorLine(lines, |lines| - 1)
  {
    var b :| 0 <= b < i && lines[b] == BEGIN && forall k :: b < k < |lines| ==> lines[k] != END;
  }

  /** The script's promise, exactly. The bytes outside the markers are kept if and only if no text follows
      a begin marker that is never closed and the file does not end in an unterminated line outside the
      markers. Stranded text is lost; an unterminated last line is given its newline. */
  lemma OperatorBytesKept(text: string)
    ensures Stripped(text) == OutsideBytes(text) <==> !Strands(text) && !EndsShort(text)
    ensures Strands(text) ==> |Stripped(text)| < |OutsideBytes(text)|
    ensures !Strands(text) && EndsShort(text) ==> Stripped(text) == OutsideBytes(text) + "\n"
  {
    hide Chosen, IsOperatorLine, IsStranded, Outside;
    var lines, lastEnd := Lines(text), LastEnd(text);
    var printed, outside := PrintedLines(lines), OutsideLines(lines);
    PrintedIsChosen(lines, |lines|);
    assert lines[..|lines|] == lines;
    ShortLastLine(text);
    ChosenUnterminated(lines, printed);
    forall i: nat | i < |lines|
      ensures i in outside <==> i in printed || IsStranded(lines, i)
      ensures !(i in printed && IsStranded(lines, i)) && LineBytes(lines, lastEnd, i) != ""
    {
      OutsideIsPrintedOrStranded(lines, i);
      NoEmptyBytes(text, i);
    }
    ChosenMore(lines, lastEnd, printed, outside, |lines|);
    if Strands(text) {
      var i: nat :| i < |lines| && IsStranded(lines, i);
      StrandsToTheEnd(lines, i);
      assert i in outside && i !in printed;
      assert Stripped(text) == Chosen(lines, lastEnd, printed, |lines|) + "";
    } else {
      assert printed == outside;
    }
  }

  /** A file without markers is outside text from end to end. */
  lemma UnmanagedBytes(text: string)
    requires MarkerFree(Lines(text))
    ensures OutsideBytes(text) == text && !Strands(text)
  {
    hide Chosen;
    var lines := Lines(text);
    assert OutsideLines(lines) == AllLines(|lines|);
    BytesAreText(text);
  }

  /** The script's own promise, "leaves everything outside the markers untouched", fails here. */
  lemma UnterminatedLineIsTouched()
    ensures OutsideBytes("a") == "a" && Stripped("a") == "a\n"
  {
    SplitOfWord("a", '\n');
    assert Lines("a") == ["a"];
    MarkersAreLines();
    assert |"a"| != |BEGIN| && |"a"| != |END|;
    UnmanagedBytes("a");
    OperatorBytesKept("a");
  }

  /** And here: once the end marker is lost, whatever follows the begin marker is deleted. */
  lemma StrandedTextIsLost(mine: string)
    requires '\n' !in mine && !IsMarker(mine)
    ensures var text := BEGIN + "\n" + mine + "\n"; OutsideBytes(text) == mine + "\n" && Stripped(text) == ""
  {
    var text, lines := BEGIN + "\n" + mine + "\n", [BEGIN, mine];
    MarkersAreLines();
    assert lines[1..] == [mine] && [mine][1..] == [];
    assert Unlines([mine]) == mine + "\n" + "" == mine + "\n";
    assert Unlines(lines) == BEGIN + "\n" + (mine + "\n") == text;
    LinesOfUnlines(lines);
    assert Lines(text) == lines && LastEnd(text) == "\n";
    assert Outside([mine], true) == [] + Outside([], true);
    assert Outside(lines, false) == [];
    assert IsMarker(lines[0]) && IsOutside(lines, 1);
    var keep := OutsideLines(lines);
    assert 0 !in keep && 1 in keep;
    assert Chosen(lines, "\n", keep, 0) == "" && Chosen(lines, "\n", keep, 1) == "";
  }

  // ---------------------------------------------------------------- the script

  /** `$TARGET`, which may not exist yet. */
  class AgentsFile {
    var text: Option<string>

    constructor (text: Option<string>)
      ensures this.text == text
    {
      this.text := text;
    }

    /** One run of the script: a kernel holding a marker line is refused before the file is touched;
        any other replaces the managed block. */
    method Update(kernel: string) returns (ok: bool)
      modifies this
      ensures ok <==> Accepted(kernel)
      ensures !ok ==> text == old(text)
      ensures ok ==> text == Some(Updated(if old(text).Some? then old(text).value else "", kernel))
    {
      var refused := false;
      var lines := Lines(kernel);
      for i := 0 to |lines|
        invariant refused <==> exists k :: 0 <= k < i && IsMarker(lines[k])
      {
        if lines[i] == BEGIN || lines[i] == END { refused := true; }
      }
      if refused { return false; }
      if text.None? { text := Some(""); }
      var kept := StripBlocks(text.value);
      var out := kept;
      out := out + (BEGIN + "\n" + kernel + "\n" + END + "\n");
      text := Some(out);
      ok := true;
    }
  }
}