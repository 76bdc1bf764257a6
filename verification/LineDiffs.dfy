/** The curation UI's line diff: a longest-common-subsequence table in one flat array, then a greedy
    traceback. Lines are JavaScript strings, that is sequences of UTF-16 code units. */
module LineDiffs {
  import opened Text

  type CodeUnit = u: int | 0 <= u < 0x10000

  type Line = seq<CodeUnit>

  const MAX_LINES := 8000
  const MAX_BYTES := 512 * 1024
  const MAX_PRODUCT := 4_000_000

  const NEWLINE: CodeUnit := 0x0A

  // ---------------------------------------------------------------- sizes

  predicate High(u: CodeUnit) { 0xD800 <= u < 0xDC00 }

  predicate Low(u: CodeUnit) { 0xDC00 <= u < 0xE000 }

  /** `TextEncoder().encode(s).length`: a surrogate pair takes four bytes, a lone surrogate three. */
  function Utf8Length(s: Line): nat {
    if s == [] then 0
    else if |s| > 1 && High(s[0]) && Low(s[1]) then 4 + Utf8Length(s[2..])
    else (if s[0] < 0x80 then 1 else if s[0] < 0x800 then 2 else 3) + Utf8Length(s[1..])
  }

  lemma {:induction false} Utf8AcrossNewline(a: Line, b: Line)
    ensures Utf8Length(a + [NEWLINE] + b) == Utf8Length(a) + 1 + Utf8Length(b)
  {
    var s := a + [NEWLINE] + b;
    if a == [] {
      assert s[0] == NEWLINE && s[1..] == b;
    } else if |a| > 1 && High(a[0]) && Low(a[1]) {
      Utf8AcrossNewline(a[2..], b);
      assert s[2..] == a[2..] + [NEWLINE] + b;
    } else {
      Utf8AcrossNewline(a[1..], b);
      assert s[0] == a[0] && s[1..] == a[1..] + [NEWLINE] + b;
      assert s[1] == if |a| > 1 then a[1] else NEWLINE;
    }
  }

  /** `bodyByteLen`: the UTF-8 length of the lines joined by newlines. */
  method BodyByteLen(lines: seq<Line>) returns (total: nat)
    ensures total == Utf8Length(Join(lines, NEWLINE))
  {
    if |lines| == 0 { return 0; }
    total := 0;
    for i := 0 to |lines|
      invariant i < |lines| ==> total + Utf8Length(Join(lines[i..], NEWLINE)) == Utf8Length(Join(lines, NEWLINE))
      invariant i == |lines| ==> total == Utf8Length(Join(lines, NEWLINE))
    {
      assert lines[0..] == lines;
      var rest := lines[i..];
      assert rest[1..] == lines[i + 1..];
      if i < |lines| - 1 { Utf8AcrossNewline(lines[i], Join(rest[1..], NEWLINE)); }
      total := total + Utf8Length(lines[i]);
      if i < |lines| - 1 { total := total + 1; }
    }
  }

  // ---------------------------------------------------------------- longest common subsequences

  function Max(x: nat, y: nat): nat { if x > y then x else y }

  function Lcs<T(==)>(a: seq<T>, b: seq<T>): nat
    decreases |a| + |b|
  {
    if a == [] || b == [] then 0
    else if a[|a| - 1] == b[|b| - 1] then Lcs(a[..|a| - 1], b[..|b| - 1]) + 1
    else Max(Lcs(a[..|a| - 1], b), Lcs(a, b[..|b| - 1]))
  }

  /** One more line on either side adds at most one match and loses none. */
  lemma {:induction false} LcsGrowsByAtMostOne<T>(a: seq<T>, b: seq<T>)
    ensures a != [] ==> Lcs(a[..|a| - 1], b) <= Lcs(a, b) <= Lcs(a[..|a| - 1], b) + 1
    ensures b != [] ==> Lcs(a, b[..|b| - 1]) <= Lcs(a, b) <= Lcs(a, b[..|b| - 1]) + 1
    decreases |a| + |b|
  {
    if a != [] && b != [] {
      LcsGrowsByAtMostOne(a[..|a| - 1], b);
      LcsGrowsByAtMostOne(a, b[..|b| - 1]);
    }
  }

  /** `s` can be read in `a` at these increasing positions. */
  ghost predicate ReadAt<T>(s: seq<T>, a: seq<T>, at: seq<nat>) {
    && |at| == |s|
    && (forall i :: 0 <= i < |s| ==> at[i] < |a| && a[at[i]] == s[i])
    && (forall i, j :: 0 <= i < j < |at| ==> at[i] < at[j])
  }

  /** No common subsequence is longer than `Lcs`. */
  lemma {:induction false} LcsIsUpperBound<T>(a: seq<T>, b: seq<T>, s: seq<T>, f: seq<nat>, g: seq<nat>)
    requires ReadAt(s, a, f) && ReadAt(s, b, g)
    ensures |s| <= Lcs(a, b)
    decreases |a| + |b|
  {
    if s != [] {
      var n := |s| - 1;
      assert f[n] < |a| && g[n] < |b|;
      if f[n] < |a| - 1 {
        LcsIsUpperBound(a[..|a| - 1], b, s, f, g);
        LcsGrowsByAtMostOne(a, b);
      } else if g[n] < |b| - 1 {
        LcsIsUpperBound(a, b[..|b| - 1], s, f, g);
        LcsGrowsByAtMostOne(a, b);
      } else {
        LcsIsUpperBound(a[..|a| - 1], b[..|b| - 1], s[..n], f[..n], g[..n]);
      }
    }
  }

  // ---------------------------------------------------------------- edit scripts

  datatype Tag = Eq | Add | Del

  datatype Row = Row(tag: Tag, text: Line)

  datatype Diff = TooLarge | Rows(rows: seq<Row>)

  /** The texts of the rows that are not tagged `without`. */
  function Texts(rows: seq<Row>, without: Tag): seq<Line> {
    if rows == [] then []
    else (if rows[0].tag == without then [] else [rows[0].text]) + Texts(rows[1..], without)
  }

  /** What the script turns into what, and what it keeps. */
  function Old(rows: seq<Row>): seq<Line> { Texts(rows, Add) }

  function New(rows: seq<Row>): seq<Line> { Texts(rows, Del) }

  function Kept(rows: seq<Row>): seq<Line> {
    if rows == [] then [] else (if rows[0].tag == Eq then [rows[0].text] else []) + Kept(rows[1..])
  }

  lemma {:induction false} RowsAddUp(rows: seq<Row>)
    ensures |rows| + |Kept(rows)| == |Old(rows)| + |New(rows)|
  {
    if rows != [] { RowsAddUp(rows[1..]); }
  }

  function Shifted(at: seq<nat>, offset: nat): (r: seq<nat>)
    ensures |r| == |at| && forall i :: 0 <= i < |at| ==> r[i] == at[i] + offset
  {
    seq(|at|, i requires 0 <= i < |at| => at[i] + offset)
  }

  lemma ReadBehind<T>(x: T, s: seq<T>, a: seq<T>, at: seq<nat>)
    requires ReadAt(s, a, at)
    ensures ReadAt(s, [x] + a, Shifted(at, 1)) && ReadAt([x] + s, [x] + a, [0] + Shifted(at, 1))
  {
  }

  /** The kept lines of a script are a common subsequence of what it relates. */
  lemma {:induction false} KeptIsCommon(rows: seq<Row>) returns (f: seq<nat>, g: seq<nat>)
    ensures ReadAt(Kept(rows), Old(rows), f) && ReadAt(Kept(rows), New(rows), g)
  {
    hide ReadAt;
    if rows == [] {
      f, g := [], [];
      NothingReadAt(New(rows));
      NothingReadAt(Old(rows));
    } else {
      var rest, x := rows[1..], rows[0].text;
      f, g := KeptIsCommon(rest);
      ReadBehind(x, Kept(rest), Old(rest), f);
      ReadBehind(x, Kept(rest), New(rest), g);
      match rows[0].tag
      case Eq => f, g := [0] + Shifted(f, 1), [0] + Shifted(g, 1);
      case Add => g := Shifted(g, 1); assert Old(rows) == Old(rest) && Kept(rows) == Kept(rest);
      case Del => f := Shifted(f, 1); assert New(rows) == New(rest) && Kept(rows) == Kept(rest);
    }
  }

  lemma NothingReadAt<T>(a: seq<T>)
    ensures ReadAt([], a, [])
  {
  }

  /** A replaced stretch lists its deletions before its additions. */
  predicate DeletionsFirst(rows: seq<Row>) {
    forall k :: 0 <= k < |rows| - 1 ==> !(rows[k].tag == Add && rows[k + 1].tag == Del)
  }

  /** What a diff of `a` and `b` promises. */
  ghost predicate IsDiff(rows: seq<Row>, a: seq<Line>, b: seq<Line>) {
    Old(rows) == a && New(rows) == b && |Kept(rows)| == Lcs(a, b) && DeletionsFirst(rows)
  }

  /** Such a diff keeps a longest common subsequence, and no other script between the same texts
      has fewer additions and deletions. */
  lemma DiffIsOptimal(rows: seq<Row>, a: seq<Line>, b: seq<Line>, other: seq<Row>, s: seq<Line>, f: seq<nat>, g: seq<nat>)
    requires IsDiff(rows, a, b)
    ensures ReadAt(s, a, f) && ReadAt(s, b, g) ==> |s| <= |Kept(rows)|
    ensures Old(other) == a && New(other) == b ==> |rows| - |Kept(rows)| <= |other| - |Kept(other)|
  {
    if ReadAt(s, a, f) && ReadAt(s, b, g) { LcsIsUpperBound(a, b, s, f, g); }
    if Old(other) == a && New(other) == b {
      var f', g' := KeptIsCommon(other);
      LcsIsUpperBound(a, b, Kept(other), f', g');
      RowsAddUp(rows);
      RowsAddUp(other);
    }
  }

  // ---------------------------------------------------------------- the flat table

  /** Cell (i, j) of a table with rows of m + 1 cells. */
  function Cell(m: nat, i: nat, j: nat): nat {
    i * (m + 1) + j
  }

  lemma CellInRange(n: nat, m: nat, i: nat, j: nat)
    requires i <= n && j <= m
    ensures Cell(m, i, j) < (n + 1) * (m + 1)
  {
    assert i * (m + 1) <= n * (m + 1);
  }

  lemma CellInjective(m: nat, i: nat, j: nat, i': nat, j': nat)
    requires j <= m && j' <= m && Cell(m, i, j) == Cell(m, i', j')
    ensures i == i' && j == j'
  {
    if i < i' { LaterRow(m, i, j, i', j'); }
    if i' < i { LaterRow(m, i', j', i, j); }
  }

  lemma LaterRow(m: nat, i: nat, j: nat, i': nat, j': nat)
    requires j <= m && i < i'
    ensures Cell(m, i, j) < Cell(m, i', j')
  {
    assert (i + 1) * (m + 1) <= i' * (m + 1);
  }

  /** Cells are right for the first `i` rows, and for the first `j` columns of row `i`. */
  ghost predicate Filled(dp: seq<nat>, a: seq<Line>, b: seq<Line>, i: nat, j: nat) {
    && |dp| == (|a| + 1) * (|b| + 1)
    && forall p: nat, q: nat :: p <= |a| && q <= |b| && (p < i || (p == i && q < j) || p == 0 || q == 0) ==> CellOk(dp, a, b, p, q)
  }

  ghost predicate CellOk(dp: seq<nat>, a: seq<Line>, b: seq<Line>, p: nat, q: nat)
    requires p <= |a| && q <= |b|
  {
    Cell(|b|, p, q) < |dp| && dp[Cell(|b|, p, q)] == Lcs(a[..p], b[..q])
  }

  function CellValue(dp: seq<nat>, a: seq<Line>, b: seq<Line>, i: nat, j: nat): nat
    requires 1 <= i <= |a| && 1 <= j <= |b| && |dp| == (|a| + 1) * (|b| + 1)
  {
    CellInRange(|a|, |b|, i - 1, j - 1);
    CellInRange(|a|, |b|, i - 1, j);
    CellInRange(|a|, |b|, i, j - 1);
    if a[i - 1] == b[j - 1] then dp[Cell(|b|, i - 1, j - 1)] + 1
    else Max(dp[Cell(|b|, i - 1, j)], dp[Cell(|b|, i, j - 1)])
  }

  lemma CellValueIsLcs(dp: seq<nat>, a: seq<Line>, b: seq<Line>, i: nat, j: nat)
    requires 1 <= i <= |a| && 1 <= j <= |b| && Filled(dp, a, b, i, j)
    ensures CellValue(dp, a, b, i, j) == Lcs(a[..i], b[..j])
  {
    assert CellOk(dp, a, b, i - 1, j - 1) && CellOk(dp, a, b, i - 1, j) && CellOk(dp, a, b, i, j - 1);
    assert a[..i][..i - 1] == a[..i - 1] && b[..j][..j - 1] == b[..j - 1];
  }

  lemma WriteKeepsFilled(dp: seq<nat>, a: seq<Line>, b: seq<Line>, i: nat, j: nat, v: nat)
    requires 1 <= i <= |a| && 1 <= j <= |b| && Filled(dp, a, b, i, j) && v == Lcs(a[..i], b[..j])
    requires Cell(|b|, i, j) < |dp|
    ensures Filled(dp[Cell(|b|, i, j) := v], a, b, i, j + 1)
  {
    var after := dp[Cell(|b|, i, j) := v];
    forall p: nat, q: nat | p <= |a| && q <= |b| && (p < i || (p == i && q < j + 1) || p == 0 || q == 0)
      ensures CellOk(after, a, b, p, q)
    {
      if (p, q) != (i, j) {
        assert CellOk(dp, a, b, p, q);
        if Cell(|b|, p, q) == Cell(|b|, i, j) { CellInjective(|b|, p, q, i, j); }
      }
    }
  }

  lemma NextRow(dp: seq<nat>, a: seq<Line>, b: seq<Line>, i: nat)
    requires Filled(dp, a, b, i, |b| + 1)
    ensures Filled(dp, a, b, i + 1, 1)
  {
    hide CellOk;
  }

  lemma FreshTableFilled(dp: seq<nat>, a: seq<Line>, b: seq<Line>)
    requires |dp| == (|a| + 1) * (|b| + 1) && forall k :: 0 <= k < |dp| ==> dp[k] == 0
    ensures Filled(dp, a, b, 1, 1)
  {
    forall p: nat, q: nat | p <= |a| && q <= |b| && (p < 1 || (p == 1 && q < 1) || p == 0 || q == 0)
      ensures CellOk(dp, a, b, p, q)
    {
      CellInRange(|a|, |b|, p, q);
    }
  }

  /** The dynamic program: on return, cell (i, j) holds the LCS length of the first i and j lines. */
  method FillTable(a: seq<Line>, b: seq<Line>) returns (dp: array<nat>)
    ensures fresh(dp)
    ensures Filled(dp[..], a, b, |a| + 1, 1)
  {
    hide Filled, Lcs, Utf8Length, Cell;
    var n, m := |a|, |b|;
    dp := new nat[(n + 1) * (m + 1)](_ => 0);
    FreshTableFilled(dp[..], a, b);
    for i := 1 to n + 1
      invariant dp.Length == (n + 1) * (m + 1)
      invariant Filled(dp[..], a, b, i, 1)
    {
      for j := 1 to m + 1
        invariant dp.Length == (n + 1) * (m + 1)
        invariant Filled(dp[..], a, b, i, j)
      {
        CellInRange(n, m, i, j);
        CellInRange(n, m, i - 1, j - 1);
        CellInRange(n, m, i - 1, j);
        CellInRange(n, m, i, j - 1);
        CellValueIsLcs(dp[..], a, b, i, j);
        WriteKeepsFilled(dp[..], a, b, i, j, Lcs(a[..i], b[..j]));
        ghost var before := dp[..];
        if a[i - 1] == b[j - 1] {
          dp[Cell(m, i, j)] := dp[Cell(m, i - 1, j - 1)] + 1;
        } else {
          dp[Cell(m, i, j)] := Max(dp[Cell(m, i - 1, j)], dp[Cell(m, i, j - 1)]);
        }
        assert dp[..] == before[Cell(m, i, j) := Lcs(a[..i], b[..j])];
      }
      NextRow(dp[..], a, b, i);
    }
  }

  // ---------------------------------------------------------------- the traceback

  function Reverse(rows: seq<Row>): seq<Row> {
    if rows == [] then [] else [rows[|rows| - 1]] + Reverse(rows[..|rows| - 1])
  }

  lemma ReversePush(rows: seq<Row>, r: Row)
    ensures Reverse(rows + [r]) == [r] + Reverse(rows)
  {
    assert (rows + [r])[..|rows|] == rows;
  }

  lemma PushOnFront(r: Row, rows: seq<Row>)
    ensures Old([r] + rows) == (if r.tag == Add then [] else [r.text]) + Old(rows)
    ensures New([r] + rows) == (if r.tag == Del then [] else [r.text]) + New(rows)
    ensures Kept([r] + rows) == (if r.tag == Eq then [r.text] else []) + Kept(rows)
  {
    assert ([r] + rows)[1..] == rows;
  }

  lemma {:induction false} ReverseAt(rows: seq<Row>, k: nat)
    requires k < |rows|
    ensures |Reverse(rows)| == |rows| && Reverse(rows)[k] == rows[|rows| - 1 - k]
  {
    if |rows| > 1 { ReverseAt(rows[..|rows| - 1], if k > 0 then k - 1 else 0); }
  }

  /** The rows pushed so far, newest first, turn the remaining lines of `a` into those of `b`. */
  ghost predicate Traced(pushed: seq<Row>, a: seq<Line>, b: seq<Line>, i: nat, j: nat)
    requires i <= |a| && j <= |b|
  {
    var rows := Reverse(pushed);
    Old(rows) == a[i..] && New(rows) == b[j..] && Lcs(a[..i], b[..j]) + |Kept(rows)| == Lcs(a, b)
  }

  /** Pushed order has no deletion right before an addition, and after a deletion the table says why
      no addition can come next. */
  ghost predicate Ordered(pushed: seq<Row>, a: seq<Line>, b: seq<Line>, i: nat, j: nat)
    requires i <= |a| && j <= |b|
  {
    && (forall k :: 0 <= k < |pushed| - 1 ==> !(pushed[k].tag == Del && pushed[k + 1].tag == Add))
    && (pushed != [] && pushed[|pushed| - 1].tag == Del ==>
          j == 0 || (i < |a| && Lcs(a[..i], b[..j]) > Lcs(a[..i + 1], b[..j - 1])))
  }

  lemma PushEq(pushed: seq<Row>, a: seq<Line>, b: seq<Line>, i: nat, j: nat)
    requires 0 < i <= |a| && 0 < j <= |b| && a[i - 1] == b[j - 1]
    requires Traced(pushed, a, b, i, j) && Ordered(pushed, a, b, i, j)
    ensures var next := pushed + [Row(Eq, a[i - 1])];
      Traced(next, a, b, i - 1, j - 1) && Ordered(next, a, b, i - 1, j - 1)
  {
    hide Utf8Length, Reverse;
    ReversePush(pushed, Row(Eq, a[i - 1]));
    PushOnFront(Row(Eq, a[i - 1]), Reverse(pushed));
    assert a[..i][..i - 1] == a[..i - 1] && b[..j][..j - 1] == b[..j - 1];
    assert [a[i - 1]] + a[i..] == a[i - 1..] && [b[j - 1]] + b[j..] == b[j - 1..];
  }

  lemma PushDel(pushed: seq<Row>, a: seq<Line>, b: seq<Line>, i: nat, j: nat)
    requires 0 < i <= |a| && j <= |b|
    requires j == 0 || (a[i - 1] != b[j - 1] && Lcs(a[..i - 1], b[..j]) > Lcs(a[..i], b[..j - 1]))
    requires Traced(pushed, a, b, i, j) && Ordered(pushed, a, b, i, j)
    ensures var next := pushed + [Row(Del, a[i - 1])];
      Traced(next, a, b, i - 1, j) && Ordered(next, a, b, i - 1, j)
  {
    hide Utf8Length, Reverse;
    ReversePush(pushed, Row(Del, a[i - 1]));
    PushOnFront(Row(Del, a[i - 1]), Reverse(pushed));
    assert a[..i][..i - 1] == a[..i - 1];
    assert j > 0 ==> b[..j][..j - 1] == b[..j - 1];
    assert [a[i - 1]] + a[i..] == a[i - 1..];
  }

  lemma PushAdd(pushed: seq<Row>, a: seq<Line>, b: seq<Line>, i: nat, j: nat)
    requires i <= |a| && 0 < j <= |b|
    requires i == 0 || (a[i - 1] != b[j - 1] && Lcs(a[..i - 1], b[..j]) <= Lcs(a[..i], b[..j - 1]))
    requires Traced(pushed, a, b, i, j) && Ordered(pushed, a, b, i, j)
    ensures var next := pushed + [Row(Add, b[j - 1])];
      Traced(next, a, b, i, j - 1) && Ordered(next, a, b, i, j - 1)
  {
    hide Lcs, Traced, Ordered, Utf8Length;
    AddKeepsLcs(a, b, i, j);
    TracedAdd(pushed, a, b, i, j);
    OrderedAdd(pushed, a, b, i, j);
  }

  lemma AddKeepsLcs(a: seq<Line>, b: seq<Line>, i: nat, j: nat)
    requires i <= |a| && 0 < j <= |b|
    requires i == 0 || (a[i - 1] != b[j - 1] && Lcs(a[..i - 1], b[..j]) <= Lcs(a[..i], b[..j - 1]))
    ensures Lcs(a[..i], b[..j]) == Lcs(a[..i], b[..j - 1])
  {
    if i > 0 { assert a[..i][..i - 1] == a[..i - 1]; }
    assert b[..j][..j - 1] == b[..j - 1];
  }

  lemma TracedAdd(pushed: seq<Row>, a: seq<Line>, b: seq<Line>, i: nat, j: nat)
    requires i <= |a| && 0 < j <= |b| && Lcs(a[..i], b[..j]) == Lcs(a[..i], b[..j - 1])
    requires Traced(pushed, a, b, i, j)
    ensures Traced(pushed + [Row(Add, b[j - 1])], a, b, i, j - 1)
  {
    hide Lcs, Reverse, Texts, Kept;
    ReversePush(pushed, Row(Add, b[j - 1]));
    PushOnFront(Row(Add, b[j - 1]), Reverse(pushed));
    assert [b[j - 1]] + b[j..] == b[j - 1..];
  }

  lemma OrderedAdd(pushed: seq<Row>, a: seq<Line>, b: seq<Line>, i: nat, j: nat)
    requires i <= |a| && 0 < j <= |b| && Lcs(a[..i], b[..j]) == Lcs(a[..i], b[..j - 1])
    requires Ordered(pushed, a, b, i, j)
    ensures Ordered(pushed + [Row(Add, b[j - 1])], a, b, i, j - 1)
  {
    NoAddAfterDel(pushed, a, b, i, j);
    hide Lcs;
  }

  lemma NoAddAfterDel(pushed: seq<Row>, a: seq<Line>, b: seq<Line>, i: nat, j: nat)
    requires i <= |a| && 0 < j <= |b| && Ordered(pushed, a, b, i, j)
    requires Lcs(a[..i], b[..j]) == Lcs(a[..i], b[..j - 1])
    ensures pushed != [] ==> pushed[|pushed| - 1].tag != Del
  {
    hide Utf8Length;
    if i < |a| {
      LcsGrowsByAtMostOne(a[..i + 1], b[..j - 1]);
      assert a[..i + 1][..i] == a[..i];
    }
  }

  lemma TraceStarts(a: seq<Line>, b: seq<Line>)
    ensures Traced([], a, b, |a|, |b|) && Ordered([], a, b, |a|, |b|)
  {
    assert a[..|a|] == a && b[..|b|] == b;
  }

  lemma TraceEnds(pushed: seq<Row>, a: seq<Line>, b: seq<Line>)
    requires Traced(pushed, a, b, 0, 0) && Ordered(pushed, a, b, 0, 0)
    ensures IsDiff(Reverse(pushed), a, b)
  {
    ReverseOrder(pushed, a, b);
  }

  lemma TableSays(dp: seq<nat>, a: seq<Line>, b: seq<Line>, i: nat, j: nat)
    requires i <= |a| && j <= |b| && Filled(dp, a, b, |a| + 1, 1)
    ensures Cell(|b|, i, j) < |dp| && dp[Cell(|b|, i, j)] == Lcs(a[..i], b[..j])
  {
    assert CellOk(dp, a, b, i, j);
  }

  /** The greedy traceback over a filled table, with its three loops. */
  method Traceback(a: seq<Line>, b: seq<Line>, dp: array<nat>) returns (rows: seq<Row>)
    requires Filled(dp[..], a, b, |a| + 1, 1)
    ensures IsDiff(rows, a, b)
  {
    hide Cell, Utf8Length, CellOk, Texts, Kept, Max;
    var n, m := |a|, |b|;
    var pushed: seq<Row> := [];
    var i: nat, j: nat := n, m;
    hide Traced, Ordered, Filled, Lcs, IsDiff, Reverse;
    TraceStarts(a, b);
    while i > 0 && j > 0
      invariant 0 <= i <= n && 0 <= j <= m
      invariant Traced(pushed, a, b, i, j) && Ordered(pushed, a, b, i, j)
      decreases i + j
    {
      TableSays(dp[..], a, b, i - 1, j);
      TableSays(dp[..], a, b, i, j - 1);
      if a[i - 1] == b[j - 1] {
        PushEq(pushed, a, b, i, j);
        pushed := pushed + [Row(Eq, a[i - 1])];
        i, j := i - 1, j - 1;
      } else if dp[Cell(m, i - 1, j)] > dp[Cell(m, i, j - 1)] {
        PushDel(pushed, a, b, i, j);
        pushed := pushed + [Row(Del, a[i - 1])];
        i := i - 1;
      } else {
        PushAdd(pushed, a, b, i, j);
        pushed := pushed + [Row(Add, b[j - 1])];
        j := j - 1;
      }
    }
    while i > 0
      invariant 0 <= i <= n && 0 <= j <= m && (i == 0 || j == 0)
      invariant Traced(pushed, a, b, i, j) && Ordered(pushed, a, b, i, j)
    {
      PushDel(pushed, a, b, i, j);
      pushed := pushed + [Row(Del, a[i - 1])];
      i := i - 1;
    }
    while j > 0
      invariant i == 0 && 0 <= j <= m
      invariant Traced(pushed, a, b, i, j) && Ordered(pushed, a, b, i, j)
    {
      PushAdd(pushed, a, b, i, j);
      pushed := pushed + [Row(Add, b[j - 1])];
      j := j - 1;
    }
    rows := Reverse(pushed);
    TraceEnds(pushed, a, b);
  }

  lemma ReverseOrder(pushed: seq<Row>, a: seq<Line>, b: seq<Line>)
    requires Ordered(pushed, a, b, 0, 0)
    ensures DeletionsFirst(Reverse(pushed))
  {
    var rows := Reverse(pushed);
    if pushed != [] { ReverseAt(pushed, 0); }
    forall k | 0 <= k < |rows| - 1 ensures !(rows[k].tag == Add && rows[k + 1].tag == Del) {
      ReverseAt(pushed, k);
      ReverseAt(pushed, k + 1);
    }
  }

  /** `lineDiff`: refused exactly over budget; otherwise a script that spells `a` and `b`, keeps a
      longest common subsequence and lists deletions first. */
  method LineDiff(a: seq<Line>, b: seq<Line>) returns (d: Diff)
    ensures d.TooLarge? <==>
            || |a| > MAX_LINES || |b| > MAX_LINES
            || Utf8Length(Join(a, NEWLINE)) > MAX_BYTES || Utf8Length(Join(b, NEWLINE)) > MAX_BYTES
            || |a| * |b| > MAX_PRODUCT
    ensures d.Rows? ==> IsDiff(d.rows, a, b)
  {
    var sizeA := BodyByteLen(a);
    var sizeB := BodyByteLen(b);
    if |a| > MAX_LINES || |b| > MAX_LINES || sizeA > MAX_BYTES || sizeB > MAX_BYTES || |a| * |b| > MAX_PRODUCT {
      return TooLarge;
    }
    var dp := FillTable(a, b);
    var rows := Traceback(a, b, dp);
    d := Rows(rows);
  }
}
