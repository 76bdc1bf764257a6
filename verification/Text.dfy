/** Byte strings and the few string routines the Go, shell and JavaScript code leans on.

    A Go string is a byte string. It is modelled by a Dafny `string` with one character per byte;
    nothing below depends on the characters staying under 256 except where that is said. */
module Text {

  // ---------------------------------------------------------------- splitting and joining

  /** `strings.Split(s, sep)` / `s.split(sep)` for a one-element separator. */
  function Split<T(==)>(s: seq<T>, sep: T): (parts: seq<seq<T>>)
    ensures |parts| >= 1
  {
    if s == [] then [[]]
    else if s[0] == sep then [[]] + Split(s[1..], sep)
    else OntoFirst(s[0], Split(s[1..], sep))
  }

  function OntoFirst<T>(x: T, parts: seq<seq<T>>): seq<seq<T>>
    requires |parts| >= 1
  {
    [[x] + parts[0]] + parts[1..]
  }

  /** `strings.Join(parts, sep)`. */
  function Join<T>(parts: seq<seq<T>>, sep: T): seq<T> {
    if |parts| == 0 then []
    else if |parts| == 1 then parts[0]
    else parts[0] + [sep] + Join(parts[1..], sep)
  }

  lemma {:induction false} SplitOfWord<T>(s: seq<T>, sep: T)
    requires sep !in s
    ensures Split(s, sep) == [s]
  {
    if s != [] {
      SplitOfWord(s[1..], sep);
      assert [s[0]] + s[1..] == s;
    }
  }

  lemma {:induction false} SplitAtSep<T>(a: seq<T>, b: seq<T>, sep: T)
    ensures Split(a + [sep] + b, sep) == Split(a, sep) + Split(b, sep)
  {
    var whole := a + [sep] + b;
    if a == [] {
      assert whole[0] == sep && whole[1..] == b;
    } else {
      SplitAtSep(a[1..], b, sep);
      assert whole[0] == a[0] && whole[1..] == a[1..] + [sep] + b;
      OntoFirstOfConcat(a[0], Split(a[1..], sep), Split(b, sep));
    }
  }

  lemma OntoFirstOfConcat<T>(x: T, l: seq<seq<T>>, r: seq<seq<T>>)
    requires |l| >= 1
    ensures OntoFirst(x, l + r) == OntoFirst(x, l) + r
    ensures [[]] + (l + r) == [[]] + l + r
  {
    assert (l + r)[0] == l[0] && (l + r)[1..] == l[1..] + r;
  }

  /** Parts that hold no separator come back from split after join. */
  lemma {:induction false} SplitOfJoin<T>(parts: seq<seq<T>>, sep: T)
    requires |parts| >= 1
    requires forall p :: p in parts ==> sep !in p
    ensures Split(Join(parts, sep), sep) == parts
  {
    SplitOfWord(parts[0], sep);
    if |parts| > 1 {
      SplitOfJoin(parts[1..], sep);
      SplitAtSep(parts[0], Join(parts[1..], sep), sep);
      assert [parts[0]] + parts[1..] == parts;
    }
  }

  lemma {:induction false} PartsHoldNoSep<T>(s: seq<T>, sep: T)
    ensures forall p :: p in Split(s, sep) ==> sep !in p
  {
    if s != [] {
      PartsHoldNoSep(s[1..], sep);
      var rest := Split(s[1..], sep);
      if s[0] != sep {
        forall p | p in OntoFirst(s[0], rest)
          ensures sep !in p
        {
          if p == [s[0]] + rest[0] { assert rest[0] in rest; }
        }
      }
    }
  }

  // ---------------------------------------------------------------- white space

  /** Number of bytes in the white-space rune (`unicode.IsSpace`, UTF-8 encoded) at the front of
      `s`; 0 when the first rune is not white space. Lead bytes are never continuation bytes, so
      scanning byte by byte meets exactly the runes that decoding would. */
  function SpaceAt(s: string): (n: nat)
    ensures n <= |s|
  {
    if |s| == 0 then 0
    else if s[0] == ' ' || ('\t' <= s[0] <= '\r') then 1
    else if |s| >= 2 && s[0] == '\U{C2}' && (s[1] == '\U{85}' || s[1] == '\U{A0}') then 2
    else if |s| >= 3 &&
         ((s[0] == '\U{E1}' && s[1] == '\U{9A}' && s[2] == '\U{80}') ||
          (s[0] == '\U{E2}' && s[1] == '\U{80}' &&
           ('\U{80}' <= s[2] <= '\U{8A}' || s[2] in {'\U{A8}', '\U{A9}', '\U{AF}'})) ||
          (s[0] == '\U{E2}' && s[1] == '\U{81}' && s[2] == '\U{9F}') ||
          (s[0] == '\U{E3}' && s[1] == '\U{80}' && s[2] == '\U{80}')) then 3
    else 0
  }

  /** `strings.Fields`. */
  function Fields(s: string): seq<string> {
    FieldsFrom("", s)
  }

  function FieldsFrom(word: string, s: string): seq<string>
    decreases |s|
  {
    if s == "" then Flush(word)
    else if SpaceAt(s) > 0 then Flush(word) + FieldsFrom("", s[SpaceAt(s)..])
    else FieldsFrom(word + [s[0]], s[1..])
  }

  function Flush(word: string): seq<string> {
    if word == "" then [] else [word]
  }

  function TrimLeft(s: string): string
    decreases |s|
  {
    if SpaceAt(s) > 0 then TrimLeft(s[SpaceAt(s)..]) else s
  }

  /** Whether the text ends in this many bytes of one white-space rune. */
  predicate EndsInSpace(s: string, n: nat) {
    1 <= n <= |s| && SpaceAt(s[|s| - n..]) == n
  }

  /** The length of the white-space rune the text ends in; 0 when it ends in none. */
  function RightSpace(s: string): (n: nat)
    ensures n <= |s|
  {
    if EndsInSpace(s, 1) then 1 else if EndsInSpace(s, 2) then 2 else if EndsInSpace(s, 3) then 3 else 0
  }

  function TrimRight(s: string): string
    decreases |s|
  {
    if RightSpace(s) > 0 then TrimRight(s[..|s| - RightSpace(s)]) else s
  }

  /** `strings.TrimSpace`. */
  function TrimSpace(s: string): string {
    TrimRight(TrimLeft(s))
  }

  /** `unicode.IsSpace`, by code point. */
  predicate White(c: nat) {
    || 0x09 <= c <= 0x0D || c == 0x20 || c == 0x85 || c == 0xA0 || c == 0x1680 || 0x2000 <= c <= 0x200A
    || c == 0x2028 || c == 0x2029 || c == 0x202F || c == 0x205F || c == 0x3000
  }

  /** The UTF-8 bytes of a white-space code point. */
  function Rune(c: nat): (w: string)
    requires White(c)
    ensures 1 <= |w| <= 3
  {
    if c < 0x80 then [c as char]
    else if c < 0x800 then [(0xC0 + c / 0x40) as char, (0x80 + c % 0x40) as char]
    else [(0xE0 + c / 0x1000) as char, (0x80 + c / 0x40 % 0x40) as char, (0x80 + c % 0x40) as char]
  }

  predicate Continues(s: string) {
    s != "" && '\U{80}' <= s[0] <= '\U{BF}'
  }

  lemma SpaceAtRune(c: nat, rest: string)
    requires White(c)
    ensures SpaceAt(Rune(c) + rest) == |Rune(c)| && !Continues(Rune(c) + rest)
  {
  }

  /** `SpaceAt` finds the white-space code points in UTF-8, all of them and nothing else. */
  lemma SpaceAtDecodes(s: string)
    ensures SpaceAt(s) > 0 <==> exists c :: White(c) && Rune(c) <= s
    ensures forall c :: White(c) && Rune(c) <= s ==> SpaceAt(s) == |Rune(c)|
  {
    forall c | White(c) && Rune(c) <= s ensures SpaceAt(s) == |Rune(c)| {
      SpaceAtRune(c, s[|Rune(c)|..]);
      assert s == Rune(c) + s[|Rune(c)|..];
    }
    if SpaceAt(s) > 0 {
      var c := SpaceCode(s);
    }
  }

  lemma SpaceCode(s: string) returns (c: nat)
    requires SpaceAt(s) > 0
    ensures White(c) && Rune(c) <= s
  {
    c := if SpaceAt(s) == 1 then s[0] as int
         else if SpaceAt(s) == 2 then s[1] as int
         else if s[0] == '\U{E1}' then 0x1680
         else if s[0] == '\U{E3}' then 0x3000
         else if s[1] == '\U{81}' then 0x205F
         else 0x2000 + (s[2] as int - 0x80);
    assert Rune(c) == s[..|Rune(c)|];
  }

  /** A white-space rune is found or not by the text it begins, whatever rune follows that text. */
  lemma SpaceStays(a: string, t: string)
    requires a != "" && !Continues(t)
    ensures SpaceAt(a + t) == SpaceAt(a)
  {
    var s := a + t;
    assert |a| == 1 && t != "" ==> s[1] == t[0];
    assert |a| == 2 && t != "" ==> s[2] == t[0];
  }

  /** A white-space rune anywhere parts the fields before it from those after it. */
  lemma FieldsSplit(a: string, c: nat, b: string)
    requires White(c)
    ensures Fields(a + (Rune(c) + b)) == Fields(a) + Fields(b)
  {
    FieldsFromSplit("", a, c, b);
  }

  lemma {:induction false} FieldsFromSplit(word: string, a: string, c: nat, b: string)
    requires White(c)
    ensures FieldsFrom(word, a + (Rune(c) + b)) == FieldsFrom(word, a) + Fields(b)
    decreases |a|
  {
    hide SpaceAt, Rune;
    var t := Rune(c) + b;
    SpaceAtRune(c, b);
    if a == "" {
      assert a + t == t && t[|Rune(c)|..] == b;
    } else {
      SpaceStays(a, t);
      var n := SpaceAt(a);
      if n > 0 {
        assert (a + t)[n..] == a[n..] + t;
        FieldsFromSplit("", a[n..], c, b);
      } else {
        assert (a + t)[0] == a[0] && (a + t)[1..] == a[1..] + t;
        FieldsFromSplit(word + [a[0]], a[1..], c, b);
      }
    }
  }

  /** No white space anywhere in it. */
  ghost predicate Solid(s: string) {
    forall i, c :: 0 <= i < |s| && White(c) ==> !(Rune(c) <= s[i..])
  }

  /** A text without white space is one field. */
  lemma FieldsOfSolid(s: string)
    requires s != "" && Solid(s)
    ensures Fields(s) == [s]
  {
    forall i | 0 <= i < |s| ensures SpaceAt(s[i..]) == 0 { SpaceAtDecodes(s[i..]); }
    FieldsFromSolid("", s);
    assert "" + s == s;
  }

  lemma {:induction false} FieldsFromSolid(word: string, s: string)
    requires forall i :: 0 <= i < |s| ==> SpaceAt(s[i..]) == 0
    ensures FieldsFrom(word, s) == Flush(word + s)
    decreases |s|
  {
    hide SpaceAt;
    if s == "" {
      assert word + s == word;
    } else {
      assert s[0..] == s;
      forall i | 0 <= i < |s[1..]| ensures SpaceAt(s[1..][i..]) == 0 { assert s[1..][i..] == s[i + 1..]; }
      FieldsFromSolid(word + [s[0]], s[1..]);
      assert word + [s[0]] + s[1..] == word + s;
    }
  }

  /** Words with the same white space between each two. */
  function Separated(words: seq<string>, c: nat): string
    requires White(c)
  {
    if |words| == 0 then "" else if |words| == 1 then words[0] else words[0] + (Rune(c) + Separated(words[1..], c))
  }

  /** Whatever white space parts them (blanks, tabs, line breaks), the fields of a text are its words. */
  lemma {:induction false} FieldsOfWords(words: seq<string>, c: nat)
    requires White(c) && forall w :: w in words ==> w != "" && Solid(w)
    ensures Fields(Separated(words, c)) == words
  {
    hide Rune, Solid;
    if |words| > 0 {
      assert words[0] in words;
      FieldsOfSolid(words[0]);
      if |words| > 1 {
        forall w | w in words[1..] ensures w != "" && Solid(w) { assert w in words; }
        FieldsOfWords(words[1..], c);
        FieldsSplit(words[0], c, Separated(words[1..], c));
        assert words == [words[0]] + words[1..];
      } else {
        assert words == [words[0]];
      }
    }
  }

  // ---------------------------------------------------------------- trimming

  /** Nothing but white space. */
  predicate Blank(s: string)
    decreases |s|
  {
    s == "" || (SpaceAt(s) > 0 && Blank(s[SpaceAt(s)..]))
  }

  lemma {:induction false} BlankConcat(a: string, b: string)
    requires Blank(a) && Blank(b)
    ensures Blank(a + b)
    decreases |a|
  {
    hide SpaceAt, Rune, White;
    if a == "" {
      assert a + b == b;
    } else {
      var c := SpaceCode(a);
      var n := SpaceAt(a);
      SpaceAtDecodes(a);
      SpaceAtDecodes(a + b);
      assert Rune(c) <= a + b;
      assert (a + b)[n..] == a[n..] + b;
      BlankConcat(a[n..], b);
    }
  }

  lemma {:induction false} FieldsFromWord(word: string, s: string)
    requires word != ""
    ensures FieldsFrom(word, s) != []
    decreases |s|
  {
    if s != "" && SpaceAt(s) == 0 { FieldsFromWord(word + [s[0]], s[1..]); }
  }

  /** Only a blank text has no fields. */
  lemma {:induction false} BlankHasNoFields(s: string)
    ensures Blank(s) <==> Fields(s) == []
    decreases |s|
  {
    if s != "" {
      if SpaceAt(s) > 0 {
        BlankHasNoFields(s[SpaceAt(s)..]);
      } else {
        FieldsFromWord("" + [s[0]], s[1..]);
      }
    }
  }

  /** The white-space rune at the front of a text, before more white space. */
  lemma BlankFront(s: string, a: string)
    requires SpaceAt(s) > 0 && Blank(a)
    ensures Blank(s[..SpaceAt(s)] + a)
  {
    hide SpaceAt, Rune, White, Blank;
    var c := SpaceCode(s);
    SpaceAtDecodes(s);
    assert s[..SpaceAt(s)] == Rune(c);
    BlankRune(c);
    BlankConcat(Rune(c), a);
  }

  lemma {:induction false} TrimLeftDoes(s: string) returns (a: string)
    ensures s == a + TrimLeft(s) && Blank(a) && SpaceAt(TrimLeft(s)) == 0
    decreases |s|
  {
    var n := SpaceAt(s);
    hide SpaceAt, Blank;
    if n > 0 {
      a := TrimLeftDoes(s[n..]);
      BlankFront(s, a);
      assert s == s[..n] + s[n..];
      a := s[..n] + a;
    } else {
      a := "";
      BlankNothing();
      assert s == a + s;
    }
  }

  lemma BlankNothing()
    ensures Blank("")
  {
  }

  lemma BlankRune(c: nat)
    requires White(c)
    ensures Blank(Rune(c))
  {
    SpaceAtRune(c, "");
    assert Rune(c) + "" == Rune(c);
    assert Rune(c)[|Rune(c)|..] == "";
  }

  lemma BlankBack(s: string, n: nat, b: string)
    requires EndsInSpace(s, n) && Blank(b)
    ensures Blank(b + s[|s| - n..])
  {
    var w := s[|s| - n..];
    assert w[n..] == "";
    assert Blank(w);
    BlankConcat(b, w);
  }

  lemma RightSpaceMeans(s: string)
    ensures RightSpace(s) > 0 ==> EndsInSpace(s, RightSpace(s))
    ensures RightSpace(s) == 0 ==> forall k :: 1 <= k <= 3 ==> !EndsInSpace(s, k)
  {
    hide SpaceAt;
  }

  lemma {:induction false} TrimRightDoes(s: string) returns (b: string)
    ensures s == TrimRight(s) + b && Blank(b) && RightSpace(TrimRight(s)) == 0
    decreases |s|
  {
    hide SpaceAt, Blank, EndsInSpace, RightSpace;
    var n := RightSpace(s);
    if n > 0 {
      RightSpaceMeans(s);
      b := TrimRightDoes(s[..|s| - n]);
      BlankBack(s, n, b);
      assert s == s[..|s| - n] + s[|s| - n..];
      b := b + s[|s| - n..];
    } else {
      b := "";
      BlankNothing();
      assert s == s + b;
    }
  }

  lemma FrontStays(w: string, t: string, b: string)
    ensures w <= t ==> w <= t + b
  {
  }

  /** `strings.TrimSpace` takes off a stretch of white space at either end and leaves no more there. */
  lemma TrimSpaceDoes(s: string) returns (a: string, b: string)
    ensures s == a + TrimSpace(s) + b && Blank(a) && Blank(b)
    ensures forall c :: White(c) ==> !(Rune(c) <= TrimSpace(s)) && !EndsInSpace(TrimSpace(s), |Rune(c)|)
    ensures TrimSpace(s) == "" <==> Blank(s)
  {
    hide SpaceAt, Rune, White, TrimLeft, TrimRight, EndsInSpace, RightSpace;
    a := TrimLeftDoes(s);
    b := TrimRightDoes(TrimLeft(s));
    var t := TrimSpace(s);
    RightSpaceMeans(t);
    assert s == a + t + b;
    forall c | White(c) ensures !(Rune(c) <= t) && !EndsInSpace(t, |Rune(c)|) {
      SpaceAtDecodes(TrimLeft(s));
      FrontStays(Rune(c), t, b);
    }
    if t == "" {
      BlankConcat(a, b);
      assert s == a + b;
    }
    if Blank(s) {
      BlankTrims(s);
      assert TrimLeft(s) == t + b;
    }
  }

  lemma {:induction false} BlankTrims(s: string)
    requires Blank(s)
    ensures TrimLeft(s) == ""
    decreases |s|
  {
    if s != "" { BlankTrims(s[SpaceAt(s)..]); }
  }

  /** Printable ASCII other than the blank: no such byte starts a white-space rune. */
  predicate Plain(s: string) {
    forall i :: 0 <= i < |s| ==> '!' <= s[i] <= '~'
  }

  lemma {:induction false} FieldsAcrossWord(word: string, w: string, s: string)
    requires Plain(w)
    ensures FieldsFrom(word, w + s) == FieldsFrom(word + w, s)
    decreases |w|
  {
    if w == "" {
      assert w + s == s && word + w == word;
    } else {
      assert (w + s)[0] == w[0] && w[0] in w;
      assert (w + s)[1..] == w[1..] + s;
      FieldsAcrossWord(word + [w[0]], w[1..], s);
      assert word + [w[0]] + w[1..] == word + w;
    }
  }

  lemma FieldsOfWord(w: string)
    requires Plain(w)
    ensures Fields(w) == Flush(w)
  {
    FieldsAcrossWord("", w, "");
    assert w + "" == w && "" + w == w;
  }

  lemma FieldsOfTwoWords(x: string, z: string)
    requires x != "" && Plain(x)
    ensures Fields(x + ([' '] + z)) == [x] + Fields(z)
  {
    FieldsAcrossWord("", x, [' '] + z);
    assert "" + x == x && ([' '] + z)[1..] == z;
  }

  lemma FieldsOfLine(y: string)
    requires Plain(y)
    ensures Fields(y + "\n") == Flush(y)
  {
    FieldsAcrossWord("", y, "\n");
    assert "" + y == y && "\n"[1..] == "";
    assert SpaceAt("\n") == 1;
    assert FieldsFrom(y, "\n") == Flush(y) + FieldsFrom("", "");
  }

  /** The two fields of any prefix of "x y\n": the first is all of `x`, the second starts `y`. */
  lemma FieldsOfPrefix(x: string, y: string, n: nat)
    requires x != "" && Plain(x) && Plain(y)
    requires n <= |x| + |y| + 2
    ensures var t := (x + ([' '] + (y + "\n")))[..n];
      && (|Fields(t)| == 2 ==> Fields(t)[0] == x && Fields(t)[1] <= y)
      && (n >= |x| + |y| + 1 && y != "" ==> Fields(t) == [x, y])
  {
    var t := (x + ([' '] + (y + "\n")))[..n];
    if n <= |x| {
      assert t == x[..n];
      FieldsOfWord(t);
    } else {
      var m := n - |x| - 1;
      var z := (y + "\n")[..m];
      assert t == x + ([' '] + z);
      FieldsOfTwoWords(x, z);
      if m <= |y| {
        assert z == y[..m];
        FieldsOfWord(z);
      } else {
        assert z == y + "\n";
        FieldsOfLine(y);
      }
    }
  }

  // ---------------------------------------------------------------- numbers

  function Digit(n: nat): char
    requires n < 10
  {
    '0' + n as char
  }

  function DecimalNat(n: nat): string {
    if n < 10 then [Digit(n)] else DecimalNat(n / 10) + [Digit(n % 10)]
  }

  /** `strconv.FormatInt(n, 10)`. */
  function Decimal(n: int): string {
    if n < 0 then "-" + DecimalNat(-n) else DecimalNat(n)
  }

  lemma {:induction false} DecimalNatDigits(n: nat)
    ensures DecimalNat(n) != "" && forall c :: c in DecimalNat(n) ==> '0' <= c <= '9'
  {
    if n >= 10 { DecimalNatDigits(n / 10); }
  }

  lemma DecimalNatLength(n: nat)
    ensures |DecimalNat(n)| == 1 <==> n < 10
  {
    if n >= 10 {
      DecimalNatDigits(n / 10);
      assert |DecimalNat(n)| == |DecimalNat(n / 10)| + 1;
    }
  }

  lemma {:induction false} DecimalNatInjective(a: nat, b: nat)
    requires DecimalNat(a) == DecimalNat(b)
    ensures a == b
  {
    DecimalNatDigits(a / 10);
    DecimalNatDigits(b / 10);
    var s, t := DecimalNat(a), DecimalNat(b);
    if a >= 10 && b >= 10 {
      assert s[..|s| - 1] == DecimalNat(a / 10) && t[..|t| - 1] == DecimalNat(b / 10);
      DecimalNatInjective(a / 10, b / 10);
      assert s[|s| - 1] == Digit(a % 10) && t[|t| - 1] == Digit(b % 10);
    } else if a < 10 && b < 10 {
      assert s[0] == t[0];
    } else {
      DecimalNatLength(a);
      DecimalNatLength(b);
    }
  }

  /** Decimals are plain, hold no '.', and name one integer each. */
  lemma DecimalShape(n: int)
    ensures Decimal(n) != "" && Plain(Decimal(n)) && '.' !in Decimal(n)
  {
    var d := DecimalNat(if n < 0 then -n else n);
    DecimalNatDigits(if n < 0 then -n else n);
    assert forall i :: 0 <= i < |d| ==> d[i] in d;
  }

  lemma DecimalInjective(a: int, b: int)
    requires Decimal(a) == Decimal(b)
    ensures a == b
  {
    DecimalNatDigits(if a < 0 then -a else a);
    DecimalNatDigits(if b < 0 then -b else b);
    var s, t := Decimal(a), Decimal(b);
    assert a < 0 <==> s[0] == '-' by { assert a >= 0 ==> s[0] in DecimalNat(a); }
    assert b < 0 <==> t[0] == '-' by { assert b >= 0 ==> t[0] in DecimalNat(b); }
    if a < 0 {
      assert s[1..] == DecimalNat(-a) && t[1..] == DecimalNat(-b);
      DecimalNatInjective(-a, -b);
    } else {
      DecimalNatInjective(a, b);
    }
  }

  /** The number a string of digits spells. */
  function Spelled(s: string): nat
    requires forall i :: 0 <= i < |s| ==> '0' <= s[i] <= '9'
  {
    if s == "" then 0
    else
      Spelled(s[..|s| - 1]) * 10 + (s[|s| - 1] as int - '0' as int)
  }

  /** A decimal spells its number, without a leading zero. */
  lemma {:induction false} DecimalSpells(n: nat)
    ensures Decimal(n) == DecimalNat(n) && (forall i :: 0 <= i < |DecimalNat(n)| ==> '0' <= DecimalNat(n)[i] <= '9')
    ensures Spelled(DecimalNat(n)) == n && (n > 0 ==> DecimalNat(n)[0] != '0')
  {
    DecimalNatDigits(n);
    var s := DecimalNat(n);
    if n >= 10 {
      DecimalSpells(n / 10);
      DecimalNatDigits(n / 10);
      assert s[..|s| - 1] == DecimalNat(n / 10) && s[|s| - 1] == Digit(n % 10);
    } else {
      assert s[..0] == "" && s[|s| - 1] == Digit(n);
    }
  }

  predicate Octets(s: string) {
    forall i :: 0 <= i < |s| ==> s[i] < '\U{100}'
  }

  /** A SHA-256 sum: 32 bytes. */
  type Digest = d: string | |d| == 32 && Octets(d) witness seq(32, _ => '\0')

  function HexDigit(n: nat): char
    requires n < 16
  {
    if n < 10 then '0' + n as char else 'a' + (n - 10) as char
  }

  /** `hex.EncodeToString`. */
  function Hex(d: string): (s: string)
    requires Octets(d)
    ensures |s| == 2 * |d|
    ensures Plain(s)
  {
    if d == "" then ""
    else [HexDigit(d[0] as int / 16), HexDigit(d[0] as int % 16)] + Hex(d[1..])
  }

  lemma {:induction false} HexInjective(a: string, b: string)
    requires Octets(a) && Octets(b)
    requires Hex(a) == Hex(b)
    ensures a == b
  {
    if a == "" || b == "" {
      assert |Hex(a)| == 2 * |a| && |Hex(b)| == 2 * |b|;
    } else {
      var s, t := Hex(a), Hex(b);
      assert s[0] == t[0] && s[1] == t[1];
      assert s[0] == HexDigit(a[0] as int / 16) && s[1] == HexDigit(a[0] as int % 16);
      assert t[0] == HexDigit(b[0] as int / 16) && t[1] == HexDigit(b[0] as int % 16);
      assert a[0] as int == b[0] as int;
      assert s[2..] == Hex(a[1..]) && t[2..] == Hex(b[1..]);
      HexInjective(a[1..], b[1..]);
      assert a == [a[0]] + a[1..] && b == [b[0]] + b[1..];
    }
  }

  function HexValue(c: char): int {
    if '0' <= c <= '9' then c as int - '0' as int else if 'a' <= c <= 'f' then c as int - 'a' as int + 10 else -1
  }

  /** Byte `i` is spelled by two lower-case hexadecimal digits, the high one first. */
  lemma {:induction false} HexSpells(d: string, i: nat)
    requires Octets(d) && i < |d|
    ensures var h, l := HexValue(Hex(d)[2 * i]), HexValue(Hex(d)[2 * i + 1]);
      0 <= h < 16 && 0 <= l < 16 && h * 16 + l == d[i] as int
  {
    if i > 0 {
      HexSpells(d[1..], i - 1);
      assert Hex(d)[2..] == Hex(d[1..]);
    }
  }

  /** The wire form of a content hash: "sha256:" and 64 lower-case hex digits. */
  function HashText(d: Digest): (s: string)
    ensures |s| == 71 && Plain(s)
  {
    "sha256:" + Hex(d)
  }

  lemma HashTextInjective(a: Digest, b: Digest)
    requires HashText(a) == HashText(b)
    ensures a == b
  {
    assert HashText(a)[7..] == Hex(a) && HashText(b)[7..] == Hex(b);
    HexInjective(a, b);
  }

  // ---------------------------------------------------------------- order

  /** Byte-wise order: SQLite's BINARY collation and Go's `<` on strings. */
  predicate Less(a: string, b: string) {
    b != "" && (a == "" || a[0] < b[0] || (a[0] == b[0] && Less(a[1..], b[1..])))
  }

  /** The order is lexicographic: the first difference decides, and a proper prefix comes first. */
  lemma {:induction false} LessIsLexicographic(a: string, b: string)
    ensures Less(a, b) <==>
            exists k :: 0 <= k <= |a| && k < |b| && a[..k] == b[..k] && (k == |a| || a[k] < b[k])
  {
    if a == "" {
      if b != "" { assert a[..0] == b[..0]; }
    } else if b != "" && a[0] == b[0] {
      LessIsLexicographic(a[1..], b[1..]);
      if k :| 0 <= k <= |a[1..]| && k < |b[1..]| && a[1..][..k] == b[1..][..k] && (k == |a[1..]| || a[1..][k] < b[1..][k]) {
        assert a[..k + 1] == [a[0]] + a[1..][..k] && b[..k + 1] == [b[0]] + b[1..][..k];
      }
      if k :| 0 <= k <= |a| && k < |b| && a[..k] == b[..k] && (k == |a| || a[k] < b[k]) {
        assert k > 0;
        assert a[1..][..k - 1] == a[..k][1..] && b[1..][..k - 1] == b[..k][1..];
      }
    } else if b != "" {
      if a[0] < b[0] { assert a[..0] == b[..0]; }
      forall k | 1 <= k <= |a| && k < |b| ensures a[..k] != b[..k] {
        assert a[..k][0] == a[0] && b[..k][0] == b[0];
      }
    }
  }

  lemma {:induction false} LessTotal(a: string, b: string)
    ensures Less(a, b) || Less(b, a) || a == b
    ensures !(Less(a, b) && Less(b, a))
    ensures !Less(a, a)
  {
    if a != "" { LessTotal(a[1..], a[1..]); }
    if a != "" && b != "" {
      LessTotal(a[1..], b[1..]);
      if a[0] == b[0] && a[1..] == b[1..] {
        assert a == [a[0]] + a[1..] && b == [b[0]] + b[1..];
      }
    }
  }

  lemma {:induction false} LessTransitive(a: string, b: string, c: string)
    requires Less(a, b) && Less(b, c)
    ensures Less(a, c)
  {
    if a != "" && a[0] == b[0] == c[0] {
      LessTransitive(a[1..], b[1..], c[1..]);
    }
  }
}
