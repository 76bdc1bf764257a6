/** The editor's trigger field: text to list and back. */
module Triggers {
  import opened Text
  import opened StoreModel
  import opened LineDiffs
  import StoreHistory

  const COMMA: CodeUnit := 0x2C
  const BLANK: CodeUnit := 0x20

  /** The code units `String.prototype.trim` removes. */
  predicate IsSpace(u: CodeUnit) {
    || 0x09 <= u <= 0x0D || u == 0x20 || u == 0xA0 || u == 0x1680 || 0x2000 <= u <= 0x200A
    || u == 0x2028 || u == 0x2029 || u == 0x202F || u == 0x205F || u == 0x3000 || u == 0xFEFF
  }

  function TrimStart(s: Line): Line {
    if s != [] && IsSpace(s[0]) then TrimStart(s[1..]) else s
  }

  function TrimEnd(s: Line): Line {
    if s != [] && IsSpace(s[|s| - 1]) then TrimEnd(s[..|s| - 1]) else s
  }

  function Trim(s: Line): Line {
    TrimEnd(TrimStart(s))
  }

  predicate Trimmed(s: Line) {
    s == [] || (!IsSpace(s[0]) && !IsSpace(s[|s| - 1]))
  }

  lemma {:induction false} TrimStartDoes(s: Line)
    ensures var t := TrimStart(s); (t == [] || !IsSpace(t[0])) && |t| <= |s| && t == s[|s| - |t|..]
  {
    if s != [] && IsSpace(s[0]) { TrimStartDoes(s[1..]); }
  }

  lemma {:induction false} TrimEndDoes(s: Line)
    ensures var t := TrimEnd(s); (t == [] || !IsSpace(t[|t| - 1])) && t <= s
  {
    if s != [] && IsSpace(s[|s| - 1]) { TrimEndDoes(s[..|s| - 1]); }
  }

  /** Trimming leaves a stretch of the text that neither starts nor ends in white space. */
  lemma TrimDoes(s: Line)
    ensures Trimmed(Trim(s)) && (Trimmed(s) ==> Trim(s) == s)
    ensures forall u :: u in Trim(s) ==> u in s
  {
    TrimStartDoes(s);
    TrimEndDoes(TrimStart(s));
    assert forall u :: u in Trim(s) ==> u in TrimStart(s);
  }

  predicate AllSpace(s: Line) {
    forall i :: 0 <= i < |s| ==> IsSpace(s[i])
  }

  lemma AllSpaceConcat(a: Line, b: Line)
    ensures AllSpace(a + b) <==> AllSpace(a) && AllSpace(b)
  {
    hide IsSpace;
    assert forall i :: 0 <= i < |a| ==> (a + b)[i] == a[i];
    assert forall i :: 0 <= i < |b| ==> (a + b)[|a| + i] == b[i];
  }

  lemma {:induction false} TrimStartTakes(s: Line) returns (a: Line)
    ensures s == a + TrimStart(s) && AllSpace(a)
  {
    hide IsSpace;
    a := [];
    if s != [] && IsSpace(s[0]) {
      a := TrimStartTakes(s[1..]);
      assert s == [s[0]] + s[1..] && AllSpace([s[0]]);
      hide AllSpace;
      AllSpaceConcat([s[0]], a);
      a := [s[0]] + a;
    }
  }

  lemma {:induction false} TrimEndTakes(s: Line) returns (b: Line)
    ensures s == TrimEnd(s) + b && AllSpace(b)
  {
    hide IsSpace;
    b := [];
    if s != [] && IsSpace(s[|s| - 1]) {
      var last := [s[|s| - 1]];
      b := TrimEndTakes(s[..|s| - 1]);
      assert s == s[..|s| - 1] + last && AllSpace(last);
      hide AllSpace;
      AllSpaceConcat(b, last);
      b := b + last;
    }
  }

  /** Trimming takes off a stretch of white space at either end and nothing more. */
  lemma TrimTakesEnds(s: Line) returns (a: Line, b: Line)
    ensures s == a + Trim(s) + b && AllSpace(a) && AllSpace(b) && Trimmed(Trim(s))
    ensures Trim(s) == [] <==> AllSpace(s)
  {
    hide IsSpace, TrimStart, TrimEnd, AllSpace;
    a := TrimStartTakes(s);
    b := TrimEndTakes(TrimStart(s));
    TrimDoes(s);
    assert s == a + Trim(s) + b;
    AllSpaceConcat(a + Trim(s), b);
    AllSpaceConcat(a, Trim(s));
    TrimmedIsNoSpace(Trim(s));
  }

  lemma TrimmedIsNoSpace(s: Line)
    requires Trimmed(s)
    ensures AllSpace(s) <==> s == []
  {
  }

  /** Trimmed parts, empty ones dropped. */
  function Cleaned(parts: seq<Line>): seq<Line> {
    if parts == [] then [] else (if Trim(parts[0]) == [] then [] else [Trim(parts[0])]) + Cleaned(parts[1..])
  }

  function Parsed(raw: Line): seq<Line> {
    Cleaned(Split(raw, COMMA))
  }

  lemma NothingParsed()
    ensures Parsed([]) == []
  {
    var parts: seq<Line> := [[]];
    assert Split([], COMMA) == parts && parts[1..] == [];
  }

  lemma CleanedSnoc(parts: seq<Line>, p: Line)
    ensures Cleaned(parts + [p]) == Cleaned(parts) + if Trim(p) == [] then [] else [Trim(p)]
  {
    if parts == [] {
      assert parts + [p] == [p] && [p][1..] == [];
    } else {
      CleanedSnoc(parts[1..], p);
      assert (parts + [p])[1..] == parts[1..] + [p];
    }
  }

  lemma {:induction false} CleanedConcat(x: seq<Line>, y: seq<Line>)
    ensures Cleaned(x + y) == Cleaned(x) + Cleaned(y)
  {
    if x == [] {
      assert x + y == y;
    } else {
      assert (x + y)[1..] == x[1..] + y;
      CleanedConcat(x[1..], y);
    }
  }

  /** Parsing goes part by part: a comma parts what comes before it from what comes after, and a part
      without commas is one trigger, trimmed, or none. */
  lemma ParsedByParts(a: Line, b: Line, part: Line)
    requires COMMA !in part
    ensures Parsed(a + [COMMA] + b) == Parsed(a) + Parsed(b)
    ensures Parsed(part) == if Trim(part) == [] then [] else [Trim(part)]
  {
    SplitAtSep(a, b, COMMA);
    CleanedConcat(Split(a, COMMA), Split(b, COMMA));
    SplitOfWord(part, COMMA);
    CleanedSnoc([], part);
    assert [] + [part] == [part];
  }

  /** A list the field can carry: the server's grammar, and no white space at the ends. */
  predicate FieldGrammar(ts: seq<Line>) {
    TriggerGrammar(ts, COMMA) && forall t :: t in ts ==> Trimmed(t)
  }

  lemma {:induction false} CleanedGrammar(parts: seq<Line>)
    requires forall p :: p in parts ==> COMMA !in p
    ensures FieldGrammar(Cleaned(parts))
  {
    if parts != [] {
      CleanedGrammar(parts[1..]);
      TrimDoes(parts[0]);
      assert parts[0] in parts;
    }
  }

  /** `parseTriggers`: whatever is typed, the list satisfies the grammar the server demands. */
  method ParseTriggers(raw: Line) returns (out: seq<Line>)
    ensures out == Parsed(raw)
    ensures FieldGrammar(out)
  {
    out := [];
    if raw == [] {
      NothingParsed();
      return;
    }
    var parts := Split(raw, COMMA);
    PartsHoldNoSep(raw, COMMA);
    CleanedGrammar(parts);
    for i := 0 to |parts|
      invariant out == Cleaned(parts[..i])
    {
      assert parts[..i + 1] == parts[..i] + [parts[i]];
      CleanedSnoc(parts[..i], parts[i]);
      var v := Trim(parts[i]);
      if |v| > 0 { out := out + [v]; }
    }
    assert parts[..|parts|] == parts;
  }

  // ---------------------------------------------------------------- back into the form

  /** `triggers.join(", ")`. */
  function FormText(ts: seq<Line>): Line {
    if |ts| == 0 then [] else if |ts| == 1 then ts[0] else ts[0] + [COMMA, BLANK] + FormText(ts[1..])
  }

  function Spaced(ts: seq<Line>): seq<Line> {
    if ts == [] then [] else [[BLANK] + ts[0]] + Spaced(ts[1..])
  }

  lemma {:induction false} FormSplits(ts: seq<Line>, lead: Line)
    requires ts != [] && COMMA !in lead && forall t :: t in ts ==> COMMA !in t
    ensures Split(lead + FormText(ts), COMMA) == [lead + ts[0]] + Spaced(ts[1..])
  {
    SplitOfWord(lead + ts[0], COMMA);
    if |ts| > 1 {
      FormSplits(ts[1..], [BLANK]);
      SplitAtSep(lead + ts[0], [BLANK] + FormText(ts[1..]), COMMA);
      assert lead + FormText(ts) == (lead + ts[0]) + [COMMA] + ([BLANK] + FormText(ts[1..]));
    }
  }

  lemma {:induction false} CleanedSpaced(ts: seq<Line>)
    requires forall i :: 0 <= i < |ts| ==> ts[i] != [] && Trimmed(ts[i])
    ensures Cleaned(Spaced(ts)) == ts
  {
    if ts != [] {
      CleanedSpaced(ts[1..]);
      var spaced := [BLANK] + ts[0];
      assert spaced[1..] == ts[0];
      assert TrimStart(spaced) == TrimStart(ts[0]);
      TrimDoes(ts[0]);
      assert Spaced(ts)[1..] == Spaced(ts[1..]);
    }
  }

  /** Showing a list in the form and parsing it gives the list back exactly when it satisfies the
      field grammar. */
  lemma FormRoundTrips(ts: seq<Line>)
    ensures Parsed(FormText(ts)) == ts <==> FieldGrammar(ts)
  {
    if FieldGrammar(ts) && ts != [] {
      FormSplits(ts, []);
      assert [] + FormText(ts) == FormText(ts) && [] + ts[0] == ts[0];
      var parts := [ts[0]] + Spaced(ts[1..]);
      assert parts[1..] == Spaced(ts[1..]) && ts[0] in ts;
      CleanedSpaced(ts[1..]);
      TrimDoes(ts[0]);
    } else if ts == [] {
      NothingParsed();
    }
    PartsHoldNoSep(FormText(ts), COMMA);
    CleanedGrammar(Split(FormText(ts), COMMA));
  }

  /** What the field parses to survives the form, and a comma join, again. */
  lemma ParsedSurvives(raw: Line)
    ensures Parsed(FormText(Parsed(raw))) == Parsed(raw)
    ensures Parsed(raw) != [] ==> Split(Join(Parsed(raw), COMMA), COMMA) == Parsed(raw)
  {
    PartsHoldNoSep(raw, COMMA);
    CleanedGrammar(Split(raw, COMMA));
    FormRoundTrips(Parsed(raw));
    if Parsed(raw) != [] { SplitOfJoin(Parsed(raw), COMMA); }
  }

  // ---------------------------------------------------------------- on the server

  function Byte(n: nat): char
    requires n < 0x100
  {
    n as char
  }

  /** UTF-8 for one code unit standing alone; a lone surrogate becomes U+FFFD. */
  function EncodeUnit(u: CodeUnit): string {
    if u < 0x80 then [Byte(u)]
    else if u < 0x800 then [Byte(0xC0 + u / 0x40), Byte(0x80 + u % 0x40)]
    else if High(u) || Low(u) then [Byte(0xEF), Byte(0xBF), Byte(0xBD)]
    else [Byte(0xE0 + u / 0x1000), Byte(0x80 + u / 0x40 % 0x40), Byte(0x80 + u % 0x40)]
  }

  function EncodePair(h: CodeUnit, l: CodeUnit): string
    requires High(h) && Low(l)
  {
    var c := 0x10000 + (h - 0xD800) * 0x400 + (l - 0xDC00);
    [Byte(0xF0 + c / 0x40000), Byte(0x80 + c / 0x1000 % 0x40), Byte(0x80 + c / 0x40 % 0x40), Byte(0x80 + c % 0x40)]
  }

  /** The bytes the server receives for a string of the editor. */
  function Utf8(s: Line): (bytes: string)
    ensures |bytes| == Utf8Length(s)
  {
    if s == [] then ""
    else if |s| > 1 && High(s[0]) && Low(s[1]) then EncodePair(s[0], s[1]) + Utf8(s[2..])
    else EncodeUnit(s[0]) + Utf8(s[1..])
  }

  function Encoded(ts: seq<Line>): (r: seq<string>)
    ensures |r| == |ts| && forall i :: 0 <= i < |ts| ==> r[i] == Utf8(ts[i])
  {
    seq(|ts|, i requires 0 <= i < |ts| => Utf8(ts[i]))
  }

  lemma OnlyCommaIsComma(u: CodeUnit)
    ensures ',' in EncodeUnit(u) <==> u == COMMA
  {
  }

  lemma PairsHoldNoComma(h: CodeUnit, l: CodeUnit)
    requires High(h) && Low(l)
    ensures ',' !in EncodePair(h, l)
  {
  }

  /** Only a comma is encoded with the comma byte. */
  lemma {:induction false} CommaByte(s: Line)
    ensures ',' in Utf8(s) <==> COMMA in s
  {
    hide EncodeUnit, EncodePair;
    if s != [] {
      if |s| > 1 && High(s[0]) && Low(s[1]) {
        CommaByte(s[2..]);
        PairsHoldNoComma(s[0], s[1]);
        assert s == [s[0], s[1]] + s[2..];
      } else {
        CommaByte(s[1..]);
        OnlyCommaIsComma(s[0]);
        assert s == [s[0]] + s[1..];
      }
    }
  }

  lemma {:induction false} EmptyBytes(s: Line)
    ensures Utf8(s) == "" <==> s == []
  {
  }

  /** What the field parses to, as the server's bytes, is a trigger list the server accepts, stores in one
      column and reads back exactly. */
  lemma ParsedReachesServer(raw: Line)
    ensures var sent := Encoded(Parsed(raw)); TriggerGrammar(sent, ',') && DecodeTriggers(Join(sent, ',')) == sent
  {
    var ts := Parsed(raw);
    PartsHoldNoSep(raw, COMMA);
    CleanedGrammar(Split(raw, COMMA));
    forall b | b in Encoded(ts) ensures b != "" && ',' !in b {
      var i :| 0 <= i < |ts| && Encoded(ts)[i] == b;
      assert ts[i] in ts;
      CommaByte(ts[i]);
      EmptyBytes(ts[i]);
    }
    StoreHistory.GrammarRoundTrips(Encoded(ts));
  }
}
