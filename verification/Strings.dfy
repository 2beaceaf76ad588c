/**
 * The C string routines the configuration reader leans on: isspace, the trim of
 * server/src/utils.c, fgets, strtok, strtol, strcasecmp and the decimal side of printf.
 * A string here is the text before its terminating NUL.
 */
module Strings {
  import opened Basics
  import opened Decimals

  // ----- Blanks -----

  predicate IsSpace(c: char) {
    c == ' ' || '\t' <= c <= '\r'
  }

  predicate Blank(s: string) {
    forall i :: 0 <= i < |s| ==> IsSpace(s[i])
  }

  function SkipBlanks(s: string): string {
    if s != [] && IsSpace(s[0]) then SkipBlanks(s[1..]) else s
  }

  function CutBlanks(s: string): string {
    if s != [] && IsSpace(s[|s| - 1]) then CutBlanks(s[..|s| - 1]) else s
  }

  /** The string the trim returns. */
  function Trim(s: string): string {
    CutBlanks(SkipBlanks(s))
  }

  /**
   * What the trim leaves behind when its result is ignored: leading blanks stay, and an all-blank
   * string is not touched.
   */
  function TrimInPlace(s: string): string {
    if SkipBlanks(s) == [] then s else CutBlanks(s)
  }

  lemma {:induction false} SkipAppend(a: string, b: string)
    ensures SkipBlanks(a + b) == if Blank(a) then SkipBlanks(b) else SkipBlanks(a) + b
    decreases |a|
  {
    if a == [] {
      assert a + b == b;
    } else {
      assert (a + b)[1..] == a[1..] + b;
      SkipAppend(a[1..], b);
      assert IsSpace(a[0]) && Blank(a[1..]) ==> Blank(a);
    }
  }

  lemma {:induction false} CutAppend(a: string, b: string)
    ensures CutBlanks(a + b) == if Blank(b) then CutBlanks(a) else a + CutBlanks(b)
    decreases |b|
  {
    if b == [] {
      assert a + b == a;
    } else {
      var n := |b| - 1;
      assert (a + b)[..|a + b| - 1] == a + b[..n];
      CutAppend(a, b[..n]);
      assert IsSpace(b[n]) && Blank(b[..n]) ==> Blank(b);
    }
  }

  lemma {:induction false} SkipOfBlank(s: string)
    ensures Blank(s) <==> SkipBlanks(s) == []
    ensures Blank(s) ==> CutBlanks(s) == []
    decreases |s|
  {
    SkipAppend(s, []);
    CutAppend([], s);
    assert s + [] == s && [] + s == s;
    if s != [] { SkipOfBlank(s[1..]); }
  }

  lemma {:induction false} SkipIsSuffix(s: string)
    ensures |SkipBlanks(s)| <= |s| && SkipBlanks(s) == s[|s| - |SkipBlanks(s)|..]
    decreases |s|
  {
    if s != [] && IsSpace(s[0]) { SkipIsSuffix(s[1..]); }
  }

  /** Blanks on either side of a string do not change what the trim returns. */
  lemma TrimIgnoresMargins(a: string, s: string, b: string)
    requires Blank(a) && Blank(b)
    ensures Trim(a + s + b) == Trim(s)
  {
    assert a + s + b == a + (s + b);
    SkipAppend(a, s + b);
    SkipAppend(s, b);
    if Blank(s) {
      SkipOfBlank(s);
      SkipOfBlank(b);
    } else {
      CutAppend(SkipBlanks(s), b);
    }
  }

  lemma {:induction false} CutStops(s: string)
    ensures s != [] && !IsSpace(s[|s| - 1]) ==> CutBlanks(s) == s
    ensures CutBlanks(s) <= s
    ensures CutBlanks(s) != [] ==> !IsSpace(CutBlanks(s)[|CutBlanks(s)| - 1])
    decreases |s|
  {
    if s != [] && IsSpace(s[|s| - 1]) { CutStops(s[..|s| - 1]); }
  }

  /** A string is left alone exactly when it has no blank at either end. */
  lemma TrimmedAlready(s: string)
    ensures Trim(s) == s <==> (s == [] || (!IsSpace(s[0]) && !IsSpace(s[|s| - 1])))
  {
    CutStops(s);
    CutStops(SkipBlanks(s));
    if s != [] && IsSpace(s[0]) { SkipIsSuffix(s[1..]); }
  }

  /** Space, tab, newline, vertical tab, form feed and carriage return. */
  predicate Whitespace(s: string) {
    forall i :: 0 <= i < |s| ==> s[i] as int in {32, 9, 10, 11, 12, 13}
  }

  predicate NoMargins(s: string) {
    s != "" ==> !Whitespace(s[..1]) && !Whitespace(s[|s| - 1..])
  }

  lemma WhitespaceIsBlank(s: string)
    ensures Whitespace(s) <==> Blank(s)
    ensures NoMargins(s) <==> s == "" || (!IsSpace(s[0]) && !IsSpace(s[|s| - 1]))
  {}

  /** Every string is white space around a core; the trim returns the core and leaves what is before it in place. */
  lemma TrimMeaning(a: string, s: string, b: string)
    requires Whitespace(a) && NoMargins(s) && Whitespace(b)
    ensures Trim(a + s + b) == s
    ensures TrimInPlace(a + s + b) == if s == "" then a + b else a + s
  {
    hide IsSpace, Whitespace, NoMargins, SkipBlanks, CutBlanks;
    WhitespaceIsBlank(a);
    WhitespaceIsBlank(s);
    WhitespaceIsBlank(b);
    TrimIgnoresMargins(a, s, b);
    TrimmedAlready(s);
    SkipAppend(a, s + b);
    assert a + s + b == a + (s + b) == (a + s) + b;
    if s == "" {
      assert s + b == b && a + s + b == a + b;
      SkipOfBlank(b);
    } else {
      SkipAppend(s, b);
      CutAppend(a + s, b);
      CutAppend(a, s);
      NotBlank(s);
    }
  }

  lemma NotBlank(s: string)
    requires s != "" && !IsSpace(s[0]) && !IsSpace(s[|s| - 1])
    ensures !Blank(s) && SkipBlanks(s) == s && CutBlanks(s) == s
  {}

  // ----- Lines, as fgets cuts them -----

  const LINE_MAX: nat := 1023

  function LineEnd(text: string, i: nat): (n: nat)
    requires i <= |text|
    ensures i <= n <= |text| && (i < |text| && i < LINE_MAX ==> i < n)
    decreases |text| - i
  {
    if i == |text| || i >= LINE_MAX then i
    else if text[i] == '\n' then i + 1
    else LineEnd(text, i + 1)
  }

  function Lines(text: string): seq<string>
    decreases |text|
  {
    if text == [] then []
    else var n := LineEnd(text, 0); [text[..n]] + Lines(text[n..])
  }

  function Concat(lines: seq<string>): string {
    if lines == [] then "" else lines[0] + Concat(lines[1..])
  }

  /** What a read stops at: a newline, or 1023 characters. */
  predicate Ends(line: string) {
    |line| == 1023 || (line != "" && line[|line| - 1] == '\n')
  }

  /** How text is cut, whatever it holds: nothing is lost, and a line goes on until it must end. */
  lemma {:induction false} LinesMeaning(text: string)
    ensures Concat(Lines(text)) == text
    ensures forall l :: l in Lines(text) ==> 0 < |l| <= 1023 && '\n' !in l[..|l| - 1]
    ensures forall i :: 0 <= i < |Lines(text)| - 1 ==> Ends(Lines(text)[i])
    decreases |text|
  {
    hide LineEnd;
    if text != "" {
      var n := LineEnd(text, 0);
      LineEndMeaning(text, 0);
      LinesMeaning(text[n..]);
      assert text == text[..n] + text[n..];
    }
  }

  lemma {:induction false} LineEndMeaning(text: string, i: nat)
    requires i <= |text| && i <= 1023
    ensures LineEnd(text, i) <= 1023
    ensures forall k :: i <= k < LineEnd(text, i) - 1 ==> text[k] != '\n'
    ensures LineEnd(text, i) < |text| && i < 1023 ==> Ends(text[..LineEnd(text, i)])
    decreases |text| - i
  {
    if i < |text| && i < 1023 && text[i] != '\n' { LineEndMeaning(text, i + 1); }
  }

  predicate OneLine(line: string) {
    |line| < LINE_MAX && '\n' !in line
  }

  /** Lines written one after another, each with its newline. */
  function TextOf(lines: seq<string>): string {
    if lines == [] then "" else lines[0] + "\n" + TextOf(lines[1..])
  }

  function Ended(lines: seq<string>): seq<string> {
    if lines == [] then [] else [lines[0] + "\n"] + Ended(lines[1..])
  }

  lemma {:induction false} LineEndAt(line: string, rest: string, i: nat)
    requires OneLine(line) && i <= |line|
    ensures LineEnd(line + "\n" + rest, i) == |line| + 1
    decreases |line| - i
  {
    if i < |line| { LineEndAt(line, rest, i + 1); }
  }

  /** Text made of short lines is read back as those lines. */
  lemma {:induction false} LinesReadBack(lines: seq<string>)
    requires forall l :: l in lines ==> OneLine(l)
    ensures Lines(TextOf(lines)) == Ended(lines)
    decreases |lines|
  {
    if lines != [] {
      var text := TextOf(lines);
      LineEndAt(lines[0], TextOf(lines[1..]), 0);
      assert text[..|lines[0]| + 1] == lines[0] + "\n";
      assert text[|lines[0]| + 1..] == TextOf(lines[1..]);
      LinesReadBack(lines[1..]);
    }
  }

  lemma {:induction false} TextAppend(a: seq<string>, b: seq<string>)
    ensures TextOf(a + b) == TextOf(a) + TextOf(b)
    decreases |a|
  {
    if a == [] {
      assert a + b == b;
    } else {
      assert (a + b)[1..] == a[1..] + b;
      TextAppend(a[1..], b);
    }
  }

  // ----- Numbers -----

  /** printf's %d. */
  function Decimal(v: int): string {
    if v < 0 then "-" + Digits(-v) else Digits(v)
  }

  function DigitSpan(s: string): (n: nat)
    ensures n <= |s| && forall i :: 0 <= i < n ==> IsDigit(s[i])
  {
    if s != [] && IsDigit(s[0]) then 1 + DigitSpan(s[1..]) else 0
  }

  const LONG_MAX: int := 0x7FFF_FFFF_FFFF_FFFF

  function Clamp(v: int): int {
    if v > LONG_MAX then LONG_MAX else if v < -LONG_MAX - 1 then -LONG_MAX - 1 else v
  }

  /** Conversion of a long to a 32-bit int. */
  function ToInt(v: int): int {
    var w := v % TWO_32;
    if w < 0x8000_0000 then w else w - TWO_32
  }

  /** strtol in base ten: the number, and the text it stopped at; without digits it stops where it began. */
  function StrToL(s: string): (r: (int, string)) {
    var t := SkipBlanks(s);
    var signed := t != [] && (t[0] == '-' || t[0] == '+');
    var u := if signed then t[1..] else t;
    var n := DigitSpan(u);
    if n == 0 then (0, s)
    else
      var v: int := DigitsValue(u[..n]);
      (Clamp(if signed && t[0] == '-' then -v else v), u[n..])
  }

  lemma {:induction false} AllDigits(s: string)
    requires forall i :: 0 <= i < |s| ==> IsDigit(s[i])
    ensures DigitSpan(s) == |s|
    decreases |s|
  {
    if s != [] { AllDigits(s[1..]); }
  }

  predicate IsInt(v: int) {
    -0x8000_0000 <= v < 0x8000_0000
  }

  /** A printed number is read to its end, and comes back as itself exactly when it is a 32-bit int. */
  lemma DecimalReadBack(v: int)
    ensures StrToL(Decimal(v)) == (Clamp(v), "")
    ensures ToInt(StrToL(Decimal(v)).0) == v <==> IsInt(v)
  {
    hide Digits, DigitsValue, DigitSpan;
    var n := if v < 0 then -v else v;
    var s := Decimal(v);
    DigitsReadBack(n);
    AllDigits(Digits(n));
    assert !IsSpace(s[0]) && SkipBlanks(s) == s;
    assert v < 0 ==> s[1..] == Digits(n);
    assert Digits(n)[..|Digits(n)|] == Digits(n) && Digits(n)[|Digits(n)|..] == "";
  }

  predicate AllDigit(s: string) {
    forall i :: 0 <= i < |s| ==> IsDigit(s[i])
  }

  /** The text goes on with something that is no digit, or ends. */
  predicate NoDigitFirst(s: string) {
    s == "" || !('0' <= s[0] <= '9')
  }

  lemma {:induction false} DigitsThen(digits: string, rest: string)
    requires AllDigit(digits) && NoDigitFirst(rest)
    ensures DigitSpan(digits + rest) == |digits|
    decreases |digits|
  {
    if digits == "" {
      assert digits + rest == rest;
    } else {
      assert (digits + rest)[1..] == digits[1..] + rest;
      DigitsThen(digits[1..], rest);
    }
  }

  /** The number a sign and digits stand for, held within the range of a 64-bit long. */
  function LongOf(sign: string, digits: string): int
    requires AllDigit(digits)
  {
    var v: int := DigitsValue(digits);
    if sign == "-" then (if v > 0x8000_0000_0000_0000 then -0x8000_0000_0000_0000 else -v)
    else if v > 0x7FFF_FFFF_FFFF_FFFF then 0x7FFF_FFFF_FFFF_FFFF else v
  }

  lemma SignedRead(s: string, sign: string, digits: string, rest: string)
    requires sign in {"+", "-"} && AllDigit(digits) && NoDigitFirst(rest)
    requires SkipBlanks(s) == sign + (digits + rest)
    ensures StrToL(s) == if digits == "" then (0, s) else (LongOf(sign, digits), rest)
  {
    hide DigitSpan, DigitsValue, SkipBlanks;
    var u := digits + rest;
    DigitsThen(digits, rest);
    assert u[..|digits|] == digits && u[|digits|..] == rest;
    assert (sign + u)[0] == sign[0] && (sign + u)[1..] == u;
  }

  lemma UnsignedRead(s: string, digits: string, rest: string)
    requires AllDigit(digits) && NoDigitFirst(rest) && SkipBlanks(s) == digits + rest
    requires digits == "" && rest != "" ==> rest[0] != '+' && rest[0] != '-'
    ensures StrToL(s) == if digits == "" then (0, s) else (LongOf("", digits), rest)
  {
    hide DigitSpan, DigitsValue, SkipBlanks;
    var u := digits + rest;
    DigitsThen(digits, rest);
    assert u[..|digits|] == digits && u[|digits|..] == rest;
  }

  /** White space, a sign, digits and anything behind them; without digits nothing is read. */
  lemma NumberRead(blanks: string, sign: string, digits: string, rest: string)
    requires Whitespace(blanks) && sign in {"", "+", "-"} && AllDigit(digits) && NoDigitFirst(rest)
    requires sign == digits == "" && rest != "" ==> rest[0] as int !in {9, 10, 11, 12, 13, 32, 43, 45}
    ensures var s := blanks + sign + digits + rest;
      StrToL(s) == if digits == "" then (0, s) else (LongOf(sign, digits), rest)
  {
    hide StrToL, LongOf, SkipBlanks, Whitespace;
    var s, t := blanks + sign + digits + rest, sign + (digits + rest);
    assert s == blanks + t;
    BlanksSkipped(blanks, t);
    if sign == "" {
      assert t == digits + rest;
      UnsignedRead(s, digits, rest);
    } else {
      SignedRead(s, sign, digits, rest);
    }
  }

  lemma BlanksSkipped(blanks: string, t: string)
    requires Whitespace(blanks) && (t == "" || t[0] as int !in {9, 10, 11, 12, 13, 32})
    ensures SkipBlanks(blanks + t) == t
  {
    WhitespaceIsBlank(blanks);
    SkipAppend(blanks, t);
  }

  /** A long loses its high bits when it becomes an int. */
  lemma IntMeaning(v: int)
    ensures IsInt(ToInt(v)) && (ToInt(v) - v) % 0x1_0000_0000 == 0
  {}

  predicate NumberText(s: string) {
    s != [] && forall i :: 0 <= i < |s| ==> IsDigit(s[i]) || s[i] == '-'
  }

  lemma DecimalIsPlain(v: int)
    ensures NumberText(Decimal(v)) && !Blank(Decimal(v)) && ',' !in Decimal(v) && '\n' !in Decimal(v)
    ensures Trim(Decimal(v)) == Decimal(v) && TrimInPlace(Decimal(v)) == Decimal(v)
  {
    var s := Decimal(v);
    assert NumberText(s);
    CutStops(s);
    SkipOfBlank(s);
    TrimmedAlready(s);
    assert !IsSpace(s[0]);
  }

  // ----- Letter case -----

  function LowerChar(c: char): char {
    if 'A' <= c <= 'Z' then (c as int + 32) as char else c
  }

  function Lower(s: string): (t: string) {
    seq(|s|, i requires 0 <= i < |s| => LowerChar(s[i]))
  }

  /** The same letters, whatever their case; w is in lower case. */
  predicate Spells(s: string, w: string) {
    |s| == |w| && forall i :: 0 <= i < |s| ==>
      s[i] == w[i] || (65 <= s[i] as int <= 90 && s[i] as int + 32 == w[i] as int)
  }

  predicate InLowerCase(w: string) {
    forall i :: 0 <= i < |w| ==> !(65 <= w[i] as int <= 90)
  }

  lemma LowerMeaning(s: string, w: string)
    requires InLowerCase(w)
    ensures Lower(s) == w <==> Spells(s, w)
  {
    if Lower(s) == w { assert forall i :: 0 <= i < |s| ==> Lower(s)[i] == w[i]; }
  }

  // ----- Comma-separated lists -----

  /** The position of the first c, or the length. */
  function IndexOf(s: string, c: char): (k: nat)
    ensures k <= |s| && (k < |s| ==> s[k] == c) && c !in s[..k]
  {
    if s == [] || s[0] == c then 0
    else
      var k := 1 + IndexOf(s[1..], c);
      assert s[..k] == [s[0]] + s[1..][..k - 1];
      k
  }

  /** strtok over commas: runs of commas separate, and an empty token never comes out. */
  function Tokens(s: string): seq<string>
    decreases |s|
  {
    if s == [] then []
    else if s[0] == ',' then Tokens(s[1..])
    else var k := IndexOf(s, ','); [s[..k]] + Tokens(s[k..])
  }

  function Join(parts: seq<string>): string {
    if parts == [] then "" else if |parts| == 1 then parts[0] else parts[0] + "," + Join(parts[1..])
  }

  lemma {:induction false} IndexAfter(a: string, c: char, b: string)
    requires c !in a
    ensures IndexOf(a + [c] + b, c) == |a|
    decreases |a|
  {
    if a != [] {
      assert (a + [c] + b)[1..] == a[1..] + [c] + b;
      IndexAfter(a[1..], c, b);
    }
  }

  lemma {:induction false} IndexAbsent(a: string, c: char)
    requires c !in a
    ensures IndexOf(a, c) == |a|
    decreases |a|
  {}

  lemma NoTokens()
    ensures Tokens("") == []
  {}

  lemma TokenAlone(p: string)
    requires p != "" && ',' !in p
    ensures Tokens(p) == [p]
  {
    IndexAbsent(p, ',');
    assert p[..|p|] == p && p[|p|..] == "";
  }

  lemma TokenFirst(p: string, rest: string)
    requires p != "" && ',' !in p
    ensures Tokens(p + "," + rest) == [p] + Tokens(rest)
  {
    hide IndexOf;
    var s := p + "," + rest;
    IndexAfter(p, ',', rest);
    assert s[0] == p[0] && p[0] in p;
    assert s[..|p|] == p && s[|p|..] == "," + rest;
    assert ("," + rest)[1..] == rest;
  }

  /** Splitting undoes joining when no part is empty or holds a comma. */
  lemma {:induction false} SplitUndoesJoin(parts: seq<string>)
    requires forall p :: p in parts ==> p != "" && ',' !in p
    ensures Tokens(Join(parts)) == parts
    decreases |parts|
  {
    hide Tokens;
    if parts == [] {
      NoTokens();
    } else {
      assert parts[0] in parts;
      if |parts| == 1 {
        TokenAlone(parts[0]);
      } else {
        assert forall p :: p in parts[1..] ==> p in parts;
        TokenFirst(parts[0], Join(parts[1..]));
        SplitUndoesJoin(parts[1..]);
      }
    }
  }

  function NonEmpty(parts: seq<string>): seq<string> {
    if parts == [] then []
    else (if parts[0] == "" then [] else [parts[0]]) + NonEmpty(parts[1..])
  }

  /** Whatever stands between commas comes out, in order, unless it is empty. */
  lemma {:induction false} TokensAreParts(parts: seq<string>)
    requires forall p :: p in parts ==> ',' !in p
    ensures Tokens(Join(parts)) == NonEmpty(parts)
    decreases |parts|
  {
    hide Tokens;
    if parts == [] {
      NoTokens();
    } else {
      var p, rest := parts[0], Join(parts[1..]);
      assert p in parts && forall q :: q in parts[1..] ==> q in parts;
      TokensAreParts(parts[1..]);
      if |parts| == 1 {
        assert NonEmpty(parts[1..]) == [];
        if p == "" { NoTokens(); } else { TokenAlone(p); }
      } else if p == "" {
        EmptyToken(rest);
        assert p + "," + rest == "," + rest;
      } else {
        TokenFirst(p, rest);
      }
    }
  }

  lemma EmptyToken(rest: string)
    ensures Tokens("," + rest) == Tokens(rest)
  {
    assert ("," + rest)[1..] == rest;
  }

  /** A token is never empty and never holds a comma, whatever is split. */
  lemma {:induction false} TokensArePlain(s: string)
    ensures forall p :: p in Tokens(s) ==> p != [] && ',' !in p
    decreases |s|
  {
    if s != [] {
      if s[0] == ',' {
        TokensArePlain(s[1..]);
      } else {
        TokensArePlain(s[IndexOf(s, ',')..]);
      }
    }
  }

  lemma SplitUndoesJoinExactly(parts: seq<string>)
    ensures Tokens(Join(parts)) == parts <==> forall p :: p in parts ==> p != [] && ',' !in p
  {
    TokensArePlain(Join(parts));
    if forall p :: p in parts ==> p != [] && ',' !in p { SplitUndoesJoin(parts); }
  }

}
