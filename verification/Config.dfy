/**
 * The configuration file of server/src/config.c: a line-by-line reader that updates registered
 * items, and the printer that writes them back.
 */
module Config {
  import opened Basics
  import opened Decimals
  import opened Strings

  const MAX_SECTION: nat := 63

  datatype Value =
    | Str(text: Option<string>)
    | Int(v: int)
    | Bool(b: bool)
    | StrArray(parts: seq<string>)
    | IntArray(numbers: seq<int>)

  /** A registered item; the callback, when there is one, replaces the check that goes with the type. */
  datatype Item = Item(key: string, value: Value, description: Option<string>, callback: Option<string -> bool>)

  datatype Section = Section(name: string, items: seq<Item>)

  // ----- One value -----

  predicate BoolText(s: string) {
    Lower(s) in {"true", "false", "yes", "no", "1", "0"}
  }

  predicate Valid(item: Item, s: string) {
    match item.callback
    case Some(accepts) => accepts(s)
    case None =>
      match item.value
      case Int(_) => StrToL(s).1 == ""
      case Bool(_) => BoolText(s)
      case _ => true
  }

  function Numbers(tokens: seq<string>): (v: seq<int>)
    ensures |v| == |tokens|
  {
    seq(|tokens|, i requires 0 <= i < |tokens| => ToInt(StrToL(TrimInPlace(tokens[i])).0))
  }

  function Trimmed(tokens: seq<string>): (v: seq<string>)
    ensures |v| == |tokens|
  {
    seq(|tokens|, i requires 0 <= i < |tokens| => TrimInPlace(tokens[i]))
  }

  /** The value a text stands for, in the type of the item. */
  function Convert(current: Value, s: string): Value {
    match current
    case Str(_) => Str(Some(s))
    case Int(_) => Int(ToInt(StrToL(s).0))
    case Bool(_) => Bool(Lower(s) in {"true", "yes", "1"})
    case StrArray(_) => StrArray(Trimmed(Tokens(s)))
    case IntArray(_) => IntArray(Numbers(Tokens(s)))
  }

  lemma NumbersStep(token: string, rest: seq<string>)
    ensures Numbers([token] + rest) == [ToInt(StrToL(TrimInPlace(token)).0)] + Numbers(rest)
  {}

  /** The filling loop: one token at a time. */
  method SplitNumbers(s: string) returns (v: seq<int>)
    ensures v == Numbers(Tokens(s))
  {
    hide StrToL, ToInt, TrimInPlace, IndexOf;
    var rest := s;
    v := [];
    while rest != []
      invariant v + Numbers(Tokens(rest)) == Numbers(Tokens(s))
      decreases |rest|
    {
      if rest[0] == ',' {
        rest := rest[1..];
      } else {
        var k := IndexOf(rest, ',');
        var n := ToInt(StrToL(TrimInPlace(rest[..k])).0);
        NumbersStep(rest[..k], Tokens(rest[k..]));
        v := v + [n];
        rest := rest[k..];
      }
    }
  }

  method SplitStrings(s: string) returns (v: seq<string>)
    ensures v == Trimmed(Tokens(s))
  {
    var rest := s;
    v := [];
    while rest != []
      invariant v + Trimmed(Tokens(rest)) == Trimmed(Tokens(s))
      decreases |rest|
    {
      if rest[0] == ',' {
        rest := rest[1..];
      } else {
        var k := IndexOf(rest, ',');
        assert Trimmed(Tokens(rest)) == [TrimInPlace(rest[..k])] + Trimmed(Tokens(rest[k..]));
        v := v + [TrimInPlace(rest[..k])];
        rest := rest[k..];
      }
    }
  }

  method ConvertStringToValue(item: Item, s: string) returns (updated: Item)
    ensures updated == item.(value := Convert(item.value, s))
  {
    match item.value
    case StrArray(_) =>
      var parts := SplitStrings(s);
      updated := item.(value := StrArray(parts));
    case IntArray(_) =>
      var numbers := SplitNumbers(s);
      updated := item.(value := IntArray(numbers));
    case _ =>
      updated := item.(value := Convert(item.value, s));
  }

  /** A switch is on for three words and off for three others, in any case; nothing else is a switch. */
  lemma SwitchMeaning(item: Item, s: string)
    requires item.value.Bool?
    ensures Convert(item.value, s) == Bool(Spells(s, "true") || Spells(s, "yes") || Spells(s, "1"))
    ensures item.callback.None? ==> (Valid(item, s) <==>
      Convert(item.value, s) == Bool(true) || Spells(s, "false") || Spells(s, "no") || Spells(s, "0"))
  {
    hide Lower, Spells;
    LowerMeaning(s, "true");
    LowerMeaning(s, "yes");
    LowerMeaning(s, "1");
    LowerMeaning(s, "false");
    LowerMeaning(s, "no");
    LowerMeaning(s, "0");
  }

  /**
   * A number is accepted if nothing stands behind its digits, and is the low 32 bits of what a long
   * holds of it; text without digits is not accepted unless it is empty.
   */
  lemma NumberMeaning(item: Item, blanks: string, sign: string, digits: string, rest: string)
    requires item.value.Int? && Whitespace(blanks) && sign in {"", "+", "-"} && AllDigit(digits) && NoDigitFirst(rest)
    requires sign == digits == "" && rest != "" ==> rest[0] as int !in {9, 10, 11, 12, 13, 32, 43, 45}
    ensures var s := blanks + sign + digits + rest;
      && (item.callback.None? ==> (Valid(item, s) <==> s == "" || (digits != "" && rest == "")))
      && Convert(item.value, s) == Int(if digits == "" then 0 else ToInt(LongOf(sign, digits)))
  {
    hide StrToL, LongOf, ToInt, Whitespace;
    NumberRead(blanks, sign, digits, rest);
    IntMeaning(0);
    assert ToInt(0) == 0 by { ZeroIsInt(); }
  }

  lemma ZeroIsInt()
    ensures ToInt(0) == 0
  {}

  /** A check of its own replaces that of the type; strings and lists are always accepted otherwise. */
  lemma CheckMeaning(item: Item, s: string)
    ensures item.callback.Some? ==> Valid(item, s) == item.callback.value(s)
    ensures item.callback.None? && (item.value.Str? || item.value.StrArray? || item.value.IntArray?) ==> Valid(item, s)
    ensures item.value.Str? ==> Convert(item.value, s) == Str(Some(s))
  {}

  /** A list is what stands between commas, empty parts left out, each trimmed on the right or read as a number. */
  lemma ListMeaning(parts: seq<string>)
    requires forall p :: p in parts ==> ',' !in p
    ensures var kept, s := NonEmpty(parts), Join(parts);
      && Convert(StrArray([]), s) == StrArray(seq(|kept|, i requires 0 <= i < |kept| => TrimInPlace(kept[i])))
      && Convert(IntArray([]), s) ==
           IntArray(seq(|kept|, i requires 0 <= i < |kept| => ToInt(StrToL(TrimInPlace(kept[i])).0)))
  {
    hide TrimInPlace, StrToL, ToInt, Tokens, Join, NonEmpty;
    TokensAreParts(parts);
  }

  // ----- One line -----

  datatype Meaning = Nothing | SectionLine(name: string) | Assign(key: string, text: string)

  function Meant(line: string): Meaning {
    var t := Trim(line);
    if t == "" || t[0] == ';' || t[0] == '#' then Nothing
    else if t[0] == '[' && t[|t| - 1] == ']' then
      var name := TrimInPlace(t[1..|t| - 1]);
      if name == "" then Nothing else SectionLine(Cut(name))
    else
      var e := IndexOf(t, '=');
      if e == |t| then Nothing
      else
        var key := Trim(t[..e]);
        if key == "" then Nothing else Assign(key, Trim(t[e + 1..]))
  }

  /** The section name kept: at most 63 characters of it. */
  function Cut(name: string): string {
    if |name| <= MAX_SECTION then name else name[..MAX_SECTION]
  }

  // ----- What every line means -----

  /** The text of a line starts like a comment, or stands in brackets. */
  predicate CommentOrSection(s: string) {
    s != "" && (s[0] == ';' || s[0] == '#' || (s[0] == '[' && s[|s| - 1] == ']'))
  }

  /** A line whose first character that is not white space is a semicolon or a hash means nothing. */
  lemma CommentMeans(a: string, mark: string, text: string)
    requires Whitespace(a) && mark in {";", "#"}
    ensures Meant(a + mark + text) == Nothing
  {
    hide Whitespace, SkipBlanks, CutBlanks, IsSpace, TrimInPlace, IndexOf, Cut;
    var line := a + mark + text;
    assert line == a + (mark + text);
    BlanksSkipped(a, mark + text);
    CutAppend(mark, text);
    MarkStays(mark);
    assert Trim(line) != "" && Trim(line)[0] == mark[0];
  }

  lemma MarkStays(mark: string)
    requires mark in {";", "#"}
    ensures CutBlanks(mark) == mark
  {}

  /** A line in brackets names a section: what stands between them, trimmed on the right and cut to 63 characters. */
  lemma SectionMeans(a: string, name: string, b: string)
    requires Whitespace(a) && Whitespace(b)
    ensures var n := TrimInPlace(name); var kept := if |n| <= 63 then n else n[..63];
      Meant(a + ("[" + name + "]") + b) == if n == "" then Nothing else SectionLine(kept)
  {
    hide Whitespace, Trim, IsSpace, TrimInPlace, IndexOf;
    var s := "[" + name + "]";
    BracketsHaveNoMargins(name);
    TrimMeaning(a, s, b);
    assert s[1..|s| - 1] == name;
  }

  lemma BracketsHaveNoMargins(name: string)
    ensures NoMargins("[" + name + "]")
  {
    var s := "[" + name + "]";
    assert s[..1] == "[" && s[|s| - 1..] == "]";
    assert !Whitespace("[") && !Whitespace("]") by { assert "["[0] == '[' && "]"[0] == ']'; }
  }

  lemma EqualsMeans(line: string, left: string, right: string)
    requires Trim(line) == left + ("=" + right) && '=' !in left && !CommentOrSection(left + ("=" + right))
    ensures Meant(line) == if Trim(left) == "" then Nothing else Assign(Trim(left), Trim(right))
  {
    hide Trim, TrimInPlace, IndexOf, Cut;
    var t := left + ("=" + right);
    assert t == left + ['='] + right;
    IndexAfter(left, '=', right);
    assert t[..|left|] == left && t[|left| + 1..] == right;
  }

  /** What stands behind an equals sign once the line is trimmed. */
  function Behind(c: string, text: string): string {
    if text == "" then "" else c + text
  }

  lemma CoreHasNoMargins(key: string, b: string, c: string, text: string)
    requires key != "" && NoMargins(key) && NoMargins(text)
    ensures NoMargins(key + b + ("=" + Behind(c, text)))
  {
    hide Whitespace;
    var s := key + b + ("=" + Behind(c, text));
    assert s[..1] == key[..1];
    assert s[|s| - 1..] == if text == "" then "=" else text[|text| - 1..];
    EqualsIsNoSpace();
  }

  lemma EqualsIsNoSpace()
    ensures !Whitespace("=")
  {
    assert "="[0] == '=';
  }

  lemma NoEqualsIn(s: string)
    requires Whitespace(s)
    ensures '=' !in s
  {}

  /**
   * Any other line assigns what stands behind its first equals sign to what stands before it, each
   * without its margins.
   */
  lemma AssignmentMeans(a: string, key: string, b: string, c: string, text: string, d: string)
    requires Whitespace(a) && Whitespace(b) && Whitespace(c) && Whitespace(d)
    requires key != "" && NoMargins(key) && '=' !in key && NoMargins(text)
    requires !CommentOrSection(key + b + ("=" + Behind(c, text)))
    ensures Meant(a + (key + b + ("=" + (c + text))) + d) == Assign(key, text)
  {
    hide Whitespace, NoMargins, Trim, TrimInPlace, CommentOrSection, Meant, Behind;
    var line := a + (key + b + ("=" + (c + text))) + d;
    LineTrimmed(a, key, b, c, text, d);
    NoEqualsIn(b);
    EqualsMeans(line, key + b, Behind(c, text));
    NothingIsWhite();
    TrimMeaning("", key, b);
    assert "" + key + b == key + b;
    BehindTrimmed(c, text);
  }

  lemma BehindTrimmed(c: string, text: string)
    requires Whitespace(c) && NoMargins(text)
    ensures Trim(Behind(c, text)) == text
  {
    hide Whitespace, NoMargins, Trim, TrimInPlace;
    NothingIsWhite();
    TrimMeaning(if text == "" then "" else c, text, "");
    assert c + text + "" == c + text && "" + text + "" == text;
  }

  lemma LineTrimmed(a: string, key: string, b: string, c: string, text: string, d: string)
    requires Whitespace(a) && Whitespace(c) && Whitespace(d) && key != "" && NoMargins(key) && NoMargins(text)
    ensures Trim(a + (key + b + ("=" + (c + text))) + d) == key + b + ("=" + Behind(c, text))
  {
    hide Whitespace, NoMargins, Trim, TrimInPlace;
    CoreHasNoMargins(key, b, c, text);
    if text == "" {
      MarginsJoin(c, d);
      TrimMeaning(a, key + b + ("=" + ""), c + d);
      assert a + (key + b + ("=" + (c + text))) + d == a + (key + b + ("=" + "")) + (c + d);
    } else {
      TrimMeaning(a, key + b + ("=" + (c + text)), d);
    }
  }

  lemma NothingIsWhite()
    ensures Whitespace("") && NoMargins("")
  {}

  lemma MarginsJoin(a: string, b: string)
    requires Whitespace(a) && Whitespace(b)
    ensures Whitespace(a + b)
  {}

  /** With nothing before the equals sign there is no assignment. */
  lemma KeylessMeans(a: string, rest: string)
    requires Whitespace(a)
    ensures Meant(a + ("=" + rest)) == Nothing
  {
    hide Whitespace, SkipBlanks, CutBlanks, IsSpace, TrimInPlace, Meant, CommentOrSection;
    var line := a + ("=" + rest);
    BlanksSkipped(a, "=" + rest);
    CutAppend("=", rest);
    EqualsStays();
    var right := if Blank(rest) then "" else CutBlanks(rest);
    assert Trim(line) == "" + ("=" + right);
    EqualsMeans(line, "", right);
    NothingIsWhite();
    TrimMeaning("", "", "");
    assert "" + "" + "" == "";
  }

  lemma EqualsStays()
    ensures CutBlanks("=") == "="
    ensures forall right :: !CommentOrSection("" + ("=" + right))
  {}

  /** A line without an equals sign assigns nothing. */
  lemma NoAssignment(a: string, s: string, b: string)
    requires Whitespace(a) && NoMargins(s) && Whitespace(b) && '=' !in s && !CommentOrSection(s)
    ensures Meant(a + s + b) == Nothing
  {
    hide Whitespace, NoMargins, Trim, IsSpace, TrimInPlace, IndexOf, Cut;
    TrimMeaning(a, s, b);
    IndexAbsent(s, '=');
  }

  // ----- The items -----

  function SectionIndex(m: seq<Section>, name: string): (i: nat)
    ensures i <= |m| && (i < |m| ==> m[i].name == name) && forall k :: 0 <= k < i ==> m[k].name != name
  {
    if m == [] || m[0].name == name then 0
    else
      var i := 1 + SectionIndex(m[1..], name);
      assert forall k :: 1 <= k < i ==> m[k] == m[1..][k - 1];
      i
  }

  function ItemIndex(items: seq<Item>, key: string): (j: nat)
    ensures j <= |items| && (j < |items| ==> items[j].key == key) && forall k :: 0 <= k < j ==> items[k].key != key
  {
    if items == [] || items[0].key == key then 0
    else
      var j := 1 + ItemIndex(items[1..], key);
      assert forall k :: 1 <= k < j ==> items[k] == items[1..][k - 1];
      j
  }

  predicate Registered(m: seq<Section>, section: string, key: string) {
    var i := SectionIndex(m, section);
    i < |m| && ItemIndex(m[i].items, key) < |m[i].items|
  }

  datatype Assignment = Assignment(section: string, key: string, text: string)

  function Update(m: seq<Section>, i: nat, j: nat, item: Item): seq<Section>
    requires i < |m| && j < |m[i].items|
  {
    m[i := m[i].(items := m[i].items[j := item])]
  }

  /** The first item of that name in the first section of that name takes the text, if it is valid there. */
  function Apply(m: seq<Section>, a: Assignment): seq<Section> {
    var i := SectionIndex(m, a.section);
    if i == |m| then m
    else
      var j := ItemIndex(m[i].items, a.key);
      if j == |m[i].items| || !Valid(m[i].items[j], a.text) then m
      else Update(m, i, j, m[i].items[j].(value := Convert(m[i].items[j].value, a.text)))
  }

  function ApplyAll(m: seq<Section>, all: seq<Assignment>): seq<Section>
    decreases |all|
  {
    if all == [] then m else ApplyAll(Apply(m, all[0]), all[1..])
  }

  function SectionAfter(section: string, line: Meaning): string {
    if line.SectionLine? then line.name else section
  }

  function Asked(section: string, line: Meaning): seq<Assignment> {
    if line.Assign? then [Assignment(section, line.key, line.text)] else []
  }

  /** What a file asks for, each line read under the section in force there. */
  function Assignments(section: string, lines: seq<string>): seq<Assignment>
    decreases |lines|
  {
    if lines == [] then []
    else Asked(section, Meant(lines[0])) + Assignments(SectionAfter(section, Meant(lines[0])), lines[1..])
  }

  /** The section in force after some lines: that of the last section line, or the one before them. */
  function InForce(section: string, lines: seq<string>): string {
    if lines == [] then section
    else if Meant(lines[|lines| - 1]).SectionLine? then Meant(lines[|lines| - 1]).name
    else InForce(section, lines[..|lines| - 1])
  }

  /** Each line that assigns asks for one assignment in the section in force there; no other line asks for any. */
  lemma {:induction false} LastLineAsks(section: string, lines: seq<string>, line: string)
    ensures Assignments(section, lines + [line]) == Assignments(section, lines) +
      match Meant(line)
      case Assign(key, text) => [Assignment(InForce(section, lines), key, text)]
      case _ => []
    decreases |lines|
  {
    hide Meant;
    if lines == [] {
      assert lines + [line] == [line];
      assert Assignments(section, [line]) ==
        Asked(section, Meant(line)) + Assignments(SectionAfter(section, Meant(line)), []);
    } else {
      var next := SectionAfter(section, Meant(lines[0]));
      assert (lines + [line])[1..] == lines[1..] + [line];
      LastLineAsks(next, lines[1..], line);
      InForceLater(section, lines);
    }
  }

  lemma {:induction false} InForceLater(section: string, lines: seq<string>)
    requires lines != []
    ensures InForce(section, lines) == InForce(SectionAfter(section, Meant(lines[0])), lines[1..])
    decreases |lines|
  {
    hide Meant;
    if |lines| > 1 {
      assert lines[..|lines| - 1][1..] == lines[1..][..|lines[1..]| - 1];
      InForceLater(section, lines[..|lines| - 1]);
    } else {
      assert InForce(section, lines[..0]) == section;
    }
  }

  function WithSection(m: seq<Section>, name: string): seq<Section> {
    if SectionIndex(m, name) < |m| then m else m + [Section(Cut(name), [])]
  }

  /** A new item goes to the end of its section, under its key cut to 63 characters, unless that key is taken. */
  function Register(m: seq<Section>, section: string, item: Item): seq<Section> {
    var i := SectionIndex(m, section);
    var n := WithSection(m, section);
    if ItemIndex(n[i].items, item.key) < |n[i].items| then n
    else n[i := n[i].(items := n[i].items + [item.(key := Cut(item.key))])]
  }

  /** A name is stored whole, or as its first 63 characters. */
  predicate Stores(name: string, stored: string) {
    stored <= name && |stored| == if |name| <= 63 then |name| else 63
  }

  /** Registering changes nothing if the name is known, nothing in other sections, and the name of none. */
  lemma RegisterKeepsRest(m: seq<Section>, section: string, item: Item)
    ensures Registered(m, section, item.key) ==> Register(m, section, item) == m
    ensures !Registered(m, section, item.key) ==>
      |Register(m, section, item)| == if SectionIndex(m, section) < |m| then |m| else |m| + 1
    ensures forall k :: 0 <= k < |m| ==> Register(m, section, item)[k].name == m[k].name
    ensures forall k :: 0 <= k < |m| && k != SectionIndex(m, section) ==> Register(m, section, item)[k] == m[k]
  {}

  /**
   * A new item comes last in its section, as it was given but for its key, behind the items that were
   * there; a new section comes last, with nothing else in it.
   */
  lemma RegisterMeaning(m: seq<Section>, section: string, item: Item)
    requires !Registered(m, section, item.key)
    ensures SectionIndex(m, section) < |Register(m, section, item)|
    ensures var i := SectionIndex(m, section); var s := Register(m, section, item)[i];
      && s.items != [] && s.items[..|s.items| - 1] == (if i < |m| then m[i].items else [])
      && s.items[|s.items| - 1] == item.(key := s.items[|s.items| - 1].key)
      && Stores(item.key, s.items[|s.items| - 1].key) && (i == |m| ==> Stores(section, s.name))
  {}

  // ----- Printing -----

  function Printed(v: Value): string {
    match v
    case Str(None) => ""
    case Str(Some(text)) => text
    case Int(n) => Decimal(n)
    case Bool(b) => if b then "true" else "false"
    case StrArray(parts) => Join(parts)
    case IntArray(numbers) => Join(DecimalList(numbers))
  }

  function DecimalList(numbers: seq<int>): (s: seq<string>)
    ensures |s| == |numbers|
  {
    seq(|numbers|, i requires 0 <= i < |numbers| => Decimal(numbers[i]))
  }

  /** An empty array prints no newline of its own, so the blank line after it ends its line instead. */
  predicate EmptyArray(v: Value) {
    (v.StrArray? && v.parts == []) || (v.IntArray? && v.numbers == [])
  }

  function ItemLines(item: Item): seq<string> {
    (if item.description.Some? then ["; " + item.description.value] else [])
    + [item.key + " = " + Printed(item.value)]
    + (if EmptyArray(item.value) then [] else [""])
  }

  function AllItemLines(items: seq<Item>): seq<string> {
    if items == [] then [] else ItemLines(items[0]) + AllItemLines(items[1..])
  }

  function SectionLines(s: Section): seq<string> {
    if s.items == [] then [] else ["[" + s.name + "]"] + AllItemLines(s.items) + [""]
  }

  function AllSectionLines(m: seq<Section>): seq<string> {
    if m == [] then [] else SectionLines(m[0]) + AllSectionLines(m[1..])
  }

  /** The time stamp brings a newline of its own. */
  function Preamble(stamp: string): seq<string> {
    ["; " + "Secure Chat Configuration File", "; " + ("Generated at: " + stamp), "", ""]
  }

  function FileLines(m: seq<Section>, stamp: string): seq<string> {
    Preamble(stamp) + AllSectionLines(m)
  }

  lemma FirstItemLines(item: Item, rest: seq<Item>)
    ensures AllItemLines([item] + rest) == ItemLines(item) + AllItemLines(rest)
  {
    assert ([item] + rest)[1..] == rest;
  }

  lemma PrintedText(key: string, v: Value, text: string, description: Option<string>)
    requires Printed(v) == text
    ensures ItemLines(Item(key, v, description, None)) ==
      (if description.Some? then ["; " + description.value] else []) + [key + " = " + text] +
      (if v == StrArray([]) || v == IntArray([]) then [] else [""])
  {}

  lemma PrintedValues()
    ensures Printed(Int(-80)) == "-80" && Printed(Bool(true)) == "true" && Printed(Bool(false)) == "false"
    ensures Printed(StrArray(["a", "b"])) == "a,b" && Printed(IntArray([7])) == "7" && Printed(IntArray([])) == ""
    ensures Printed(Str(None)) == "" && Printed(Str(Some("x y"))) == "x y"
  {
    DigitsMeaning(80);
    DigitsMeaning(8);
    DigitsMeaning(7);
  }

  function ExampleItems(): seq<Item> {
    [Item("port", Int(-80), Some("where"), None), Item("tls", Bool(true), None, None),
     Item("hosts", StrArray(["a", "b"]), None, None), Item("none", IntArray([]), None, None)]
  }

  lemma ExampleLines()
    ensures AllItemLines(ExampleItems()) ==
      ["; where", "port = -80", ""] + ["tls = true", ""] + ["hosts = a,b", ""] + ["none = "]
  {
    hide ItemLines, Printed, AllItemLines;
    var items := ExampleItems();
    PrintedValues();
    PrintedText("port", Int(-80), "-80", Some("where"));
    PrintedText("tls", Bool(true), "true", None);
    PrintedText("hosts", StrArray(["a", "b"]), "a,b", None);
    PrintedText("none", IntArray([]), "", None);
    FourItems(items[0], items[1], items[2], items[3]);
    assert "; " + "where" == "; where" && "port" + " = " + "-80" == "port = -80";
    assert "tls" + " = " + "true" == "tls = true";
    assert "hosts" + " = " + "a,b" == "hosts = a,b" && "none" + " = " + "" == "none = ";
    assert ItemLines(items[0]) == ["; where", "port = -80", ""] && ItemLines(items[1]) == ["tls = true", ""];
    assert ItemLines(items[2]) == ["hosts = a,b", ""] && ItemLines(items[3]) == ["none = "];
  }

  lemma ExampleSections()
    ensures AllSectionLines([Section("net", ExampleItems()), Section("empty", [])]) ==
      ["[net]"] + (["; where", "port = -80", ""] + ["tls = true", ""] + ["hosts = a,b", ""] + ["none = "]) + [""]
  {
    hide AllItemLines;
    ExampleLines();
    var s, e := Section("net", ExampleItems()), Section("empty", []);
    assert "[" + "net" + "]" == "[net]";
    assert SectionLines(s) == ["[net]"] + AllItemLines(s.items) + [""];
    assert [s, e][1..] == [e] && AllSectionLines([e]) == [];
  }

  /** What a file looks like, line by line: an empty list has no blank line of its own, an empty section no lines. */
  lemma ExampleFile(stamp: string)
    ensures FileLines([Section("net", ExampleItems()), Section("empty", [])], stamp) ==
      ["; " + "Secure Chat Configuration File", "; " + ("Generated at: " + stamp), "", ""] +
      (["[net]"] + (["; where", "port = -80", ""] + ["tls = true", ""] + ["hosts = a,b", ""] + ["none = "]) + [""])
  {
    hide AllSectionLines, ExampleItems;
    ExampleSections();
  }

  lemma FourItems(a: Item, b: Item, c: Item, d: Item)
    ensures AllItemLines([a, b, c, d]) == ItemLines(a) + ItemLines(b) + ItemLines(c) + ItemLines(d)
  {
    hide ItemLines, AllItemLines;
    FirstItemLines(a, [b, c, d]);
    FirstItemLines(b, [c, d]);
    FirstItemLines(c, [d]);
    FirstItemLines(d, []);
    NoItemLines();
    assert [a, b, c, d] == [a] + [b, c, d] && [b, c, d] == [b] + [c, d] && [c, d] == [c] + [d] && [d] == [d] + [];
  }

  lemma NoItemLines()
    ensures AllItemLines([]) == []
  {}

  class ConfigManager {
    var sections: seq<Section>

    constructor (sections: seq<Section>)
      ensures this.sections == sections
    {
      this.sections := sections;
    }

    /** find_item_in_section after the section search: the loops of the source. */
    method FindItem(section: string, key: string) returns (found: bool, i: nat, j: nat)
      ensures found <==> Registered(sections, section, key)
      ensures found ==> i == SectionIndex(sections, section) && i < |sections| && j == ItemIndex(sections[i].items, key)
    {
      i, j, found := 0, 0, false;
      while i < |sections| && sections[i].name != section
        invariant i <= |sections| && forall k :: 0 <= k < i ==> sections[k].name != section
      {
        i := i + 1;
      }
      if i == |sections| { return; }
      while j < |sections[i].items| && sections[i].items[j].key != key
        invariant j <= |sections[i].items| && forall k :: 0 <= k < j ==> sections[i].items[k].key != key
      {
        j := j + 1;
      }
      found := j < |sections[i].items|;
    }

    /** The section of that name, made at the end of the table if there is none; its stored name is cut. */
    method FindOrCreateSection(name: string) returns (i: nat)
      modifies this
      ensures i == SectionIndex(old(sections), name) && sections == WithSection(old(sections), name)
      ensures i < |sections|
    {
      i := 0;
      while i < |sections| && sections[i].name != name
        invariant i <= |sections| && forall k :: 0 <= k < i ==> sections[k].name != name
      {
        i := i + 1;
      }
      if i == |sections| {
        sections := sections + [Section(Cut(name), [])];
      }
    }

    method RegisterString(section: string, key: string, default: Option<string>, description: Option<string>,
      callback: Option<string -> bool>)
      returns (added: bool)
      modifies this
      ensures added == !Registered(old(sections), section, key)
      ensures sections == Register(old(sections), section, Item(key, Str(default), description, callback))
    {
      var i := FindOrCreateSection(section);
      var items := sections[i].items;
      var j := 0;
      while j < |items| && items[j].key != key
        invariant j <= |items| && forall k :: 0 <= k < j ==> items[k].key != key
      {
        j := j + 1;
      }
      if j < |items| { return false; }
      sections := sections[i := sections[i].(items := items + [Item(Cut(key), Str(default), description, callback)])];
      return true;
    }

    method ParseConfigFile(text: string)
      modifies this
      ensures sections == ApplyAll(old(sections), Assignments("default", Lines(text)))
    {
      hide Meant, Apply, ApplyAll, Assignments;
      var rest, currentSection := text, "default";
      while rest != []
        invariant ApplyAll(sections, Assignments(currentSection, Lines(rest))) ==
          ApplyAll(old(sections), Assignments("default", Lines(text)))
        decreases |rest|
      {
        var n := LineEnd(rest, 0);
        var line := rest[..n];
        LineByLine(sections, currentSection, line, Lines(rest[n..]));
        match Meant(line) {
          case Nothing =>
          case SectionLine(name) => currentSection := name;
          case Assign(key, value) => AssignItem(currentSection, key, value);
        }
        rest := rest[n..];
      }
      NothingLeft(sections, currentSection);
    }

    method AssignItem(section: string, key: string, text: string)
      modifies this
      ensures sections == Apply(old(sections), Assignment(section, key, text))
    {
      var found, i, j := FindItem(section, key);
      if found && Valid(sections[i].items[j], text) {
        var item := ConvertStringToValue(sections[i].items[j], text);
        sections := Update(sections, i, j, item);
      }
    }

    method WriteConfigFile(stamp: string) returns (out: string)
      ensures out == TextOf(FileLines(sections, stamp))
    {
      hide SectionLines;
      out := "; " + "Secure Chat Configuration File" + "\n";
      out := out + ("; " + ("Generated at: " + stamp) + "\n" + "\n") + "\n";
      ghost var done := Preamble(stamp);
      PreambleText(stamp);
      for i := 0 to |sections|
        invariant out == TextOf(done) && done + AllSectionLines(sections[i..]) == FileLines(sections, stamp)
      {
        assert sections[i..][1..] == sections[i + 1..];
        var text := WriteSection(sections[i]);
        out := out + text;
        TextAppend(done, SectionLines(sections[i]));
        assert done + (SectionLines(sections[i]) + AllSectionLines(sections[i + 1..]))
            == done + SectionLines(sections[i]) + AllSectionLines(sections[i + 1..]);
        done := done + SectionLines(sections[i]);
      }
      assert sections[|sections|..] == [] && done + [] == done;
    }

    static method WriteSection(s: Section) returns (out: string)
      ensures out == TextOf(SectionLines(s))
    {
      hide ItemLines;
      out := "";
      if s.items == [] { return; }
      ghost var done := ["[" + s.name + "]"];
      out := "[" + s.name + "]" + "\n";
      TextOfOne(done[0]);
      for j := 0 to |s.items|
        invariant out == TextOf(done) &&
          done + AllItemLines(s.items[j..]) == ["[" + s.name + "]"] + AllItemLines(s.items)
      {
        assert s.items[j..][1..] == s.items[j + 1..];
        var text := WriteItem(s.items[j]);
        out := out + text;
        TextAppend(done, ItemLines(s.items[j]));
        assert done + (ItemLines(s.items[j]) + AllItemLines(s.items[j + 1..])) ==
          done + ItemLines(s.items[j]) + AllItemLines(s.items[j + 1..]);
        done := done + ItemLines(s.items[j]);
      }
      assert s.items[|s.items|..] == [] && done + [] == done;
      out := out + "\n";
      TextOfOne("");
      TextAppend(done, [""]);
    }

    static method WriteItem(item: Item) returns (out: string)
      ensures out == TextOf(ItemLines(item))
    {
      out := "";
      if item.description.Some? {
        out := out + ("; " + item.description.value + "\n");
      }
      out := out + (item.key + " = ");
      out := out + Printed(item.value);
      if !EmptyArray(item.value) { out := out + "\n"; }
      out := out + "\n";
      ItemText(item);
    }
  }

  /** Reading a file and applying what it asks for can be done line by line. */
  lemma LineByLine(m: seq<Section>, c: string, line: string, rest: seq<string>)
    ensures ApplyAll(m, Assignments(c, [line] + rest)) == ApplyAll(
      if Meant(line).Assign? then Apply(m, Assignment(c, Meant(line).key, Meant(line).text)) else m,
      Assignments(SectionAfter(c, Meant(line)), rest))
  {
    hide Meant, Apply;
    assert ([line] + rest)[1..] == rest;
    var asked, more := Asked(c, Meant(line)), Assignments(SectionAfter(c, Meant(line)), rest);
    if asked == [] {
      assert asked + more == more;
    } else {
      assert (asked + more)[1..] == more;
    }
  }

  lemma NothingLeft(m: seq<Section>, c: string)
    ensures ApplyAll(m, Assignments(c, Lines(""))) == m
  {}

  lemma TextOfOne(line: string)
    ensures TextOf([line]) == line + "\n"
  {}

  lemma PreambleText(stamp: string)
    ensures TextOf(Preamble(stamp)) ==
      "; " + "Secure Chat Configuration File" + "\n" + ("; " + ("Generated at: " + stamp) + "\n" + "\n") + "\n"
  {
    FourLines("; " + "Secure Chat Configuration File", "; " + ("Generated at: " + stamp));
  }

  lemma FourLines(a: string, b: string)
    ensures TextOf([a, b, "", ""]) == a + "\n" + (b + "\n" + "\n") + "\n"
  {
    hide TextOf;
    TextOfOne(a);
    TextOfOne(b);
    TextOfOne("");
    TextAppend([a], [b]);
    TextAppend([a] + [b], [""]);
    TextAppend([a] + [b] + [""], [""]);
    assert [a, b, "", ""] == [a] + [b] + [""] + [""];
  }

  lemma ItemText(item: Item)
    ensures TextOf(ItemLines(item)) == (if item.description.Some? then "; " + item.description.value + "\n" else "")
      + (item.key + " = ") + Printed(item.value) + (if EmptyArray(item.value) then "" else "\n") + "\n"
  {
    hide Printed, EmptyArray;
    var head := if item.description.Some? then ["; " + item.description.value] else [];
    var line := item.key + " = " + Printed(item.value);
    var tail := if EmptyArray(item.value) then [] else [""];
    if item.description.Some? { TextOfOne(head[0]); }
    TextOfOne(line);
    TextOfOne("");
    TextAppend(head, [line]);
    TextAppend(head + [line], tail);
  }

  // ----- The last valid assignment wins -----

  predicate Names(item: Item, section: string, a: Assignment) {
    a.section == section && a.key == item.key && Valid(item, a.text)
  }

  /** The text of the last assignment that names the item and passes its check. */
  function LastValid(item: Item, section: string, all: seq<Assignment>): Option<string>
    decreases |all|
  {
    if all == [] then None
    else
      match LastValid(item, section, all[1..])
      case Some(text) => Some(text)
      case None => if Names(item, section, all[0]) then Some(all[0].text) else None
  }

  predicate IsLast(item: Item, section: string, all: seq<Assignment>, k: nat)
    requires k < |all|
  {
    Names(item, section, all[k]) && forall l :: k < l < |all| ==> !Names(item, section, all[l])
  }

  lemma {:induction false} LastValidMeaning(item: Item, section: string, all: seq<Assignment>)
    ensures LastValid(item, section, all) == None <==> forall a :: a in all ==> !Names(item, section, a)
    ensures forall k: nat :: k < |all| && IsLast(item, section, all, k) ==>
      LastValid(item, section, all) == Some(all[k].text)
    decreases |all|
  {
    hide Names;
    if all != [] {
      LastValidMeaning(item, section, all[1..]);
      assert all == [all[0]] + all[1..];
      forall k: nat | k < |all| && IsLast(item, section, all, k)
        ensures LastValid(item, section, all) == Some(all[k].text)
      {
        if k > 0 {
          assert all[1..][k - 1] == all[k];
          assert forall l :: k - 1 < l < |all[1..]| ==> all[1..][l] == all[l + 1];
          assert IsLast(item, section, all[1..], k - 1);
        } else {
          assert forall a :: a in all[1..] ==> exists l :: 0 < l < |all| && all[l] == a;
        }
      }
    }
  }

  predicate SameKind(v: Value, w: Value) {
    match v
    case Str(_) => w.Str?
    case Int(_) => w.Int?
    case Bool(_) => w.Bool?
    case StrArray(_) => w.StrArray?
    case IntArray(_) => w.IntArray?
  }

  /** Two item tables that differ in values only. */
  ghost predicate SameShape(m: seq<Section>, n: seq<Section>) {
    |m| == |n| && forall i :: 0 <= i < |m| ==> SameItems(m[i], n[i])
  }

  ghost predicate SameItems(a: Section, b: Section) {
    a.name == b.name && |a.items| == |b.items| && forall j :: 0 <= j < |a.items| ==> SameItem(a.items[j], b.items[j])
  }

  ghost predicate SameItem(a: Item, b: Item) {
    a.key == b.key && a.callback == b.callback && SameKind(a.value, b.value)
  }

  /** What happens to an item depends on its name, its check and its type, not on the value it holds. */
  lemma {:induction false} OnlyShapeMatters(a: Item, b: Item, section: string, all: seq<Assignment>, text: string)
    requires SameItem(a, b)
    ensures Valid(a, text) == Valid(b, text) && Convert(a.value, text) == Convert(b.value, text)
    ensures LastValid(a, section, all) == LastValid(b, section, all)
    ensures SameItem(a, b.(value := Convert(b.value, text)))
    decreases |all|
  {
    if all != [] {
      OnlyShapeMatters(a, b, section, all[1..], text);
      OnlyShapeMatters(a, b, section, [], all[0].text);
    }
  }

  predicate Findable(m: seq<Section>, i: nat, j: nat)
    requires i < |m| && j < |m[i].items|
  {
    SectionIndex(m, m[i].name) == i && ItemIndex(m[i].items, m[i].items[j].key) == j
  }

  function FinalItem(m: seq<Section>, i: nat, j: nat, all: seq<Assignment>): Item
    requires i < |m| && j < |m[i].items|
  {
    var item := m[i].items[j];
    if !Findable(m, i, j) then item
    else
      match LastValid(item, m[i].name, all)
      case None => item
      case Some(text) => item.(value := Convert(item.value, text))
  }

  lemma {:induction false} SectionIndexByName(m: seq<Section>, n: seq<Section>, name: string)
    requires |m| == |n| && forall i :: 0 <= i < |m| ==> m[i].name == n[i].name
    ensures SectionIndex(m, name) == SectionIndex(n, name)
    decreases |m|
  {}

  lemma SameFinding(m: seq<Section>, n: seq<Section>, i: nat, j: nat)
    requires SameShape(m, n) && i < |m| && j < |m[i].items|
    ensures j < |n[i].items| && Findable(m, i, j) == Findable(n, i, j)
  {}

  /** One assignment changes at most the one item it names. */
  lemma ApplyOne(m: seq<Section>, a: Assignment, i: nat, j: nat)
    requires i < |m| && j < |m[i].items|
    ensures SameShape(m, Apply(m, a))
    ensures j < |Apply(m, a)[i].items|
    ensures Apply(m, a)[i].items[j] == if Findable(m, i, j) && Names(m[i].items[j], m[i].name, a)
      then m[i].items[j].(value := Convert(m[i].items[j].value, a.text)) else m[i].items[j]
  {}

  lemma {:induction false} ShapeChain(m: seq<Section>, n: seq<Section>, p: seq<Section>)
    requires SameShape(m, n) && SameShape(n, p)
    ensures SameShape(m, p)
  {}

  /**
   * Main result: after any list of assignments, an item that can be found by name holds its last
   * valid assignment, or what it held if there was none; one that is shadowed is untouched.
   */
  lemma {:induction false} LastValidWins(m: seq<Section>, all: seq<Assignment>, i: nat, j: nat)
    requires i < |m| && j < |m[i].items|
    ensures SameShape(m, ApplyAll(m, all))
    ensures j < |ApplyAll(m, all)[i].items| && ApplyAll(m, all)[i].items[j] == FinalItem(m, i, j, all)
    decreases |all|
  {
    hide Apply, Findable, Names, Valid, Convert, SameItem;
    if all == [] {
      ShapeOfItself(m);
    } else {
      var n := Apply(m, all[0]);
      ApplyOne(m, all[0], i, j);
      LastValidWins(n, all[1..], i, j);
      ShapeChain(m, n, ApplyAll(m, all));
      SameFinding(m, n, i, j);
      assert SameItems(m[i], n[i]);
      assert SameItem(m[i].items[j], n[i].items[j]);
      var last := LastValid(n[i].items[j], m[i].name, all[1..]);
      OnlyShapeMatters(m[i].items[j], n[i].items[j], m[i].name, all[1..], if last.Some? then last.value else "");
    }
  }

  lemma ShapeOfItself(m: seq<Section>)
    ensures SameShape(m, m)
  {}

  // ----- Printing and reading back -----

  /** The part of a key that keeps its line from being read as something else. */
  predicate PlainKey(item: Item) {
    var key, last := item.key, Trim(Printed(item.value));
    && key != "" && Trim(key) == key && '=' !in key
    && key[0] != ';' && key[0] != '#'
    && !(key[0] == '[' && last != "" && last[|last| - 1] == ']')
  }

  predicate PlainItem(item: Item) {
    && PlainKey(item)
    && OneLine(item.key + " = " + Printed(item.value))
    && (item.description.Some? ==> OneLine("; " + item.description.value))
  }

  ghost predicate PlainSection(s: Section) {
    s.items != [] ==>
      && s.name != "" && |s.name| <= MAX_SECTION && '\n' !in s.name && TrimInPlace(s.name) == s.name
      && forall item :: item in s.items ==> PlainItem(item)
  }

  ghost predicate Plain(m: seq<Section>, stamp: string) {
    OneLine("; " + ("Generated at: " + stamp)) && forall s :: s in m ==> PlainSection(s)
  }

  lemma MeantWithoutNewline(line: string)
    ensures Meant(line + "\n") == Meant(line)
  {
    hide Trim, TrimInPlace, IndexOf, Cut;
    TrimIgnoresMargins("", line, "\n");
    assert "" + line + "\n" == line + "\n";
  }

  lemma {:induction false} AssignmentsOfEnded(c: string, lines: seq<string>)
    ensures Assignments(c, Ended(lines)) == Assignments(c, lines)
    decreases |lines|
  {
    hide Meant;
    if lines != [] {
      MeantWithoutNewline(lines[0]);
      AssignmentsOfEnded(SectionAfter(c, Meant(lines[0])), lines[1..]);
    }
  }

  lemma SkipStops(s: string)
    requires s != "" && !IsSpace(s[0])
    ensures SkipBlanks(s) == s
  {}

  lemma CommentMeansNothing(text: string)
    ensures Meant("; " + text) == Nothing
  {
    hide SkipBlanks, CutBlanks, IndexOf, TrimInPlace, Cut;
    SkipStops("; " + text);
    CutAppend(";", " " + text);
    CutStops(";");
    assert "; " + text == ";" + (" " + text);
    assert Trim("; " + text)[0] == ';';
  }

  lemma BlankMeansNothing()
    ensures Meant("") == Nothing
  {}

  lemma SectionLineMeant(name: string)
    requires name != "" && |name| <= MAX_SECTION && TrimInPlace(name) == name
    ensures Meant("[" + name + "]") == SectionLine(name)
  {}

  /** Trimming the printed line keeps the key, and the value without its margins. */
  lemma PrintedLineTrimmed(key: string, v: string)
    requires key != "" && Trim(key) == key
    ensures Trim(key + " = " + v) == key + " =" + (if Blank(v) then "" else " " + CutBlanks(v))
  {
    hide SkipBlanks, CutBlanks;
    TrimmedAlready(key);
    var t := key + " = " + v;
    SkipStops(t);
    if Blank(v) {
      assert t == key + " =" + (" " + v);
      CutAppend(key + " =", " " + v);
      CutStops(key + " =");
    } else {
      assert t == key + " = " + v;
      CutAppend(key + " = ", v);
      assert key + " = " + CutBlanks(v) == key + " =" + (" " + CutBlanks(v));
    }
  }

  lemma ValueTrimmed(v: string)
    ensures Trim(if Blank(v) then "" else " " + CutBlanks(v)) == Trim(v)
  {
    SkipOfBlank(v);
    if !Blank(v) {
      TrimIgnoresMargins(" ", CutBlanks(v), "");
      assert " " + CutBlanks(v) + "" == " " + CutBlanks(v);
      CutThenSkip(v);
    }
  }

  /** It does not matter from which end a string is trimmed first. */
  lemma {:induction false} CutThenSkip(v: string)
    ensures Trim(CutBlanks(v)) == Trim(v)
    decreases |v|
  {
    if v != "" && IsSpace(v[|v| - 1]) {
      var w := v[..|v| - 1];
      CutThenSkip(w);
      TrimIgnoresMargins("", w, [v[|v| - 1]]);
      assert "" + w + [v[|v| - 1]] == v;
    }
  }

  /** A line that trims to a key, an equals sign and a tail, and looks like neither a comment nor a section. */
  lemma AssignmentMeant(line: string, key: string, tail: string)
    requires Trim(line) == key + " =" + tail && key != "" && Trim(key) == key && '=' !in key
    requires key[0] != ';' && key[0] != '#' && !(key[0] == '[' && tail != "" && tail[|tail| - 1] == ']')
    ensures Meant(line) == Assign(key, Trim(tail))
  {
    hide Trim, TrimInPlace, IndexOf;
    var t := key + " =" + tail;
    assert t == (key + " ") + ['='] + tail;
    IndexAfter(key + " ", '=', tail);
    assert t[..|key| + 1] == key + " " && t[|key| + 2..] == tail;
    TrimIgnoresMargins("", key, " ");
    assert "" + key + " " == key + " ";
    assert t[|t| - 1] == if tail == "" then '=' else tail[|tail| - 1];
  }

  lemma ItemLineMeant(item: Item)
    requires PlainKey(item)
    ensures Meant(item.key + " = " + Printed(item.value)) == Assign(item.key, Trim(Printed(item.value)))
  {
    hide Printed, Meant, CutBlanks, SkipBlanks, Trim;
    var key, v := item.key, Printed(item.value);
    var tail := if Blank(v) then "" else " " + CutBlanks(v);
    PrintedLineTrimmed(key, v);
    ValueTrimmed(v);
    LastOfTrimmed(v);
    AssignmentMeant(key + " = " + v, key, tail);
  }

  /** A value that is not blank ends, once trimmed, as it ends once its right margin is cut. */
  lemma LastOfTrimmed(v: string)
    ensures !Blank(v) ==> Trim(v) != "" && CutBlanks(v) != ""
    ensures !Blank(v) ==> Trim(v)[|Trim(v)| - 1] == CutBlanks(v)[|CutBlanks(v)| - 1]
  {
    SkipIsSuffix(v);
    var s := SkipBlanks(v);
    var front := v[..|v| - |s|];
    assert v == front + s;
    SkipOfBlank(v);
    if !Blank(v) {
      SkipAppend(front, s);
      CutAppend(front, s);
      SkipKeepsText(v);
      assert s != "" && !IsSpace(s[0]);
      CutNonBlank(s);
    }
  }

  lemma {:induction false} SkipKeepsText(v: string)
    ensures SkipBlanks(v) != "" ==> !IsSpace(SkipBlanks(v)[0])
    decreases |v|
  {
    if v != "" && IsSpace(v[0]) { SkipKeepsText(v[1..]); }
  }

  lemma CutNonBlank(s: string)
    requires s != "" && !IsSpace(s[0])
    ensures CutBlanks(s) != ""
  {}

  // ----- What a written file asks for -----

  function ItemAssignments(section: string, items: seq<Item>): seq<Assignment> {
    if items == [] then []
    else [Assignment(section, items[0].key, Trim(Printed(items[0].value)))] + ItemAssignments(section, items[1..])
  }

  function AllAssignments(m: seq<Section>): seq<Assignment> {
    if m == [] then [] else ItemAssignments(m[0].name, m[0].items) + AllAssignments(m[1..])
  }

  lemma FirstLine(c: string, line: string, rest: seq<string>)
    ensures Assignments(c, [line] + rest) == Asked(c, Meant(line)) + Assignments(SectionAfter(c, Meant(line)), rest)
  {}

  lemma ItemLinesMean(c: string, item: Item, rest: seq<string>)
    requires PlainItem(item)
    ensures Assignments(c, ItemLines(item) + rest) ==
      [Assignment(c, item.key, Trim(Printed(item.value)))] + Assignments(c, rest)
  {
    hide Printed, EmptyArray, Meant, PlainKey, Trim, Assignments;
    var line := item.key + " = " + Printed(item.value);
    var tail := if EmptyArray(item.value) then [] else [""];
    ItemLineMeant(item);
    FirstLine(c, line, tail + rest);
    BlankMeansNothing();
    FirstLine(c, "", rest);
    if item.description.Some? {
      CommentMeansNothing(item.description.value);
      FirstLine(c, "; " + item.description.value, [line] + (tail + rest));
      assert ItemLines(item) + rest == ["; " + item.description.value] + ([line] + (tail + rest));
    } else {
      assert ItemLines(item) + rest == [line] + (tail + rest);
    }
    assert [] + rest == rest;
  }

  lemma {:induction false} AllItemLinesMean(c: string, items: seq<Item>, rest: seq<string>)
    requires forall item :: item in items ==> PlainItem(item)
    ensures Assignments(c, AllItemLines(items) + rest) == ItemAssignments(c, items) + Assignments(c, rest)
    decreases |items|
  {
    hide PlainItem, ItemLines, Assignments, Trim, Printed;
    if items == [] {
      assert [] + rest == rest;
    } else {
      ItemLinesMean(c, items[0], AllItemLines(items[1..]) + rest);
      AllItemLinesMean(c, items[1..], rest);
      assert AllItemLines(items) + rest == ItemLines(items[0]) + (AllItemLines(items[1..]) + rest);
    }
  }

  lemma SectionLinesMean(c: string, s: Section, rest: seq<string>)
    requires PlainSection(s)
    ensures Assignments(c, SectionLines(s) + rest) ==
      ItemAssignments(s.name, s.items) + Assignments(if s.items == [] then c else s.name, rest)
  {
    hide PlainItem, Meant, TrimInPlace, Trim, Printed, Assignments, AllItemLines;
    if s.items == [] {
      assert [] + rest == rest;
    } else {
      SectionLineMeant(s.name);
      FirstLine(c, "[" + s.name + "]", AllItemLines(s.items) + ([""] + rest));
      AllItemLinesMean(s.name, s.items, [""] + rest);
      BlankMeansNothing();
      FirstLine(s.name, "", rest);
      assert SectionLines(s) + rest == ["[" + s.name + "]"] + (AllItemLines(s.items) + ([""] + rest));
    }
  }

  lemma {:induction false} AllSectionLinesMean(c: string, m: seq<Section>)
    requires forall s :: s in m ==> PlainSection(s)
    ensures Assignments(c, AllSectionLines(m)) == AllAssignments(m)
    decreases |m|
  {
    hide PlainSection, Meant, SectionLines, ItemAssignments;
    if m != [] {
      SectionLinesMean(c, m[0], AllSectionLines(m[1..]));
      AllSectionLinesMean(if m[0].items == [] then c else m[0].name, m[1..]);
    }
  }

  lemma {:induction false} ItemLinesShort(items: seq<Item>)
    requires forall item :: item in items ==> PlainItem(item)
    ensures forall l :: l in AllItemLines(items) ==> OneLine(l)
    decreases |items|
  {
    hide PlainKey, Printed;
    if items != [] {
      assert items[0] in items;
      ItemLinesShort(items[1..]);
    }
  }

  lemma {:induction false} SectionLinesShort(m: seq<Section>)
    requires forall s :: s in m ==> PlainSection(s)
    ensures forall l :: l in AllSectionLines(m) ==> OneLine(l)
    decreases |m|
  {
    hide PlainItem, TrimInPlace;
    if m != [] {
      assert m[0] in m;
      if m[0].items != [] { ItemLinesShort(m[0].items); }
      SectionLinesShort(m[1..]);
    }
  }

  lemma CommentLine(c: string, text: string, rest: seq<string>)
    ensures Assignments(c, ["; " + text] + rest) == Assignments(c, rest)
  {
    hide Meant, Assignments;
    CommentMeansNothing(text);
    FirstLine(c, "; " + text, rest);
  }

  lemma BlankLine(c: string, rest: seq<string>)
    ensures Assignments(c, [""] + rest) == Assignments(c, rest)
  {}

  lemma PreambleMeans(stamp: string, rest: seq<string>)
    ensures Assignments("default", Preamble(stamp) + rest) == Assignments("default", rest)
  {
    hide Assignments;
    var a, b := "Secure Chat Configuration File", "Generated at: " + stamp;
    assert Preamble(stamp) + rest == ["; " + a] + (["; " + b] + ([""] + ([""] + rest)));
    CommentLine("default", a, ["; " + b] + ([""] + ([""] + rest)));
    CommentLine("default", b, [""] + ([""] + rest));
    BlankLine("default", [""] + rest);
    BlankLine("default", rest);
  }

  lemma FileLinesShort(m: seq<Section>, stamp: string)
    requires Plain(m, stamp)
    ensures forall l :: l in FileLines(m, stamp) ==> OneLine(l)
  {
    hide PlainSection, AllSectionLines;
    SectionLinesShort(m);
    forall l | l in Preamble(stamp) ensures OneLine(l) {
      assert l in {"; " + "Secure Chat Configuration File", "; " + ("Generated at: " + stamp), ""};
    }
  }

  /** A file written from plain items, read back, asks for exactly those items, in order. */
  lemma WrittenFileMeans(m: seq<Section>, stamp: string)
    requires Plain(m, stamp)
    ensures Assignments("default", Lines(TextOf(FileLines(m, stamp)))) == AllAssignments(m)
  {
    hide PlainSection, AllAssignments, AllSectionLines, Assignments, OneLine, Preamble;
    FileLinesShort(m, stamp);
    LinesReadBack(FileLines(m, stamp));
    AssignmentsOfEnded("default", FileLines(m, stamp));
    PreambleMeans(stamp, AllSectionLines(m));
    AllSectionLinesMean("default", m);
  }

  /** Every item can be found: section names differ, and so do the keys of a section. */
  ghost predicate AllFindable(m: seq<Section>) {
    forall i, j :: 0 <= i < |m| && 0 <= j < |m[i].items| ==> Findable(m, i, j)
  }

  predicate Holds(m: seq<Section>, a: Assignment, i: nat, j: nat) {
    i < |m| && j < |m[i].items| && a == Assignment(m[i].name, m[i].items[j].key, Trim(Printed(m[i].items[j].value)))
  }

  lemma {:induction false} ItemAssignmentsHold(section: string, items: seq<Item>)
    ensures |ItemAssignments(section, items)| == |items|
    ensures forall j :: 0 <= j < |items| ==>
      ItemAssignments(section, items)[j] == Assignment(section, items[j].key, Trim(Printed(items[j].value)))
    decreases |items|
  {
    hide Trim, Printed;
    if items != [] { ItemAssignmentsHold(section, items[1..]); }
  }

  lemma {:induction false} AssignmentsHold(m: seq<Section>)
    ensures forall a :: a in AllAssignments(m) ==> exists i: nat, j: nat :: Holds(m, a, i, j)
    ensures forall a, i: nat, j: nat :: Holds(m, a, i, j) ==> a in AllAssignments(m)
    decreases |m|
  {
    hide Trim, Printed, ItemAssignments;
    if m != [] {
      var mine := ItemAssignments(m[0].name, m[0].items);
      ItemAssignmentsHold(m[0].name, m[0].items);
      AssignmentsHold(m[1..]);
      forall a | a in AllAssignments(m) ensures exists i: nat, j: nat :: Holds(m, a, i, j) {
        if a in mine {
          var j :| 0 <= j < |mine| && mine[j] == a;
          assert Holds(m, a, 0, j);
        } else {
          assert a in AllAssignments(m[1..]);
          var i: nat, j: nat :| Holds(m[1..], a, i, j);
          assert Holds(m, a, i + 1, j);
        }
      }
      forall a, i: nat, j: nat | Holds(m, a, i, j) ensures a in AllAssignments(m) {
        if i == 0 {
          assert mine[j] == a;
        } else {
          assert Holds(m[1..], a, i - 1, j);
        }
      }
    }
  }

  /** If all assignments that name an item carry one text, and some assignment does, that text is the last. */
  lemma OneTextIsLast(item: Item, section: string, all: seq<Assignment>, text: string)
    requires forall a :: a in all && a.section == section && a.key == item.key ==> a.text == text
    requires Assignment(section, item.key, text) in all
    ensures LastValid(item, section, all) == if Valid(item, text) then Some(text) else None
    decreases |all|
  {
    hide Valid;
    LastValidMeaning(item, section, all);
    if Valid(item, text) {
      var a := Assignment(section, item.key, text);
      assert Names(item, section, a);
      SomeTextIsLast(item, section, all, text);
    }
  }

  lemma {:induction false} SomeTextIsLast(item: Item, section: string, all: seq<Assignment>, text: string)
    requires forall a :: a in all && a.section == section && a.key == item.key ==> a.text == text
    ensures LastValid(item, section, all) in {None, Some(text)}
    decreases |all|
  {
    hide Valid;
    if all != [] {
      assert all[0] in all;
      SomeTextIsLast(item, section, all[1..], text);
    }
  }

  function Offered(item: Item, text: string): Item {
    if Valid(item, text) then item.(value := Convert(item.value, text)) else item
  }

  /** Table n after reading the file written from table m. */
  function Reread(m: seq<Section>, n: seq<Section>, stamp: string): seq<Section> {
    ApplyAll(n, Assignments("default", Lines(TextOf(FileLines(m, stamp)))))
  }

  /**
   * Main result: reading what was written into a table of the same shape gives each item the
   * trimmed printed text of its counterpart, if its own check accepts that text.
   */
  lemma ReadWhatWasWritten(m: seq<Section>, n: seq<Section>, stamp: string, i: nat, j: nat)
    requires Plain(m, stamp) && SameShape(m, n) && AllFindable(m) && i < |m| && j < |m[i].items|
    ensures SameShape(n, Reread(m, n, stamp)) && j < |n[i].items| && j < |Reread(m, n, stamp)[i].items|
    ensures Reread(m, n, stamp)[i].items[j] == Offered(n[i].items[j], Trim(Printed(m[i].items[j].value)))
  {
    hide Plain, Valid, Convert, Trim, Printed, SameItem, FileLines, AllAssignments, Assignments, Findable;
    SameFinding(m, n, i, j);
    assert SameItems(m[i], n[i]) && SameItem(m[i].items[j], n[i].items[j]);
    SameItemKey(m[i].items[j], n[i].items[j]);
    var item, text, all := n[i].items[j], Trim(Printed(m[i].items[j].value)), AllAssignments(m);
    WrittenFileMeans(m, stamp);
    AssignmentsHold(m);
    assert Holds(m, Assignment(m[i].name, item.key, text), i, j);
    forall a | a in all && a.section == m[i].name && a.key == item.key ensures a.text == text {
      var k: nat, l: nat :| Holds(m, a, k, l);
      FindableIsUnique(m, i, j, k, l);
    }
    OneTextIsLast(item, m[i].name, all, text);
    LastValidWins(n, all, i, j);
  }

  lemma SameItemKey(a: Item, b: Item)
    requires SameItem(a, b)
    ensures a.key == b.key
  {}

  lemma FindableIsUnique(m: seq<Section>, i: nat, j: nat, k: nat, l: nat)
    requires AllFindable(m) && i < |m| && j < |m[i].items| && k < |m| && l < |m[k].items|
    requires m[i].name == m[k].name && m[i].items[j].key == m[k].items[l].key
    ensures i == k && j == l
  {
    assert Findable(m, i, j) && Findable(m, k, l);
  }

  // ----- Which values survive -----

  predicate CleanPart(p: string) {
    p != "" && ',' !in p && TrimInPlace(p) == p
  }

  /** Values whose printed form stands for them. */
  predicate Clean(v: Value) {
    match v
    case Str(None) => false
    case Str(Some(text)) => Trim(text) == text
    case Int(n) => IsInt(n)
    case Bool(_) => true
    case StrArray(parts) => (forall p :: p in parts ==> CleanPart(p)) && Trim(Join(parts)) == Join(parts)
    case IntArray(numbers) => forall n :: n in numbers ==> IsInt(n)
  }

  lemma {:induction false} JoinHasNoSpace(parts: seq<string>)
    requires forall p :: p in parts ==> NumberText(p)
    ensures forall i :: 0 <= i < |Join(parts)| ==> !IsSpace(Join(parts)[i])
    decreases |parts|
  {
    if |parts| == 1 {
      assert NumberText(parts[0]);
    } else if |parts| > 1 {
      assert NumberText(parts[0]);
      assert forall p :: p in parts[1..] ==> p in parts;
      JoinHasNoSpace(parts[1..]);
    }
  }

  lemma NumbersReadBack(numbers: seq<int>)
    requires forall n :: n in numbers ==> IsInt(n)
    ensures Trim(Join(DecimalList(numbers))) == Join(DecimalList(numbers))
    ensures Numbers(Tokens(Join(DecimalList(numbers)))) == numbers
  {
    hide Decimal, Trim, TrimInPlace, StrToL, ToInt, Tokens, Join, NumberText;
    var parts := DecimalList(numbers);
    forall i | 0 <= i < |parts|
      ensures NumberText(parts[i]) && parts[i] != "" && ',' !in parts[i] &&
        ToInt(StrToL(TrimInPlace(parts[i])).0) == numbers[i]
    {
      assert numbers[i] in numbers;
      DecimalIsPlain(numbers[i]);
      DecimalReadBack(numbers[i]);
      NumberTextFilled(parts[i]);
    }
    SplitUndoesJoin(parts);
    JoinHasNoSpace(parts);
    TrimmedAlready(Join(parts));
  }

  lemma NumberTextFilled(s: string)
    requires NumberText(s)
    ensures s != ""
  {}

  lemma BoolReadBack(b: bool)
    ensures var s := if b then "true" else "false";
      Trim(s) == s && BoolText(s) && (Lower(s) in {"true", "yes", "1"} <==> b)
  {
    var s := if b then "true" else "false";
    TrimmedAlready(s);
    assert Lower("true") == "true" && Lower("false") == "false";
  }

  lemma StringsReadBack(parts: seq<string>)
    requires forall p :: p in parts ==> CleanPart(p)
    ensures Trimmed(Tokens(Join(parts))) == parts
  {
    hide TrimInPlace, Tokens, Join;
    SplitUndoesJoin(parts);
    assert forall i :: 0 <= i < |parts| ==> CleanPart(parts[i]);
  }

  lemma NumbersAreInts(tokens: seq<string>)
    ensures forall n :: n in Numbers(tokens) ==> IsInt(n)
  {
    hide StrToL, TrimInPlace;
  }

  /** If the printed list reads back as itself, it was clean: nothing that is read is shorter than its text. */
  lemma OnlyCleanPartsReadBack(parts: seq<string>)
    requires Trimmed(Tokens(Trim(Join(parts)))) == parts
    ensures (forall p :: p in parts ==> CleanPart(p)) && Trim(Join(parts)) == Join(parts)
  {
    hide Trim, TrimInPlace, Tokens, Join;
    var text := Trim(Join(parts));
    var tokens := Tokens(text);
    TokensArePlain(text);
    forall i | 0 <= i < |parts| ensures CleanPart(parts[i]) && |parts[i]| <= |tokens[i]| {
      assert tokens[i] in tokens && parts[i] == TrimInPlace(tokens[i]);
      TrimInPlaceKeepsPlain(tokens[i]);
    }
    JoinOfTokens(text);
    JoinShrinks(tokens, parts);
    TrimShrinks(Join(parts));
  }

  lemma TrimInPlaceKeepsPlain(s: string)
    requires s != "" && ',' !in s
    ensures CleanPart(TrimInPlace(s)) && |TrimInPlace(s)| <= |s|
  {
    var t := TrimInPlace(s);
    SkipOfBlank(s);
    CutStops(s);
    if !Blank(s) {
      SkipKeepsText(s);
      SkipIsSuffix(s);
      LastOfTrimmed(s);
      CutStops(t);
    }
  }

  lemma {:induction false} JoinShrinks(a: seq<string>, b: seq<string>)
    requires |a| == |b| && forall i :: 0 <= i < |a| ==> |b[i]| <= |a[i]|
    ensures |Join(b)| <= |Join(a)|
    decreases |a|
  {
    if |a| > 1 { JoinShrinks(a[1..], b[1..]); }
  }

  lemma {:induction false} JoinOfTokens(s: string)
    ensures |Join(Tokens(s))| <= |s|
    decreases |s|
  {
    if s != "" {
      if s[0] == ',' {
        JoinOfTokens(s[1..]);
      } else {
        var k := IndexOf(s, ',');
        if s[k..] != "" { JoinOfTokens(s[k..][1..]); }
        JoinLonger(s[..k], s[k..]);
      }
    }
  }

  /** Behind a token comes the end or a comma, so there is room for the comma that joins. */
  lemma JoinLonger(token: string, rest: string)
    requires rest == "" || rest[0] == ','
    requires rest != "" ==> |Join(Tokens(rest[1..]))| <= |rest| - 1
    ensures |Join([token] + Tokens(rest))| <= |token| + |rest|
  {
    if rest != "" {
      var more := Tokens(rest[1..]);
      assert Tokens(rest) == more;
      assert ([token] + more)[1..] == more;
    }
  }

  lemma TrimShrinks(s: string)
    ensures |Trim(s)| <= |s| && (|Trim(s)| == |s| ==> Trim(s) == s)
  {
    SkipIsSuffix(s);
    CutStops(SkipBlanks(s));
  }

  lemma DecimalRead(v: int)
    ensures Trim(Decimal(v)) == Decimal(v) && StrToL(Decimal(v)) == (Clamp(v), "")
  {
    hide Decimal, StrToL;
    DecimalIsPlain(v);
    DecimalReadBack(v);
  }

  /** A printed value passes the check of its type, and converts back to itself exactly when it is clean. */
  lemma CleanReadsBack(item: Item, v: Value)
    requires SameKind(v, item.value)
    ensures item.callback.None? ==> Valid(item, Trim(Printed(v)))
    ensures Convert(item.value, Trim(Printed(v))) == v <==> Clean(v)
  {
    hide Trim, StrToL, Decimal, Join, Tokens, BoolText, TrimInPlace;
    match v
    case Str(_) =>
    case Int(n) =>
      DecimalRead(n);
      DecimalReadBack(n);
    case Bool(b) => BoolReadBack(b);
    case StrArray(parts) =>
      if Clean(v) { StringsReadBack(parts); }
      if Trimmed(Tokens(Trim(Join(parts)))) == parts { OnlyCleanPartsReadBack(parts); }
    case IntArray(numbers) =>
      if Clean(v) { NumbersReadBack(numbers); }
      NumbersAreInts(Tokens(Trim(Join(DecimalList(numbers)))));
  }

  /**
   * Main result: writing a table and reading the file into any table of the same shape restores an
   * item exactly when its value is clean: any 32-bit int, any bool, any list of 32-bit ints, a string
   * or a list of parts without blanks at the ends, empty parts, or commas.
   */
  lemma RoundTrip(m: seq<Section>, n: seq<Section>, stamp: string, i: nat, j: nat)
    requires Plain(m, stamp) && SameShape(m, n) && AllFindable(m) && i < |m| && j < |m[i].items|
    requires m[i].items[j].callback.Some? ==> m[i].items[j].callback.value(Trim(Printed(m[i].items[j].value)))
    ensures SameShape(n, Reread(m, n, stamp)) && j < |Reread(m, n, stamp)[i].items|
    ensures Reread(m, n, stamp)[i].items[j].value == m[i].items[j].value <==> Clean(m[i].items[j].value)
  {
    hide Plain, Clean, Convert, Trim, Printed, Reread, Findable;
    ReadWhatWasWritten(m, n, stamp, i, j);
    assert SameItems(m[i], n[i]) && SameItem(m[i].items[j], n[i].items[j]);
    CleanReadsBack(n[i].items[j], m[i].items[j].value);
  }

  /** A string without a check of its own comes back exactly when it has no blank at either end. */
  lemma StringSurvives(m: seq<Section>, n: seq<Section>, stamp: string, i: nat, j: nat, s: string)
    requires Plain(m, stamp) && SameShape(m, n) && AllFindable(m) && i < |m| && j < |m[i].items|
    requires m[i].items[j].value == Str(Some(s)) && m[i].items[j].callback.None?
    ensures SameShape(n, Reread(m, n, stamp)) && j < |Reread(m, n, stamp)[i].items|
    ensures Reread(m, n, stamp)[i].items[j].value == Str(Some(s)) <==>
      s == "" || (!IsSpace(s[0]) && !IsSpace(s[|s| - 1]))
  {
    hide Plain, Trim, Reread, Findable;
    ReadWhatWasWritten(m, n, stamp, i, j);
    assert SameItems(m[i], n[i]) && SameItem(m[i].items[j], n[i].items[j]);
    TrimmedAlready(s);
  }

  // ----- Registering -----

  /** Section names differ, and so do the keys of each section. */
  ghost predicate Distinct(m: seq<Section>) {
    && (forall i :: 0 <= i < |m| ==> SectionIndex(m, m[i].name) == i)
    && (forall i :: 0 <= i < |m| ==> DistinctKeys(m[i].items))
  }

  ghost predicate DistinctKeys(items: seq<Item>) {
    forall j :: 0 <= j < |items| ==> ItemIndex(items, items[j].key) == j
  }

  lemma DistinctIsFindable(m: seq<Section>)
    requires Distinct(m)
    ensures AllFindable(m)
  {}

  lemma {:induction false} SectionIndexAppend(m: seq<Section>, s: Section, name: string)
    ensures SectionIndex(m + [s], name) ==
      if SectionIndex(m, name) < |m| then SectionIndex(m, name) else if s.name == name then |m| else |m| + 1
    decreases |m|
  {
    if m != [] {
      assert (m + [s])[1..] == m[1..] + [s];
      SectionIndexAppend(m[1..], s, name);
    }
  }

  lemma {:induction false} ItemIndexAppend(items: seq<Item>, item: Item, key: string)
    ensures ItemIndex(items + [item], key) ==
      if ItemIndex(items, key) < |items| then ItemIndex(items, key)
      else if item.key == key then |items| else |items| + 1
    decreases |items|
  {
    if items != [] {
      assert (items + [item])[1..] == items[1..] + [item];
      ItemIndexAppend(items[1..], item, key);
    }
  }

  lemma SectionAdded(m: seq<Section>, name: string)
    requires Distinct(m)
    ensures Distinct(WithSection(m, name)) <==> SectionIndex(m, name) < |m| || SectionIndex(m, Cut(name)) == |m|
  {
    var s := Section(Cut(name), []);
    var n := m + [s];
    forall k | 0 <= k < |m| ensures SectionIndex(n, n[k].name) == k { SectionIndexAppend(m, s, m[k].name); }
    SectionIndexAppend(m, s, s.name);
    assert n[|m|] == s;
  }

  lemma ItemAdded(items: seq<Item>, item: Item)
    requires DistinctKeys(items)
    ensures DistinctKeys(items + [item]) <==> ItemIndex(items, item.key) == |items|
  {
    var all := items + [item];
    forall k | 0 <= k < |items| ensures ItemIndex(all, all[k].key) == k { ItemIndexAppend(items, item, items[k].key); }
    ItemIndexAppend(items, item, item.key);
    assert all[|items|] == item;
  }

  lemma ItemsReplaced(m: seq<Section>, i: nat, items: seq<Item>)
    requires Distinct(m) && i < |m|
    ensures Distinct(m[i := m[i].(items := items)]) <==> DistinctKeys(items)
  {
    var n := m[i := m[i].(items := items)];
    forall k | 0 <= k < |m| ensures SectionIndex(n, n[k].name) == k { SectionIndexByName(m, n, m[k].name); }
    assert n[i].items == items;
  }

  /** Whether the cut names of a new item are still free where they are stored. */
  predicate Fits(m: seq<Section>, section: string, key: string) {
    var i := SectionIndex(m, section);
    && (i < |m| || SectionIndex(m, Cut(section)) == |m|)
    && (i < |m| ==> ItemIndex(m[i].items, key) < |m[i].items| || ItemIndex(m[i].items, Cut(key)) == |m[i].items|)
  }

  /**
   * Registering keeps all names apart exactly when the cut names are free; names of at most 63
   * characters always are.
   */
  lemma RegisterKeepsDistinct(m: seq<Section>, section: string, item: Item)
    requires Distinct(m)
    ensures Distinct(Register(m, section, item)) <==> Fits(m, section, item.key)
    ensures |section| <= MAX_SECTION && |item.key| <= MAX_SECTION ==> Fits(m, section, item.key)
  {
    hide Cut;
    var i, n := SectionIndex(m, section), WithSection(m, section);
    CutShort(section);
    CutShort(item.key);
    SectionAdded(m, section);
    if Distinct(n) {
      var items := n[i].items;
      assert DistinctKeys(items);
      ItemAdded(items, item.(key := Cut(item.key)));
      ItemsReplaced(n, i, items + [item.(key := Cut(item.key))]);
    } else {
      TwinSections(m, section, Register(m, section, item));
    }
  }

  /** An item stored under a name already taken is never found. */
  lemma NewItemHidden(m: seq<Section>, section: string, item: Item)
    requires Distinct(m) && !Fits(m, section, item.key)
    ensures !AllFindable(Register(m, section, item))
  {
    hide Cut, Distinct;
    var i, r := SectionIndex(m, section), Register(m, section, item);
    var stored := item.(key := Cut(item.key));
    if i == |m| {
      assert r[i].items == [] + [stored] && r[i].name == Cut(section);
      TwinSections(m, section, r);
      assert !Findable(r, i, 0);
    } else {
      var j := |m[i].items|;
      assert r[i].items == m[i].items + [stored];
      ItemIndexAppend(m[i].items, stored, stored.key);
      assert !Findable(r, i, j);
    }
  }

  /** Main result: registering keeps every item findable exactly when the cut names are still free. */
  lemma RegisteredStaysFindable(m: seq<Section>, section: string, item: Item)
    requires Distinct(m)
    ensures AllFindable(Register(m, section, item)) <==> Fits(m, section, item.key)
    ensures |section| <= MAX_SECTION && |item.key| <= MAX_SECTION ==> Fits(m, section, item.key)
  {
    hide Distinct, AllFindable, Register, Fits;
    RegisterKeepsDistinct(m, section, item);
    if Fits(m, section, item.key) {
      DistinctIsFindable(Register(m, section, item));
    } else {
      NewItemHidden(m, section, item);
    }
  }

  lemma CutShort(name: string)
    ensures |name| <= MAX_SECTION ==> Cut(name) == name
  {}

  /** A second section under a name already stored stays hidden behind the first. */
  lemma TwinSections(m: seq<Section>, name: string, n: seq<Section>)
    requires SectionIndex(m, name) == |m| && SectionIndex(m, Cut(name)) < |m|
    requires |n| == |m| + 1 && (forall i :: 0 <= i < |m| ==> n[i].name == m[i].name) && n[|m|].name == Cut(name)
    ensures SectionIndex(n, n[|m|].name) != |m| && !Distinct(n)
  {
    hide Cut, SectionIndex, Distinct;
    var all := m + [Section(Cut(name), [])];
    assert forall i :: 0 <= i < |n| ==> n[i].name == all[i].name;
    SectionIndexByName(n, all, Cut(name));
    SectionIndexAppend(m, Section(Cut(name), []), Cut(name));
    NotDistinct(n, |m|);
  }

  lemma NotDistinct(m: seq<Section>, i: nat)
    requires i < |m| && SectionIndex(m, m[i].name) != i
    ensures !Distinct(m)
  {}

  /** A 64-character section name registered twice makes two sections, and the second item is never found. */
  lemma LongNameShadows(name: string, a: Item, b: Item)
    requires |name| == MAX_SECTION + 1 && a.key != b.key && |a.key| <= MAX_SECTION && |b.key| <= MAX_SECTION
    ensures var m := Register(Register([], name, a), name, b);
      |m| == 2 && m[1].items == [b] && !Findable(m, 1, 0)
  {}
}
