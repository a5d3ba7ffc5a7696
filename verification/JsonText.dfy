/**
 * The text written to disk: `JSON.stringify(value, null, 2)` (section 25.5.2
 * of ECMA-262, 2023 edition) applied to the sorted document
 * (scripts/openapi/generate-openapi.ts, `stableStringify`). A reader written
 * from the JSON grammar (RFC 8259) recovers the document from the text, so
 * comparing artifacts byte by byte compares documents.
 */
module JsonText {

  import opened CanonicalJson
  import opened Sequences

  const QUOTE: CodeUnit := 34
  const BACKSLASH: CodeUnit := 92
  const COMMA: CodeUnit := 44
  const NEWLINE: CodeUnit := 10
  const SPACE: CodeUnit := 32
  const COLON: CodeUnit := 58
  const MINUS: CodeUnit := 45

  // --------------------------------------------------------------- strings

  predicate HighSurrogate(c: CodeUnit)
  {
    0xD800 <= c < 0xDC00
  }

  predicate LowSurrogate(c: CodeUnit)
  {
    0xDC00 <= c < 0xE000
  }

  predicate StartsWithPair(s: JsString)
  {
    |s| >= 2 && HighSurrogate(s[0]) && LowSurrogate(s[1])
  }

  function HexDigit(d: int): CodeUnit
    requires 0 <= d < 16
  {
    if d < 10 then 48 + d else 87 + d
  }

  function UnicodeEscape(c: CodeUnit): JsString
  {
    [BACKSLASH, 117, HexDigit(c / 16 / 16 / 16), HexDigit(c / 16 / 16 % 16), HexDigit(c / 16 % 16), HexDigit(c % 16)]
  }

  /** The second unit of a two-unit escape, or 0 when there is none. */
  function ShortEscape(c: CodeUnit): CodeUnit
  {
    if c == 8 then 98 else if c == 9 then 116 else if c == 10 then 110 else if c == 12 then 102
    else if c == 13 then 114 else if c == QUOTE then QUOTE else if c == BACKSLASH then BACKSLASH else 0
  }

  /** One code unit that is not half of a surrogate pair. */
  function EscapeUnit(c: CodeUnit): JsString
  {
    if ShortEscape(c) != 0 then [BACKSLASH, ShortEscape(c)]
    else if c < 32 || HighSurrogate(c) || LowSurrogate(c) then UnicodeEscape(c)
    else [c]
  }

  function Escape(s: JsString): JsString
  {
    if s == [] then []
    else if StartsWithPair(s) then [s[0], s[1]] + Escape(s[2..])
    else EscapeUnit(s[0]) + Escape(s[1..])
  }

  function Quoted(s: JsString): JsString
  {
    [QUOTE] + Escape(s) + [QUOTE]
  }

  // ---------------------------------------------------------------- values

  const NULL: JsString := [110, 117, 108, 108]
  const TRUE: JsString := [116, 114, 117, 101]
  const FALSE: JsString := [102, 97, 108, 115, 101]
  const GAP: JsString := [SPACE, SPACE]

  function Indent(depth: nat): JsString
  {
    if depth == 0 then [] else GAP + Indent(depth - 1)
  }

  /** A line break and the indentation of the next line. */
  function Line(depth: nat): JsString
  {
    [NEWLINE] + Indent(depth)
  }

  function Serialize(v: Json, depth: nat): JsString
  {
    match v
    case Null => NULL
    case Bool(b) => if b then TRUE else FALSE
    case Num(text) => text
    case Str(s) => Quoted(s)
    case Arr(items) =>
      if items == [] then [91, 93] else [91] + Line(depth + 1) + Items(items, depth + 1) + (Line(depth) + [93])
    case Obj(es) =>
      if es == [] then [123, 125] else [123] + Line(depth + 1) + Members(es, depth + 1) + (Line(depth) + [125])
  }

  function Items(items: seq<Json>, depth: nat): JsString
    requires items != []
  {
    Serialize(items[0], depth) + if |items| == 1 then [] else [COMMA] + Line(depth) + Items(items[1..], depth)
  }

  function Member(e: Entry, depth: nat): JsString
  {
    Quoted(e.key) + [COLON, SPACE] + Serialize(e.value, depth)
  }

  function Members(es: seq<Entry>, depth: nat): JsString
    requires es != []
  {
    Member(es[0], depth) + if |es| == 1 then [] else [COMMA] + Line(depth) + Members(es[1..], depth)
  }

  function StableStringify(v: Json): JsString
  {
    Serialize(SortKeys(v), 0)
  }

  /** The file: the text and a line break. */
  function Artifact(v: Json): JsString
  {
    StableStringify(v) + [NEWLINE]
  }

  /** Number texts: a digit or a minus, then digits, signs, dot and exponent. */
  predicate NumberUnit(c: CodeUnit)
  {
    48 <= c <= 57 || c == 43 || c == MINUS || c == 46 || c == 69 || c == 101
  }

  predicate NumberText(t: JsString)
  {
    t != [] && (Digit(t[0]) || t[0] == MINUS) && forall i :: 0 <= i < |t| ==> NumberUnit(t[i])
  }

  ghost predicate Printable(v: Json)
  {
    match v
    case Num(t) => NumberText(t)
    case Arr(items) => forall i :: 0 <= i < |items| ==> Printable(items[i])
    case Obj(es) => forall i :: 0 <= i < |es| ==> Printable(es[i].value)
    case _ => true
  }

  // ------------------------------------------------------------ the reader

  /** What a reader makes of the start of a text, and what is left of the text. */
  datatype Reading<T> = Failed | Got(value: T, rest: JsString)

  /** Blank, tab, line feed and carriage return. */
  predicate IsBlank(c: CodeUnit)
  {
    c == 32 || c == 9 || c == 10 || c == 13
  }

  function SkipBlank(x: JsString): (r: JsString)
    ensures |r| <= |x| && (r != [] ==> !IsBlank(r[0]))
  {
    if x != [] && IsBlank(x[0]) then SkipBlank(x[1..]) else x
  }

  /** The value of a hexadecimal digit in either case. */
  function HexValue(c: CodeUnit): (d: int)
    ensures -1 <= d < 16
  {
    if 48 <= c <= 57 then c - 48
    else if 97 <= c <= 102 then c - 97 + 10
    else if 65 <= c <= 70 then c - 65 + 10
    else -1
  }

  function ReadHex(x: JsString): Reading<CodeUnit>
    requires |x| >= 4
  {
    var a, b, c, d := HexValue(x[0]), HexValue(x[1]), HexValue(x[2]), HexValue(x[3]);
    if a < 0 || b < 0 || c < 0 || d < 0 then Failed else Got(a * 4096 + b * 256 + c * 16 + d, x[4..])
  }

  /** The character that a letter after a backslash stands for: `"`, `\\`, `/`, `b`, `f`, `n`, `r`, `t`. */
  function Named(letter: CodeUnit): (c: CodeUnit)
  {
    match letter
    case 34 => 34
    case 92 => 92
    case 47 => 47
    case 98 => 8
    case 102 => 12
    case 110 => 10
    case 114 => 13
    case 116 => 9
    case _ => 0
  }

  /** One character of a string: as it stands, after a backslash, or by its number. */
  function ReadUnit(x: JsString): (r: Reading<CodeUnit>)
    requires x != []
    ensures r.Got? ==> |r.rest| < |x|
  {
    if x[0] < 32 then Failed
    else if x[0] != 92 then Got(x[0], x[1..])
    else if |x| >= 6 && x[1] == 117 then ReadHex(x[2..])
    else if |x| >= 2 && Named(x[1]) != 0 then Got(Named(x[1]), x[2..])
    else Failed
  }

  /** A string after its opening quote. */
  function ReadChars(x: JsString): (r: Reading<JsString>)
    ensures r.Got? ==> |r.rest| < |x|
    decreases |x|
  {
    if x == [] then Failed
    else if x[0] == 34 then Got([], x[1..])
    else
      var unit := ReadUnit(x);
      if unit.Failed? then Failed
      else
        var more := ReadChars(unit.rest);
        if more.Failed? then Failed else Got([unit.value] + more.value, more.rest)
  }

  function ReadWord(x: JsString, word: JsString, v: Json): (r: Reading<Json>)
    requires word != []
    ensures r.Got? ==> |r.rest| < |x|
  {
    if word <= x then Got(v, x[|word|..]) else Failed
  }

  function NumberLength(x: JsString): (n: nat)
    ensures n <= |x| && (x != [] && NumberUnit(x[0]) ==> n > 0)
  {
    if x == [] || !NumberUnit(x[0]) then 0 else 1 + NumberLength(x[1..])
  }

  function ReadValue(x: JsString): (r: Reading<Json>)
    ensures r.Got? ==> |r.rest| < |x|
    decreases |x|, 0
  {
    var y := SkipBlank(x);
    if y == [] then Failed
    else if y[0] == 34 then
      var s := ReadChars(y[1..]);
      if s.Failed? then Failed else Got(Str(s.value), s.rest)
    else if y[0] == 91 then
      var z := SkipBlank(y[1..]);
      if z != [] && z[0] == 93 then Got(Arr([]), z[1..])
      else
        var items := ReadItems(y[1..]);
        if items.Failed? then Failed else Got(Arr(items.value), items.rest)
    else if y[0] == 123 then
      var z := SkipBlank(y[1..]);
      if z != [] && z[0] == 125 then Got(Obj([]), z[1..])
      else
        var members := ReadMembers(y[1..]);
        if members.Failed? then Failed else Got(Obj(members.value), members.rest)
    else if y[0] == 110 then ReadWord(y, [110, 117, 108, 108], Null)
    else if y[0] == 116 then ReadWord(y, [116, 114, 117, 101], Bool(true))
    else if y[0] == 102 then ReadWord(y, [102, 97, 108, 115, 101], Bool(false))
    else if 48 <= y[0] <= 57 || y[0] == 45 then Got(Num(y[..NumberLength(y)]), y[NumberLength(y)..])
    else Failed
  }

  /** The elements of an array that is not empty, up to its closing bracket. */
  function ReadItems(x: JsString): (r: Reading<seq<Json>>)
    ensures r.Got? ==> |r.rest| < |x|
    decreases |x|, 1
  {
    var v := ReadValue(x);
    if v.Failed? then Failed
    else
      var z := SkipBlank(v.rest);
      if z != [] && z[0] == 93 then Got([v.value], z[1..])
      else if z != [] && z[0] == 44 then
        var more := ReadItems(z[1..]);
        if more.Failed? then Failed else Got([v.value] + more.value, more.rest)
      else Failed
  }

  /** The properties of an object that is not empty, up to its closing brace. */
  function ReadMembers(x: JsString): (r: Reading<seq<Entry>>)
    ensures r.Got? ==> |r.rest| < |x|
    decreases |x|, 1
  {
    var e := ReadMember(x);
    if e.Failed? then Failed
    else
      var z := SkipBlank(e.rest);
      if z != [] && z[0] == 125 then Got([e.value], z[1..])
      else if z != [] && z[0] == 44 then
        var more := ReadMembers(z[1..]);
        if more.Failed? then Failed else Got([e.value] + more.value, more.rest)
      else Failed
  }

  function ReadMember(x: JsString): (r: Reading<Entry>)
    ensures r.Got? ==> |r.rest| < |x|
    decreases |x|, 0
  {
    var y := SkipBlank(x);
    if y == [] || y[0] != 34 then Failed
    else
      var key := ReadChars(y[1..]);
      if key.Failed? then Failed
      else
        var z := SkipBlank(key.rest);
        if z == [] || z[0] != 58 then Failed
        else
          var v := ReadValue(z[1..]);
          if v.Failed? then Failed else Got(Entry(key.value, v.value), v.rest)
  }

  /** A whole text holds one value and blanks around it. */
  function Parse(x: JsString): Reading<Json>
  {
    var v := ReadValue(x);
    if v.Got? && SkipBlank(v.rest) == [] then Got(v.value, []) else Failed
  }

  // ------------------------------------------------------ reading back strings

  lemma HexRead(d: int)
    requires 0 <= d < 16
    ensures HexValue(HexDigit(d)) == d
  {
  }

  lemma UnicodeEscapeRead(c: CodeUnit, x: JsString)
    ensures ReadUnit(UnicodeEscape(c) + x) == Got(c, x)
  {
    var a := UnicodeEscape(c) + x;
    HexRead(c / 16 / 16 / 16);
    HexRead(c / 16 / 16 % 16);
    HexRead(c / 16 % 16);
    HexRead(c % 16);
    assert a[2..][..4] == UnicodeEscape(c)[2..] && a[2..][4..] == x;
    assert c / 16 / 16 / 16 * 4096 + c / 16 / 16 % 16 * 256 + c / 16 % 16 * 16 + c % 16 == c;
  }

  lemma EscapeUnitRead(c: CodeUnit, x: JsString)
    ensures EscapeUnit(c) != [] && EscapeUnit(c)[0] != 34
    ensures ReadUnit(EscapeUnit(c) + x) == Got(c, x)
  {
    if ShortEscape(c) == 0 && (c < 32 || HighSurrogate(c) || LowSurrogate(c)) {
      UnicodeEscapeRead(c, x);
    } else {
      assert (EscapeUnit(c) + x)[|EscapeUnit(c)|..] == x;
    }
  }

  /**
   * The form of a printed character: seven have short escapes, the other
   * control characters and lone surrogates are written by number in small
   * hexadecimal digits, and everything else, surrogate pairs included, stands
   * as it is.
   */
  lemma EscapeForm(c: CodeUnit)
    ensures |EscapeUnit(c)| == 2 <==> c in {8, 9, 10, 12, 13, 34, 92}
    ensures |EscapeUnit(c)| == 6 <==> (c < 32 && c !in {8, 9, 10, 12, 13}) || 0xD800 <= c <= 0xDFFF
    ensures |EscapeUnit(c)| in {1, 2, 6} && (|EscapeUnit(c)| == 1 ==> EscapeUnit(c)[0] == c)
    ensures |EscapeUnit(c)| == 6 ==>
              forall i :: 2 <= i < 6 ==> 48 <= EscapeUnit(c)[i] <= 57 || 97 <= EscapeUnit(c)[i] <= 102
  {
  }

  lemma PairForm(high: CodeUnit, low: CodeUnit, s: JsString)
    requires 0xD800 <= high <= 0xDBFF && 0xDC00 <= low <= 0xDFFF
    ensures Escape([high, low] + s) == [high, low] + Escape(s)
  {
    assert ([high, low] + s)[2..] == s;
  }

  /** What is not the start of a pair is printed by itself. */
  lemma UnitForm(c: CodeUnit, s: JsString)
    requires !(0xD800 <= c <= 0xDBFF && s != [] && 0xDC00 <= s[0] <= 0xDFFF)
    ensures Escape([c] + s) == EscapeUnit(c) + Escape(s)
  {
    assert ([c] + s)[1..] == s;
  }

  lemma ReadOneMore(unit: JsString, c: CodeUnit, x: JsString)
    requires unit != [] && unit[0] != 34 && ReadUnit(unit + x) == Got(c, x) && ReadChars(x).Got?
    ensures ReadChars(unit + x) == Got([c] + ReadChars(x).value, ReadChars(x).rest)
  {
  }

  /** Half of a surrogate pair is read as it stands. */
  lemma SurrogateRead(c: CodeUnit, x: JsString)
    requires c >= 0xD800 && ReadChars(x).Got?
    ensures ReadChars([c] + x) == Got([c] + ReadChars(x).value, ReadChars(x).rest)
  {
    assert ([c] + x)[1..] == x;
    ReadOneMore([c], c, x);
  }

  lemma PairText(s: JsString, x: JsString)
    requires StartsWithPair(s)
    ensures Escape(s) + [QUOTE] + x == [s[0]] + ([s[1]] + (Escape(s[2..]) + [QUOTE] + x))
    ensures s == [s[0]] + ([s[1]] + s[2..])
  {
    Regroup([s[0], s[1]], Escape(s[2..]), [QUOTE], x);
  }

  lemma UnitText(s: JsString, x: JsString)
    requires s != [] && !StartsWithPair(s)
    ensures Escape(s) + [QUOTE] + x == EscapeUnit(s[0]) + (Escape(s[1..]) + [QUOTE] + x)
    ensures s == [s[0]] + s[1..]
  {
    Regroup(EscapeUnit(s[0]), Escape(s[1..]), [QUOTE], x);
  }

  /** A reader gets back the string, and stops right behind its closing quote. */
  lemma {:induction false} EscapeRead(s: JsString, x: JsString)
    ensures ReadChars(Escape(s) + [QUOTE] + x) == Got(s, x)
  {
    if s == [] {
      assert Escape(s) + [QUOTE] + x == [QUOTE] + x;
    } else if StartsWithPair(s) {
      var rest := Escape(s[2..]) + [QUOTE] + x;
      EscapeRead(s[2..], x);
      PairText(s, x);
      SurrogateRead(s[1], rest);
      SurrogateRead(s[0], [s[1]] + rest);
    } else {
      var rest := Escape(s[1..]) + [QUOTE] + x;
      EscapeRead(s[1..], x);
      UnitText(s, x);
      EscapeUnitRead(s[0], rest);
      ReadOneMore(EscapeUnit(s[0]), s[0], rest);
    }
  }

  lemma QuotedRead(s: JsString, x: JsString)
    ensures Quoted(s) + x != [] && (Quoted(s) + x)[0] == 34
    ensures ReadChars((Quoted(s) + x)[1..]) == Got(s, x)
  {
    assert (Quoted(s) + x)[1..] == Escape(s) + [QUOTE] + x;
    EscapeRead(s, x);
  }

  // -------------------------------------------------------- reading back values

  lemma {:induction false} IndentBlank(depth: nat, x: JsString)
    requires x != [] && !IsBlank(x[0])
    ensures SkipBlank(Indent(depth) + x) == x
  {
    if depth == 0 {
      assert Indent(0) + x == x;
    } else {
      IndentBlank(depth - 1, x);
      TwoBlanks(Indent(depth - 1) + x);
      Regroup(GAP, Indent(depth - 1), x, []);
    }
  }

  lemma TwoBlanks(x: JsString)
    ensures SkipBlank(GAP + x) == SkipBlank(x)
  {
    assert (GAP + x)[1..] == [SPACE] + x && ([SPACE] + x)[1..] == x;
  }

  lemma LineBlank(depth: nat, x: JsString)
    requires x != [] && !IsBlank(x[0])
    ensures SkipBlank(Line(depth) + x) == x
  {
    IndentBlank(depth, x);
    assert (Line(depth) + x)[1..] == Indent(depth) + x;
  }

  /** Blanks in front make no difference. */
  lemma BlanksIgnored(x: JsString, y: JsString)
    requires SkipBlank(x) == y == SkipBlank(y)
    ensures ReadValue(x) == ReadValue(y) && ReadItems(x) == ReadItems(y)
    ensures ReadMember(x) == ReadMember(y) && ReadMembers(x) == ReadMembers(y)
  {
  }

  lemma SkipNothing(x: JsString)
    requires x == [] || !IsBlank(x[0])
    ensures SkipBlank(x) == x
  {
  }

  lemma {:induction false} NumberRead(t: JsString, x: JsString)
    requires forall i :: 0 <= i < |t| ==> NumberUnit(t[i])
    requires x == [] || !NumberUnit(x[0])
    ensures NumberLength(t + x) == |t|
  {
    if t == [] {
      assert t + x == x;
    } else {
      NumberRead(t[1..], x);
      assert (t + x)[1..] == t[1..] + x;
    }
  }

  /** A value never starts with a blank or a closing bracket. */
  lemma SerializeHead(v: Json, depth: nat)
    requires Printable(v)
    ensures Serialize(v, depth) != [] && !IsBlank(Serialize(v, depth)[0]) && !Closing(Serialize(v, depth)[0])
  {
  }

  predicate Closing(c: CodeUnit)
  {
    c == 93 || c == 125
  }

  lemma WordRead(x: JsString, word: JsString, v: Json)
    requires word != []
    ensures ReadWord(word + x, word, v) == Got(v, x)
  {
    assert (word + x)[..|word|] == word && (word + x)[|word|..] == x;
  }

  lemma WordsRead(v: Json, depth: nat, x: JsString)
    requires v.Null? || v.Bool?
    ensures ReadValue(Serialize(v, depth) + x) == Got(v, x)
  {
    SkipNothing(Serialize(v, depth) + x);
    if v.Null? {
      WordRead(x, [110, 117, 108, 108], Null);
    } else if v.b {
      WordRead(x, [116, 114, 117, 101], Bool(true));
    } else {
      WordRead(x, [102, 97, 108, 115, 101], Bool(false));
    }
  }

  lemma NumberValueRead(t: JsString, x: JsString)
    requires NumberText(t) && Ends(x)
    ensures ReadValue(t + x) == Got(Num(t), x)
  {
    SkipNothing(t + x);
    NumberRead(t, x);
    assert (t + x)[..|t|] == t && (t + x)[|t|..] == x;
  }

  lemma StringValueRead(t: JsString, x: JsString)
    ensures ReadValue(Quoted(t) + x) == Got(Str(t), x)
  {
    QuotedRead(t, x);
    SkipNothing(Quoted(t) + x);
  }

  /** What may follow a value inside a text. */
  ghost predicate Ends(x: JsString)
  {
    x == [] || !NumberUnit(x[0])
  }

  /** A reader gets back the value, and stops right behind it. */
  lemma {:induction false} ValueRead(v: Json, depth: nat, x: JsString)
    requires Printable(v) && Ends(x)
    ensures ReadValue(Serialize(v, depth) + x) == Got(v, x)
    decreases v, 1
  {
    match v
    case Arr(items) => ArrayRead(v, depth, x);
    case Obj(es) => ObjectRead(v, depth, x);
    case Num(t) => NumberValueRead(t, x);
    case Str(t) => StringValueRead(t, x);
    case _ => WordsRead(v, depth, x);
  }

  lemma {:induction false} ArrayRead(v: Json, depth: nat, x: JsString)
    requires v.Arr? && Printable(v) && Ends(x)
    ensures ReadValue(Serialize(v, depth) + x) == Got(v, x)
    decreases v, 0
  {
    if v.items == [] {
      EmptyRead(93, x);
    } else {
      TailText(depth, 93, x);
      ItemsRead(v.items, depth + 1, Line(depth) + [93] + x, x);
      BracketedItemsRead(v, depth, x);
    }
  }

  lemma BracketedItemsRead(v: Json, depth: nat, x: JsString)
    requires v.Arr? && v.items != [] && Printable(v.items[0])
    requires ReadItems(Items(v.items, depth + 1) + (Line(depth) + [93] + x)) == Got(v.items, x)
    ensures ReadValue(Serialize(v, depth) + x) == Got(v, x)
  {
    ItemsHead(v.items, depth + 1);
    ArrayText(v, depth, x);
    OpenRead(91, Items(v.items, depth + 1), depth, Line(depth) + [93] + x);
  }

  lemma {:induction false} ObjectRead(v: Json, depth: nat, x: JsString)
    requires v.Obj? && Printable(v) && Ends(x)
    ensures ReadValue(Serialize(v, depth) + x) == Got(v, x)
    decreases v, 0
  {
    if v.entries == [] {
      EmptyRead(125, x);
    } else {
      TailText(depth, 125, x);
      MembersRead(v.entries, depth + 1, Line(depth) + [125] + x, x);
      BracketedMembersRead(v, depth, x);
    }
  }

  lemma BracketedMembersRead(v: Json, depth: nat, x: JsString)
    requires v.Obj? && v.entries != []
    requires ReadMembers(Members(v.entries, depth + 1) + (Line(depth) + [125] + x)) == Got(v.entries, x)
    ensures ReadValue(Serialize(v, depth) + x) == Got(v, x)
  {
    MembersHead(v.entries, depth + 1);
    ObjectText(v, depth, x);
    OpenRead(123, Members(v.entries, depth + 1), depth, Line(depth) + [125] + x);
  }

  lemma EmptyRead(close: CodeUnit, x: JsString)
    requires Closing(close)
    ensures ReadValue([close - 2, close] + x) == Got(if close == 93 then Arr([]) else Obj([]), x)
  {
    var a := [close - 2, close] + x;
    SkipNothing(a);
    assert a[1..] == [close] + x && ([close] + x)[1..] == x;
    SkipNothing(a[1..]);
  }

  lemma TailText(depth: nat, close: CodeUnit, x: JsString)
    requires Closing(close)
    ensures var tail := Line(depth) + [close] + x; Ends(tail) && tail != [] && SkipBlank(tail) == [close] + x
  {
    LineBlank(depth, [close] + x);
    Regroup(Line(depth), [close], x, []);
  }

  lemma BracketText(open: CodeUnit, body: JsString, depth: nat, close: CodeUnit, x: JsString)
    ensures [open] + Line(depth + 1) + body + (Line(depth) + [close]) + x ==
            [open] + (Line(depth + 1) + (body + (Line(depth) + [close] + x)))
  {
    Regroup([open] + Line(depth + 1), body, Line(depth) + [close], x);
    Regroup([open], Line(depth + 1), body + (Line(depth) + [close] + x), []);
  }

  lemma ArrayText(v: Json, depth: nat, x: JsString)
    requires v.Arr? && v.items != []
    ensures Serialize(v, depth) + x ==
            [91] + (Line(depth + 1) + (Items(v.items, depth + 1) + (Line(depth) + [93] + x)))
  {
    BracketText(91, Items(v.items, depth + 1), depth, 93, x);
  }

  lemma ObjectText(v: Json, depth: nat, x: JsString)
    requires v.Obj? && v.entries != []
    ensures Serialize(v, depth) + x ==
            [123] + (Line(depth + 1) + (Members(v.entries, depth + 1) + (Line(depth) + [125] + x)))
  {
    BracketText(123, Members(v.entries, depth + 1), depth, 125, x);
  }

  /** An opening bracket leads to the list behind it. */
  lemma OpenRead(open: CodeUnit, body: JsString, depth: nat, tail: JsString)
    requires body != [] && !IsBlank(body[0]) && !Closing(body[0])
    ensures var a := [open] + (Line(depth + 1) + (body + tail));
            && (open == 91 && ReadItems(body + tail).Got? ==>
                ReadValue(a) == Got(Arr(ReadItems(body + tail).value), ReadItems(body + tail).rest))
            && (open == 123 && ReadMembers(body + tail).Got? ==>
                ReadValue(a) == Got(Obj(ReadMembers(body + tail).value), ReadMembers(body + tail).rest))
  {
    var inner := Line(depth + 1) + (body + tail);
    LineBlank(depth + 1, body + tail);
    SkipNothing(body + tail);
    BlanksIgnored(inner, body + tail);
    assert ([open] + inner)[1..] == inner;
  }

  lemma ItemsHead(items: seq<Json>, depth: nat)
    requires items != [] && Printable(items[0])
    ensures Items(items, depth) != [] && !IsBlank(Items(items, depth)[0]) && !Closing(Items(items, depth)[0])
  {
    SerializeHead(items[0], depth);
  }

  lemma MembersHead(es: seq<Entry>, depth: nat)
    requires es != []
    ensures Members(es, depth) != [] && Members(es, depth)[0] == 34
  {
  }

  /** What follows the first of several elements or properties. */
  ghost function Rest(single: bool, depth: nat, others: JsString, tail: JsString): (r: JsString)
    requires Ends(tail)
    ensures Ends(r)
  {
    if single then tail else [COMMA] + (Line(depth) + (others + tail))
  }

  lemma RestText(first: JsString, depth: nat, others: JsString, tail: JsString)
    ensures first + ([COMMA] + Line(depth) + others) + tail == first + ([COMMA] + (Line(depth) + (others + tail)))
  {
    Regroup([COMMA], Line(depth), others, tail);
    Regroup(first, [COMMA] + Line(depth) + others, tail, []);
  }

  lemma ItemsText(items: seq<Json>, depth: nat, tail: JsString)
    requires items != [] && Ends(tail)
    ensures var others := if |items| == 1 then [] else Items(items[1..], depth);
            Items(items, depth) + tail == Serialize(items[0], depth) + Rest(|items| == 1, depth, others, tail)
    ensures items == [items[0]] + items[1..]
  {
    if |items| > 1 {
      RestText(Serialize(items[0], depth), depth, Items(items[1..], depth), tail);
    } else {
      assert Items(items, depth) == Serialize(items[0], depth);
    }
  }

  lemma AfterComma(depth: nat, others: JsString, tail: JsString)
    requires others != [] && !IsBlank(others[0]) && Ends(tail)
    ensures var rest := Rest(false, depth, others, tail);
            && SkipBlank(rest) == rest && rest[0] == 44
            && ReadItems(rest[1..]) == ReadItems(others + tail) && ReadMembers(rest[1..]) == ReadMembers(others + tail)
  {
    var rest := Rest(false, depth, others, tail);
    LineBlank(depth, others + tail);
    SkipNothing(others + tail);
    assert rest[1..] == Line(depth) + (others + tail);
    BlanksIgnored(rest[1..], others + tail);
  }

  lemma {:induction false} ItemsRead(items: seq<Json>, depth: nat, tail: JsString, x: JsString)
    requires items != [] && forall i :: 0 <= i < |items| ==> Printable(items[i])
    requires Ends(tail) && SkipBlank(tail) == [93] + x
    ensures ReadItems(Items(items, depth) + tail) == Got(items, x)
    decreases items, 0
  {
    var others := if |items| == 1 then [] else Items(items[1..], depth);
    ItemsText(items, depth, tail);
    ValueRead(items[0], depth, Rest(|items| == 1, depth, others, tail));
    if |items| > 1 {
      ItemsRead(items[1..], depth, tail, x);
      ItemsHead(items[1..], depth);
      AfterComma(depth, others, tail);
    } else {
      assert ([93] + x)[1..] == x && items == [items[0]];
    }
  }

  lemma MembersText(es: seq<Entry>, depth: nat, tail: JsString)
    requires es != [] && Ends(tail)
    ensures var others := if |es| == 1 then [] else Members(es[1..], depth);
            Members(es, depth) + tail == Member(es[0], depth) + Rest(|es| == 1, depth, others, tail)
    ensures es == [es[0]] + es[1..]
  {
    if |es| > 1 {
      RestText(Member(es[0], depth), depth, Members(es[1..], depth), tail);
    } else {
      assert Members(es, depth) == Member(es[0], depth);
    }
  }

  lemma {:induction false} MemberRead(e: Entry, depth: nat, x: JsString)
    requires Printable(e.value) && Ends(x)
    ensures ReadMember(Member(e, depth) + x) == Got(e, x)
    decreases e, 0
  {
    var value := Serialize(e.value, depth) + x;
    ValueRead(e.value, depth, x);
    SerializeHead(e.value, depth);
    Regroup(Quoted(e.key), [COLON, SPACE], Serialize(e.value, depth), x);
    var a := Quoted(e.key) + ([COLON, SPACE] + value);
    assert Member(e, depth) + x == a;
    QuotedRead(e.key, [COLON, SPACE] + value);
    SkipNothing(a);
    SkipNothing([COLON, SPACE] + value);
    assert ([COLON, SPACE] + value)[1..] == [SPACE] + value && ([SPACE] + value)[1..] == value;
    SkipNothing(value);
    BlanksIgnored([SPACE] + value, value);
  }

  lemma {:induction false} MembersRead(es: seq<Entry>, depth: nat, tail: JsString, x: JsString)
    requires es != [] && forall i :: 0 <= i < |es| ==> Printable(es[i].value)
    requires Ends(tail) && SkipBlank(tail) == [125] + x
    ensures ReadMembers(Members(es, depth) + tail) == Got(es, x)
    decreases es, 0
  {
    var others := if |es| == 1 then [] else Members(es[1..], depth);
    MembersText(es, depth, tail);
    MemberRead(es[0], depth, Rest(|es| == 1, depth, others, tail));
    if |es| > 1 {
      MembersRead(es[1..], depth, tail, x);
      MembersHead(es[1..], depth);
      AfterComma(depth, others, tail);
    } else {
      assert ([125] + x)[1..] == x && es == [es[0]];
    }
  }

  // ------------------------------------------------------------ the artifact

  lemma {:induction false} SortKeysPrintable(v: Json)
    requires WellFormed(v) && Printable(v)
    ensures Printable(SortKeys(v))
  {
    match v
    case Arr(items) =>
      forall i | 0 <= i < |items|
        ensures Printable(SortKeys(items[i]))
      {
        SortKeysPrintable(items[i]);
      }
    case Obj(es) =>
      forall i | 0 <= i < |es|
        ensures Printable(SortKeys(es[i].value))
      {
        SortKeysPrintable(es[i].value);
      }
      SortKeysEntries(es);
      var rs := SortKeys(v).entries;
      forall i | 0 <= i < |rs|
        ensures Printable(rs[i].value)
      {
        assert rs[i] in rs;
      }
    case _ =>
  }

  /** Reading the artifact gives the sorted document, which says what the document says. */
  lemma ArtifactRead(v: Json)
    requires WellFormed(v) && Printable(v)
    ensures Parse(Artifact(v)) == Got(SortKeys(v), []) && Denote(SortKeys(v)) == Denote(v)
  {
    SortKeysPrintable(v);
    SortKeysPreserves(v);
    ValueRead(SortKeys(v), 0, [NEWLINE]);
  }

  /** Two escaped strings, each read up to its closing quote, are equal only for equal strings. */
  lemma EscapeUnambiguous(s: JsString, t: JsString, x: JsString, y: JsString)
    requires Escape(s) + [QUOTE] + x == Escape(t) + [QUOTE] + y
    ensures s == t && x == y
  {
    EscapeRead(s, x);
    EscapeRead(t, y);
  }

  lemma SerializeUnambiguous(v: Json, w: Json, depth: nat, x: JsString, y: JsString)
    requires Printable(v) && Printable(w) && Ends(x) && Ends(y)
    requires Serialize(v, depth) + x == Serialize(w, depth) + y
    ensures v == w && x == y
  {
    ValueRead(v, depth, x);
    ValueRead(w, depth, y);
  }

  /**
   * Drift detection is exact: two documents produce the same artifact if and
   * only if they say the same, whatever the order of their properties.
   */
  lemma SameTextIffSameDocument(v: Json, w: Json)
    requires WellFormed(v) && WellFormed(w) && Printable(v) && Printable(w)
    ensures StableStringify(v) == StableStringify(w) <==> Denote(v) == Denote(w)
  {
    SortKeysNormalForm(v, w);
    ArtifactRead(v);
    ArtifactRead(w);
  }

  // -------------------------------------------------------------- the layout

  /** The number of spaces at the start of a text. */
  function Spaces(x: JsString): (n: nat)
    ensures n <= |x|
  {
    if x == [] || x[0] != 32 then 0 else 1 + Spaces(x[1..])
  }

  /**
   * The layout rules, on the text alone, `depth` brackets being open: the
   * elements of a list stand on lines of their own, indented by two spaces per
   * open bracket; its closing bracket stands on a line of its own, indented
   * like the list; an empty list has nothing between its brackets; one space
   * follows a colon; there is no other blank, except a final line break.
   */
  ghost predicate LaidOut(x: JsString, depth: nat)
    decreases |x|
  {
    if x == [] then depth == 0
    else if x[0] == 34 then
      var s := ReadChars(x[1..]);
      s.Got? && LaidOut(s.rest, depth)
    else if x[0] == 91 || x[0] == 123 then
      |x| > 1 && if x[1] == x[0] + 2 then LaidOut(x[2..], depth)
                 else x[1] == 10 && Spaces(x[2..]) == 2 * (depth + 1) && LaidOut(x[2..][2 * (depth + 1)..], depth + 1)
    else if x[0] == 44 then
      |x| > 1 && x[1] == 10 && Spaces(x[2..]) == 2 * depth && LaidOut(x[2..][2 * depth..], depth)
    else if x[0] == 58 then |x| > 1 && x[1] == 32 && LaidOut(x[2..], depth)
    else if x[0] == 10 then
      if depth == 0 then x == [10]
      else
        var n := Spaces(x[1..]);
        n == 2 * (depth - 1) && |x| > n + 1 && (x[n + 1] == 93 || x[n + 1] == 125) && LaidOut(x[n + 2..], depth - 1)
    else x[0] != 32 && x[0] != 93 && x[0] != 125 && LaidOut(x[1..], depth)
  }

  lemma {:induction false} IndentLength(depth: nat)
    ensures |Indent(depth)| == 2 * depth
  {
    if depth > 0 {
      IndentLength(depth - 1);
    }
  }

  lemma TwoSpaces(x: JsString)
    ensures Spaces(GAP + x) == 2 + Spaces(x)
  {
    assert (GAP + x)[1..] == [SPACE] + x && ([SPACE] + x)[1..] == x;
  }

  lemma {:induction false} IndentSpaces(depth: nat, x: JsString)
    requires x == [] || x[0] != 32
    ensures Spaces(Indent(depth) + x) == 2 * depth
  {
    if depth == 0 {
      assert Indent(0) + x == x;
    } else {
      IndentSpaces(depth - 1, x);
      TwoSpaces(Indent(depth - 1) + x);
      Regroup(GAP, Indent(depth - 1), x, []);
    }
  }

  /** A comma, or an opening bracket, with the line it starts. */
  lemma LineLaidOut(c: CodeUnit, depth: nat, deeper: nat, x: JsString)
    requires x != [] && x[0] != 32 && LaidOut(x, deeper)
    requires (c == 44 && deeper == depth) || ((c == 91 || c == 123) && deeper == depth + 1)
    ensures LaidOut([c] + (Line(deeper) + x), depth)
  {
    var a := [c] + (Line(deeper) + x);
    IndentSpaces(deeper, x);
    IndentLength(deeper);
    assert a[2..] == Indent(deeper) + x && a[1] == NEWLINE;
  }

  lemma CloseLaidOut(close: CodeUnit, depth: nat, x: JsString)
    requires Closing(close) && LaidOut(x, depth)
    ensures LaidOut(Line(depth) + [close] + x, depth + 1)
  {
    var a := Line(depth) + [close] + x;
    IndentSpaces(depth, [close] + x);
    IndentLength(depth);
    assert a[1..] == Indent(depth) + ([close] + x);
    assert a[2 * depth + 1] == close && a[2 * depth + 2..] == x;
  }

  predicate Plain(c: CodeUnit)
  {
    c !in {34, 91, 123, 44, 58, 10, 32, 93, 125}
  }

  lemma {:induction false} PlainLaidOut(t: JsString, depth: nat, x: JsString)
    requires LaidOut(x, depth) && forall i :: 0 <= i < |t| ==> Plain(t[i])
    ensures LaidOut(t + x, depth)
  {
    if t == [] {
      assert t + x == x;
    } else {
      PlainLaidOut(t[1..], depth, x);
      assert (t + x)[1..] == t[1..] + x;
    }
  }

  lemma QuotedLaidOut(s: JsString, depth: nat, x: JsString)
    requires LaidOut(x, depth)
    ensures LaidOut(Quoted(s) + x, depth)
  {
    QuotedRead(s, x);
  }

  lemma {:induction false} ValueLaidOut(v: Json, depth: nat, x: JsString)
    requires Printable(v) && LaidOut(x, depth)
    ensures LaidOut(Serialize(v, depth) + x, depth)
    decreases v, 1
  {
    match v
    case Arr(items) => ArrayLaidOut(v, depth, x);
    case Obj(es) => ObjectLaidOut(v, depth, x);
    case Str(s) => QuotedLaidOut(s, depth, x);
    case _ => PlainLaidOut(Serialize(v, depth), depth, x);
  }

  lemma EmptyLaidOut(close: CodeUnit, depth: nat, x: JsString)
    requires Closing(close) && LaidOut(x, depth)
    ensures LaidOut([close - 2, close] + x, depth)
  {
    assert ([close - 2, close] + x)[2..] == x;
  }

  lemma {:induction false} ArrayLaidOut(v: Json, depth: nat, x: JsString)
    requires v.Arr? && Printable(v) && LaidOut(x, depth)
    ensures LaidOut(Serialize(v, depth) + x, depth)
    decreases v, 0
  {
    if v.items == [] {
      EmptyLaidOut(93, depth, x);
    } else {
      CloseLaidOut(93, depth, x);
      ItemsLaidOut(v.items, depth + 1, Line(depth) + [93] + x);
      BracketedItemsLaidOut(v, depth, x);
    }
  }

  lemma BracketedItemsLaidOut(v: Json, depth: nat, x: JsString)
    requires v.Arr? && v.items != [] && Printable(v.items[0])
    requires LaidOut(Items(v.items, depth + 1) + (Line(depth) + [93] + x), depth + 1)
    ensures LaidOut(Serialize(v, depth) + x, depth)
  {
    ItemsHead(v.items, depth + 1);
    ArrayText(v, depth, x);
    LineLaidOut(91, depth, depth + 1, Items(v.items, depth + 1) + (Line(depth) + [93] + x));
  }

  lemma {:induction false} ObjectLaidOut(v: Json, depth: nat, x: JsString)
    requires v.Obj? && Printable(v) && LaidOut(x, depth)
    ensures LaidOut(Serialize(v, depth) + x, depth)
    decreases v, 0
  {
    if v.entries == [] {
      EmptyLaidOut(125, depth, x);
    } else {
      CloseLaidOut(125, depth, x);
      MembersLaidOut(v.entries, depth + 1, Line(depth) + [125] + x);
      BracketedMembersLaidOut(v, depth, x);
    }
  }

  lemma BracketedMembersLaidOut(v: Json, depth: nat, x: JsString)
    requires v.Obj? && v.entries != []
    requires LaidOut(Members(v.entries, depth + 1) + (Line(depth) + [125] + x), depth + 1)
    ensures LaidOut(Serialize(v, depth) + x, depth)
  {
    MembersHead(v.entries, depth + 1);
    ObjectText(v, depth, x);
    LineLaidOut(123, depth, depth + 1, Members(v.entries, depth + 1) + (Line(depth) + [125] + x));
  }

  lemma {:induction false} ItemsLaidOut(items: seq<Json>, depth: nat, tail: JsString)
    requires items != [] && forall i :: 0 <= i < |items| ==> Printable(items[i])
    requires Ends(tail) && LaidOut(tail, depth)
    ensures LaidOut(Items(items, depth) + tail, depth)
    decreases items, 0
  {
    var others := if |items| == 1 then [] else Items(items[1..], depth);
    ItemsText(items, depth, tail);
    if |items| > 1 {
      ItemsLaidOut(items[1..], depth, tail);
      ItemsHead(items[1..], depth);
      LineLaidOut(44, depth, depth, others + tail);
    }
    ValueLaidOut(items[0], depth, Rest(|items| == 1, depth, others, tail));
  }

  lemma {:induction false} MembersLaidOut(es: seq<Entry>, depth: nat, tail: JsString)
    requires es != [] && forall i :: 0 <= i < |es| ==> Printable(es[i].value)
    requires Ends(tail) && LaidOut(tail, depth)
    ensures LaidOut(Members(es, depth) + tail, depth)
    decreases es, 0
  {
    var others := if |es| == 1 then [] else Members(es[1..], depth);
    MembersText(es, depth, tail);
    if |es| > 1 {
      MembersLaidOut(es[1..], depth, tail);
      MembersHead(es[1..], depth);
      LineLaidOut(44, depth, depth, others + tail);
    }
    MemberLaidOut(es[0], depth, Rest(|es| == 1, depth, others, tail));
  }

  lemma {:induction false} MemberLaidOut(e: Entry, depth: nat, x: JsString)
    requires Printable(e.value) && LaidOut(x, depth)
    ensures LaidOut(Member(e, depth) + x, depth)
    decreases e, 0
  {
    var value := Serialize(e.value, depth) + x;
    ValueLaidOut(e.value, depth, x);
    Regroup(Quoted(e.key), [COLON, SPACE], Serialize(e.value, depth), x);
    assert ([COLON, SPACE] + value)[2..] == value;
    QuotedLaidOut(e.key, depth, [COLON, SPACE] + value);
  }

  /** The artifact is indented by two spaces per level and ends in one line break. */
  lemma ArtifactLaidOut(v: Json)
    requires WellFormed(v) && Printable(v)
    ensures LaidOut(Artifact(v), 0)
  {
    SortKeysPrintable(v);
    ValueLaidOut(SortKeys(v), 0, [NEWLINE]);
  }
}
