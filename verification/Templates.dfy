/**
 * Signal templates with `{{name}}` placeholders
 * (src/Implement Provider Signal Templates/signal-template.service.ts).
 */
module Templates {

  import opened Options
  import opened Sequences

  // ----------------------------------------------------------- placeholders

  /** A character matched by `\w`. */
  predicate IsWord(c: char)
  {
    'a' <= c <= 'z' || 'A' <= c <= 'Z' || '0' <= c <= '9' || c == '_'
  }

  /** Where the run of word characters that starts at `i` ends. */
  function WordEnd(s: string, i: nat): (j: nat)
    requires i <= |s|
    ensures i <= j <= |s|
    ensures forall k :: i <= k < j ==> IsWord(s[k])
    ensures j < |s| ==> !IsWord(s[j])
    decreases |s| - i
  {
    if i < |s| && IsWord(s[i]) then WordEnd(s, i + 1) else i
  }

  /** The length of a match of `\{\{(\w+)\}\}` at the start of `s`, or 0. */
  function HoleLength(s: string): (n: nat)
    ensures n <= |s| && (n > 0 ==> n >= 5)
  {
    if |s| < 2 || s[0] != '{' || s[1] != '{' then 0
    else
      var j := WordEnd(s, 2);
      if j > 2 && j + 2 <= |s| && s[j] == '}' && s[j + 1] == '}' then j + 2 else 0
  }

  /** The edges of `\w`: letters, digits and the underscore, and their neighbours in the code table. */
  lemma WordEdges()
    ensures IsWord('a') && IsWord('z') && IsWord('A') && IsWord('Z') && IsWord('0') && IsWord('9') && IsWord('_')
    ensures !IsWord('`') && !IsWord('{') && !IsWord('@') && !IsWord('[') && !IsWord('/') && !IsWord(':')
    ensures !IsWord('-') && !IsWord(' ') && !IsWord('^') && !IsWord('}')
  {
  }

  predicate Word(n: string)
  {
    n != "" && forall i :: 0 <= i < |n| ==> IsWord(n[i])
  }

  /** The text starts with the placeholder of this name. */
  predicate StartsWithHole(s: string, n: string)
  {
    Word(n) && "{{" + n + "}}" <= s
  }

  lemma HoleAt(s: string, n: string)
    requires StartsWithHole(s, n)
    ensures HoleLength(s) == |n| + 4 && s[2..|n| + 2] == n
  {
    var hole := "{{" + n + "}}";
    assert forall i :: 0 <= i < |hole| ==> s[i] == hole[i];
    assert forall i :: 0 <= i < |n| ==> s[2 + i] == n[i];
    assert s[2 + |n|] == '}' && s[3 + |n|] == '}';
    assert WordEnd(s, 2) == 2 + |n|;
  }

  lemma NameOfHole(s: string)
    requires HoleLength(s) > 0
    ensures StartsWithHole(s, s[2..HoleLength(s) - 2])
  {
    var k := HoleLength(s);
    assert s[..k] == "{{" + s[2..k - 2] + "}}";
  }

  /** A text is literal characters and holes; matches are taken from the left. */
  datatype Piece = Literal(c: char) | Hole(name: string)

  function Pieces(s: string): seq<Piece>
  {
    if s == "" then []
    else
      var n := HoleLength(s);
      if n > 0 then [Hole(s[2..n - 2])] + Pieces(s[n..]) else [Literal(s[0])] + Pieces(s[1..])
  }

  function PieceText(p: Piece): string
  {
    match p
    case Literal(c) => [c]
    case Hole(name) => "{{" + name + "}}"
  }

  function Text(ps: seq<Piece>): string
  {
    if ps == [] then "" else PieceText(ps[0]) + Text(ps[1..])
  }

  lemma TextCons(p: Piece, ps: seq<Piece>)
    ensures Text([p] + ps) == PieceText(p) + Text(ps)
  {
    assert ([p] + ps)[1..] == ps;
  }

  lemma HoleSpelling(s: string)
    requires HoleLength(s) > 0
    ensures s == PieceText(Hole(s[2..HoleLength(s) - 2])) + s[HoleLength(s)..]
  {
    var n := HoleLength(s);
    assert s[..n] == "{{" + s[2..n - 2] + "}}";
    assert s == s[..n] + s[n..];
  }

  /** Placeholders are found from the left: where a name in braces starts it is taken, elsewhere one character. */
  lemma ScanStep(s: string)
    requires s != ""
    ensures (forall n :: !StartsWithHole(s, n)) ==> Pieces(s) == [Literal(s[0])] + Pieces(s[1..])
    ensures forall n :: StartsWithHole(s, n) ==> |n| + 4 <= |s| && Pieces(s) == [Hole(n)] + Pieces(s[|n| + 4..])
  {
    if HoleLength(s) > 0 {
      NameOfHole(s);
    }
    forall n | StartsWithHole(s, n)
      ensures |n| + 4 <= |s| && Pieces(s) == [Hole(n)] + Pieces(s[|n| + 4..])
    {
      HoleAt(s, n);
    }
  }

  /** Scanning loses nothing: the pieces spell the text. */
  lemma {:induction false} PiecesSpellText(s: string)
    ensures Text(Pieces(s)) == s
  {
    if s != "" {
      var n := HoleLength(s);
      if n > 0 {
        PiecesSpellText(s[n..]);
        TextCons(Hole(s[2..n - 2]), Pieces(s[n..]));
        HoleSpelling(s);
      } else {
        PiecesSpellText(s[1..]);
        TextCons(Literal(s[0]), Pieces(s[1..]));
        assert s == [s[0]] + s[1..];
      }
    }
  }

  /** A blank behind a text neither makes nor breaks a match at its start. */
  lemma HoleLengthBeforeBlank(a: string, b: string)
    requires a != ""
    ensures HoleLength(a + " " + b) == HoleLength(a)
  {
    var s := a + " " + b;
    assert s[|a|] == ' ' && forall i :: 0 <= i < |a| ==> s[i] == a[i];
    if |a| >= 2 && a[0] == '{' && a[1] == '{' {
      WordEndBeforeBlank(a, b, 2);
    }
  }

  lemma {:induction false} WordEndBeforeBlank(a: string, b: string, i: nat)
    requires i <= |a|
    ensures WordEnd(a + " " + b, i) == WordEnd(a, i)
    decreases |a| - i
  {
    var s := a + " " + b;
    if i < |a| {
      assert s[i] == a[i];
      if IsWord(a[i]) {
        WordEndBeforeBlank(a, b, i + 1);
      }
    } else {
      assert s[i] == ' ';
    }
  }

  lemma JoinSlices(a: string, b: string, n: nat)
    requires 0 < n <= |a|
    ensures (a + " " + b)[n..] == a[n..] + " " + b && (a + " " + b)[0] == a[0]
    ensures n >= 4 ==> (a + " " + b)[2..n - 2] == a[2..n - 2]
  {
  }

  lemma PiecesOfBlank(b: string)
    ensures Pieces(" " + b) == [Literal(' ')] + Pieces(b)
  {
    assert (" " + b)[1..] == b;
  }

  /** The first piece of a text, and how many characters it takes. */
  function FirstPiece(s: string): (Piece, nat)
    requires s != ""
  {
    var n := HoleLength(s);
    if n > 0 then (Hole(s[2..n - 2]), n) else (Literal(s[0]), 1)
  }

  lemma PiecesUnfold(s: string)
    requires s != ""
    ensures var (p, n) := FirstPiece(s); 0 < n <= |s| && Pieces(s) == [p] + Pieces(s[n..])
  {
  }

  lemma SameFirstPiece(a: string, b: string)
    requires a != ""
    ensures FirstPiece(a + " " + b) == FirstPiece(a)
  {
    HoleLengthBeforeBlank(a, b);
    if HoleLength(a) > 0 {
      JoinSlices(a, b, HoleLength(a));
    }
  }

  lemma FirstPieceBeforeBlank(a: string, b: string)
    requires a != ""
    ensures var (p, n) := FirstPiece(a);
            && 0 < n <= |a| && Pieces(a) == [p] + Pieces(a[n..])
            && Pieces(a + " " + b) == [p] + Pieces(a[n..] + " " + b)
  {
    PiecesUnfold(a);
    PiecesUnfold(a + " " + b);
    SameFirstPiece(a, b);
    JoinSlices(a, b, FirstPiece(a).1);
  }

  /** Scanning two texts joined by a blank is scanning each of them. */
  lemma {:induction false} PiecesOfJoin(a: string, b: string)
    ensures Pieces(a + " " + b) == Pieces(a) + [Literal(' ')] + Pieces(b)
  {
    if a == "" {
      PiecesOfBlank(b);
      assert a + " " + b == " " + b;
    } else {
      FirstPieceBeforeBlank(a, b);
      var (p, n) := FirstPiece(a);
      PiecesOfJoin(a[n..], b);
      Regroup([p], Pieces(a[n..]), [Literal(' ')], Pieces(b));
    }
  }

  function HoleNames(ps: seq<Piece>): seq<string>
  {
    if ps == [] then []
    else if ps[0].Hole? then [ps[0].name] + HoleNames(ps[1..])
    else HoleNames(ps[1..])
  }

  /** `[...text.matchAll(/\{\{(\w+)\}\}/g)].map((m) => m[1])`. */
  function Placeholders(s: string): seq<string>
  {
    HoleNames(Pieces(s))
  }

  lemma {:induction false} HoleNamesConcat(ps: seq<Piece>, qs: seq<Piece>)
    ensures HoleNames(ps + qs) == HoleNames(ps) + HoleNames(qs)
  {
    if ps == [] {
      assert ps + qs == qs;
    } else {
      assert (ps + qs)[1..] == ps[1..] + qs;
      HoleNamesConcat(ps[1..], qs);
    }
  }

  /** `values.join(' ')`. */
  function Join(texts: seq<string>): string
  {
    if texts == [] then "" else if |texts| == 1 then texts[0] else texts[0] + " " + Join(texts[1..])
  }

  function AllPlaceholders(texts: seq<string>): seq<string>
  {
    if texts == [] then [] else Placeholders(texts[0]) + AllPlaceholders(texts[1..])
  }

  /** The joined fields hold exactly the placeholders of the fields, in order. */
  lemma {:induction false} PlaceholdersOfJoin(texts: seq<string>)
    ensures Placeholders(Join(texts)) == AllPlaceholders(texts)
  {
    if |texts| == 1 {
      assert texts[1..] == [];
    } else if |texts| > 1 {
      PlaceholdersOfJoin(texts[1..]);
      var a, b := texts[0], Join(texts[1..]);
      PiecesOfJoin(a, b);
      HoleNamesConcat(Pieces(a) + [Literal(' ')], Pieces(b));
      HoleNamesConcat(Pieces(a), [Literal(' ')]);
    }
  }

  lemma {:induction false} AllPlaceholdersMember(texts: seq<string>, name: string)
    ensures name in AllPlaceholders(texts) <==> exists i :: 0 <= i < |texts| && name in Placeholders(texts[i])
  {
    if texts != [] {
      AllPlaceholdersMember(texts[1..], name);
      if name in AllPlaceholders(texts[1..]) {
        var j :| 0 <= j < |texts[1..]| && name in Placeholders(texts[1..][j]);
        assert name in Placeholders(texts[j + 1]);
      }
      if i :| 0 <= i < |texts| && name in Placeholders(texts[i]) {
        if i > 0 {
          assert name in Placeholders(texts[1..][i - 1]);
        }
      }
    }
  }

  // ------------------------------------------------------------ substitution

  datatype Filled = Filled(text: string) | Missing(name: string)

  /** `substituteVariables`: the first placeholder without a value is an error. */
  function Fill(ps: seq<Piece>, vars: map<string, string>): Filled
  {
    if ps == [] then Filled("")
    else if ps[0].Hole? && ps[0].name !in vars then Missing(ps[0].name)
    else
      var rest := Fill(ps[1..], vars);
      if rest.Missing? then rest
      else Filled((if ps[0].Hole? then vars[ps[0].name] else [ps[0].c]) + rest.text)
  }

  function Substitute(text: string, vars: map<string, string>): Filled
  {
    Fill(Pieces(text), vars)
  }

  /** Substitution fails exactly when some placeholder of the text has no value. */
  lemma {:induction false} FillFailsIff(ps: seq<Piece>, vars: map<string, string>)
    ensures Fill(ps, vars).Filled? <==> forall n :: n in HoleNames(ps) ==> n in vars
    ensures Fill(ps, vars).Missing? ==> Fill(ps, vars).name in HoleNames(ps) && Fill(ps, vars).name !in vars
  {
    if ps != [] {
      FillFailsIff(ps[1..], vars);
    }
  }

  /** A text without placeholders comes through unchanged. */
  lemma {:induction false} FillKeepsPlainText(ps: seq<Piece>, vars: map<string, string>)
    requires HoleNames(ps) == []
    ensures Fill(ps, vars) == Filled(Text(ps))
  {
    if ps != [] {
      FillKeepsPlainText(ps[1..], vars);
    }
  }

  /** Filling two texts one after the other is filling their concatenation. */
  lemma {:induction false} FillConcat(ps: seq<Piece>, qs: seq<Piece>, vars: map<string, string>)
    requires Fill(ps, vars).Filled? && Fill(qs, vars).Filled?
    ensures Fill(ps + qs, vars) == Filled(Fill(ps, vars).text + Fill(qs, vars).text)
  {
    if ps == [] {
      assert ps + qs == qs;
    } else {
      assert (ps + qs)[1..] == ps[1..] + qs;
      FillConcat(ps[1..], qs, vars);
      var value := if ps[0].Hole? then vars[ps[0].name] else [ps[0].c];
      Regroup(value, Fill(ps[1..], vars).text, Fill(qs, vars).text, []);
    }
  }

  lemma FillHole(n: string, ps: seq<Piece>, vars: map<string, string>)
    ensures n !in vars ==> Fill([Hole(n)] + ps, vars) == Missing(n)
    ensures n in vars && Fill(ps, vars).Filled? ==> Fill([Hole(n)] + ps, vars) == Filled(vars[n] + Fill(ps, vars).text)
    ensures n in vars && Fill(ps, vars).Missing? ==> Fill([Hole(n)] + ps, vars) == Fill(ps, vars)
  {
    assert ([Hole(n)] + ps)[1..] == ps;
  }

  lemma ScanHole(n: string, b: string)
    requires Word(n)
    ensures Pieces("{{" + n + "}}" + b) == [Hole(n)] + Pieces(b)
  {
    var text := "{{" + n + "}}" + b;
    assert StartsWithHole(text, n);
    ScanStep(text);
    assert text[|n| + 4..] == b;
  }

  /** A placeholder becomes its value; behind it the text goes on as if it stood alone. */
  lemma HoleBecomesValue(n: string, b: string, vars: map<string, string>)
    requires Word(n)
    ensures var text := "{{" + n + "}}" + b;
            && (n !in vars ==> Substitute(text, vars) == Missing(n))
            && (n in vars && Substitute(b, vars).Filled? ==>
                Substitute(text, vars) == Filled(vars[n] + Substitute(b, vars).text))
            && (n in vars && Substitute(b, vars).Missing? ==> Substitute(text, vars) == Substitute(b, vars))
  {
    ScanHole(n, b);
    FillHole(n, Pieces(b), vars);
  }

  lemma LiteralStays(c: char, b: string, vars: map<string, string>)
    requires c != '{' && Substitute(b, vars).Filled?
    ensures Substitute([c] + b, vars) == Filled([c] + Substitute(b, vars).text)
  {
    assert ([c] + b)[1..] == b;
  }

  /** `Buy {{asset}} now` with XLM for asset becomes `Buy XLM now`. */
  lemma {:induction false} SubstituteInText(a: string, n: string, b: string, vars: map<string, string>)
    requires (forall i :: 0 <= i < |a| ==> a[i] != '{') && Word(n) && n in vars && Substitute(b, vars).Filled?
    ensures Substitute(a + ("{{" + n + "}}" + b), vars) == Filled(a + (vars[n] + Substitute(b, vars).text))
  {
    var rest := "{{" + n + "}}" + b;
    if a == "" {
      HoleBecomesValue(n, b, vars);
      assert a + rest == rest && a + (vars[n] + Substitute(b, vars).text) == vars[n] + Substitute(b, vars).text;
    } else {
      SubstituteInText(a[1..], n, b, vars);
      LiteralStays(a[0], a[1..] + rest, vars);
      assert a == [a[0]] + a[1..];
      Regroup([a[0]], a[1..], rest, []);
      Regroup([a[0]], a[1..], vars[n] + Substitute(b, vars).text, []);
    }
  }

  // --------------------------------------------------------------- templates

  datatype Structure = Structure(
    rationaleTemplate: string,
    stopLossFormula: string,
    takeProfitFormula: string,
    direction: Option<string>,
    timeframe: Option<string>,
    additionalNotes: Option<string>)

  /** The `structure` part of an update: only the given fields replace the old ones. */
  datatype Patch = Patch(
    rationaleTemplate: Option<string>,
    stopLossFormula: Option<string>,
    takeProfitFormula: Option<string>,
    direction: Option<string>,
    timeframe: Option<string>,
    additionalNotes: Option<string>)

  function Either(patch: Option<string>, kept: Option<string>): Option<string>
  {
    if patch.Some? then patch else kept
  }

  /** `{ ...template.structure, ...dto.structure }`. */
  function Merge(s: Structure, p: Patch): Structure
  {
    Structure(OrElse(p.rationaleTemplate, s.rationaleTemplate),
              OrElse(p.stopLossFormula, s.stopLossFormula),
              OrElse(p.takeProfitFormula, s.takeProfitFormula),
              Either(p.direction, s.direction), Either(p.timeframe, s.timeframe),
              Either(p.additionalNotes, s.additionalNotes))
  }

  /** The fields by name: an update replaces exactly those it gives. */
  datatype Field = Rationale | StopLoss | TakeProfit | Direction | Timeframe | Notes

  function FieldOf(s: Structure, f: Field): Option<string>
  {
    match f
    case Rationale => Some(s.rationaleTemplate)
    case StopLoss => Some(s.stopLossFormula)
    case TakeProfit => Some(s.takeProfitFormula)
    case Direction => s.direction
    case Timeframe => s.timeframe
    case Notes => s.additionalNotes
  }

  function GivenOf(p: Patch, f: Field): Option<string>
  {
    match f
    case Rationale => p.rationaleTemplate
    case StopLoss => p.stopLossFormula
    case TakeProfit => p.takeProfitFormula
    case Direction => p.direction
    case Timeframe => p.timeframe
    case Notes => p.additionalNotes
  }

  lemma MergeReplacesGiven(s: Structure, p: Patch, f: Field)
    ensures FieldOf(Merge(s, p), f) == if GivenOf(p, f).Some? then GivenOf(p, f) else FieldOf(s, f)
  {
  }

  function Present(x: Option<string>): seq<string>
  {
    if x.Some? then [x.value] else []
  }

  /** `Object.values(structure)`. */
  function Fields(s: Structure): seq<string>
  {
    [s.rationaleTemplate, s.stopLossFormula, s.takeProfitFormula]
    + Present(s.direction) + Present(s.timeframe) + Present(s.additionalNotes)
  }

  function Dedupe(names: seq<string>): seq<string>
  {
    if names == [] then []
    else
      var front, n := Dedupe(names[..|names| - 1]), names[|names| - 1];
      if n in front then front else front + [n]
  }

  function Outside(names: seq<string>, declared: seq<string>): seq<string>
  {
    if names == [] then []
    else if names[0] in declared then Outside(names[1..], declared)
    else [names[0]] + Outside(names[1..], declared)
  }

  lemma {:induction false} DedupeMember(names: seq<string>, n: string)
    ensures n in Dedupe(names) <==> n in names
  {
    if names != [] {
      DedupeMember(names[..|names| - 1], n);
      assert n in names <==> n in names[..|names| - 1] || n == names[|names| - 1];
    }
  }

  lemma {:induction false} OutsideMember(names: seq<string>, declared: seq<string>, n: string)
    ensures n in Outside(names, declared) <==> n in names && n !in declared
  {
    if names != [] {
      OutsideMember(names[1..], declared, n);
    }
  }

  /** The list `validateVariablesConsistency` complains about. */
  function Undeclared(s: Structure, declared: seq<string>): seq<string>
  {
    Outside(Dedupe(Placeholders(Join(Fields(s)))), declared)
  }

  /** Every placeholder of every field is declared. */
  ghost predicate Declares(s: Structure, declared: seq<string>)
  {
    forall i, n :: 0 <= i < |Fields(s)| && n in Placeholders(Fields(s)[i]) ==> n in declared
  }

  /** Checking the joined text is checking each field. */
  lemma UndeclaredEmptyIff(s: Structure, declared: seq<string>)
    ensures Undeclared(s, declared) == [] <==> Declares(s, declared)
  {
    var texts := Fields(s);
    var names := Placeholders(Join(texts));
    PlaceholdersOfJoin(texts);
    if Undeclared(s, declared) == [] {
      forall i, n | 0 <= i < |texts| && n in Placeholders(texts[i])
        ensures n in declared
      {
        AllPlaceholdersMember(texts, n);
        DedupeMember(names, n);
        OutsideMember(Dedupe(names), declared, n);
      }
    } else {
      var n := Undeclared(s, declared)[0];
      OutsideMember(Dedupe(names), declared, n);
      DedupeMember(names, n);
      AllPlaceholdersMember(texts, n);
    }
  }

  ghost predicate NoRepeats(names: seq<string>)
  {
    forall i, j :: 0 <= i < j < |names| ==> names[i] != names[j]
  }

  lemma {:induction false} DedupeNoRepeats(names: seq<string>)
    ensures NoRepeats(Dedupe(names))
  {
    if names != [] {
      DedupeNoRepeats(names[..|names| - 1]);
    }
  }

  lemma {:induction false} OutsideNoRepeats(names: seq<string>, declared: seq<string>)
    requires NoRepeats(names)
    ensures NoRepeats(Outside(names, declared))
  {
    if names != [] {
      OutsideNoRepeats(names[1..], declared);
      var rest := Outside(names[1..], declared);
      forall i | 0 <= i < |rest|
        ensures rest[i] != names[0]
      {
        OutsideMember(names[1..], declared, rest[i]);
      }
    }
  }

  /** Names keep the order of their first use. */
  lemma {:induction false} DedupeGrows(a: seq<string>, b: seq<string>)
    ensures Dedupe(a) <= Dedupe(a + b)
  {
    if b == [] {
      assert a + b == a;
    } else {
      DedupeGrows(a, b[..|b| - 1]);
      assert (a + b)[..|a + b| - 1] == a + b[..|b| - 1];
    }
  }

  lemma {:induction false} OutsideConcat(a: seq<string>, b: seq<string>, declared: seq<string>)
    ensures Outside(a + b, declared) == Outside(a, declared) + Outside(b, declared)
  {
    if a == [] {
      assert a + b == b;
    } else {
      OutsideConcat(a[1..], b, declared);
      assert (a + b)[1..] == a[1..] + b && (a + b)[0] == a[0];
      Regroup([a[0]], Outside(a[1..], declared), Outside(b, declared), []);
    }
  }

  /** The complaint names each placeholder that some field uses and nobody declared, once. */
  lemma UndeclaredListed(s: Structure, declared: seq<string>, n: string)
    ensures n in Undeclared(s, declared) <==>
            n !in declared && exists i :: 0 <= i < |Fields(s)| && n in Placeholders(Fields(s)[i])
    ensures NoRepeats(Undeclared(s, declared))
  {
    var names := Placeholders(Join(Fields(s)));
    PlaceholdersOfJoin(Fields(s));
    AllPlaceholdersMember(Fields(s), n);
    DedupeMember(names, n);
    OutsideMember(Dedupe(names), declared, n);
    DedupeNoRepeats(names);
    OutsideNoRepeats(Dedupe(names), declared);
  }

  datatype Template = Template(
    id: string,
    providerId: string,
    name: string,
    structure: Structure,
    variables: seq<string>,
    usageCount: nat,
    isPublic: bool,
    version: nat,
    previousVersionId: Option<string>,
    isActive: bool)

  datatype Error =
    | NotFound
    | NotOwner
    | NoAccess
    | UndeclaredPlaceholders(names: seq<string>)
    | MissingVariables(names: seq<string>)
    | BadEntryPrice
    | MissingPlaceholder(name: string)
    | BadFormula
    | BadSignal

  datatype Signal = Signal(
    rationale: string,
    stopLoss: real,
    takeProfit: real,
    direction: Option<string>,
    timeframe: Option<string>,
    additionalNotes: Option<string>,
    templateId: string,
    templateVersion: nat)

  datatype Outcome<T> = Ok(value: T) | Err(error: Error)

  // -------------------------------------------------------- using a template

  function MissingOf(declared: seq<string>, provided: map<string, string>): seq<string>
  {
    if declared == [] then []
    else if declared[0] in provided then MissingOf(declared[1..], provided)
    else [declared[0]] + MissingOf(declared[1..], provided)
  }

  lemma {:induction false} MissingOfEmpty(declared: seq<string>, provided: map<string, string>)
    ensures MissingOf(declared, provided) == [] <==> forall n :: n in declared ==> n in provided
  {
    if declared != [] {
      MissingOfEmpty(declared[1..], provided);
    }
  }

  lemma {:induction false} MissingOfListed(declared: seq<string>, provided: map<string, string>, n: string)
    ensures n in MissingOf(declared, provided) <==> n in declared && n !in provided
  {
    if declared != [] {
      MissingOfListed(declared[1..], provided, n);
    }
  }

  lemma {:induction false} MissingOfConcat(a: seq<string>, b: seq<string>, provided: map<string, string>)
    ensures MissingOf(a + b, provided) == MissingOf(a, provided) + MissingOf(b, provided)
  {
    if a == [] {
      assert a + b == b;
    } else {
      MissingOfConcat(a[1..], b, provided);
      assert (a + b)[1..] == a[1..] + b && (a + b)[0] == a[0];
      Regroup([a[0]], MissingOf(a[1..], provided), MissingOf(b, provided), []);
    }
  }

  /** An optional field is filled only when it is present and not empty. */
  function FillField(field: Option<string>, vars: map<string, string>): Outcome<Option<string>>
  {
    if field.None? || field.value == "" then Ok(None)
    else
      match Substitute(field.value, vars)
      case Missing(name) => Err(MissingPlaceholder(name))
      case Filled(text) => Ok(Some(text))
  }

  function Upper(s: string): string
  {
    if s == "" then "" else [if 'a' <= s[0] <= 'z' then s[0] - 'a' + 'A' else s[0]] + Upper(s[1..])
  }

  /** `validateSignalValues`: a signal without direction counts as long. */
  predicate Sane(entry: real, stop: real, profit: real, direction: Option<string>)
  {
    && stop > 0.0 && profit > 0.0
    && var dir := if direction.Some? then Upper(direction.value) else "";
       if dir == "LONG" || dir == "" then stop < entry < profit
       else if dir == "SHORT" then profit < entry < stop
       else true
  }

  /** The numbers a request yields: its entry price and the values of the two formulas, if they are numbers. */
  datatype Numbers = Numbers(entryPrice: Option<real>, stopLoss: Option<real>, takeProfit: Option<real>)

  function Generate(t: Template, vars: map<string, string>, numbers: Numbers): Outcome<Signal>
  {
    var missing := MissingOf(t.variables, vars);
    if missing != [] then Err(MissingVariables(missing))
    else if "entry_price" in vars && (numbers.entryPrice.None? || numbers.entryPrice.value <= 0.0) then
      Err(BadEntryPrice)
    else
      match Substitute(t.structure.rationaleTemplate, vars)
      case Missing(name) => Err(MissingPlaceholder(name))
      case Filled(rationale) =>
        if "entry_price" !in vars || numbers.entryPrice.None? then Err(BadEntryPrice)
        else if numbers.stopLoss.None? || numbers.takeProfit.None? then Err(BadFormula)
        else
          var direction := FillField(t.structure.direction, vars);
          if direction.Err? then Err(direction.error) else
          var timeframe := FillField(t.structure.timeframe, vars);
          if timeframe.Err? then Err(timeframe.error) else
          var notes := FillField(t.structure.additionalNotes, vars);
          if notes.Err? then Err(notes.error) else
          if !Sane(numbers.entryPrice.value, numbers.stopLoss.value, numbers.takeProfit.value, direction.value)
          then Err(BadSignal)
          else Ok(Signal(rationale, numbers.stopLoss.value, numbers.takeProfit.value, direction.value,
                         timeframe.value, notes.value, t.id, t.version))
  }

  /** The word in any mixture of small and capital letters. */
  predicate Spells(d: string, word: string)
  {
    |d| == |word| && forall i :: 0 <= i < |d| ==> d[i] == word[i] || d[i] as int == word[i] as int + 32
  }

  lemma {:induction false} UpperIsSpelling(d: string, word: string)
    requires forall i :: 0 <= i < |word| ==> 'A' <= word[i] <= 'Z'
    ensures Upper(d) == word <==> Spells(d, word)
  {
    if d == "" || word == "" {
      assert d != "" ==> Upper(d) != "";
    } else {
      UpperIsSpelling(d[1..], word[1..]);
      var c := if 'a' <= d[0] <= 'z' then d[0] - 'a' + 'A' else d[0];
      assert Upper(d) == [c] + Upper(d[1..]) && word == [word[0]] + word[1..];
      assert c == word[0] <==> d[0] == word[0] || d[0] as int == word[0] as int + 32;
      assert Upper(d) == word <==> c == word[0] && Upper(d[1..]) == word[1..] by {
        assert Upper(d)[0] == c && Upper(d)[1..] == Upper(d[1..]);
      }
      assert Spells(d, word) <==> (d[0] == word[0] || d[0] as int == word[0] as int + 32) && Spells(d[1..], word[1..]);
    }
  }

  /** An optional field comes out filled, or not at all if it is absent or empty. */
  ghost predicate Delivered(field: Option<string>, vars: map<string, string>, text: Option<string>)
  {
    if field.None? || field.value == "" then text.None?
    else text.Some? && Substitute(field.value, vars) == Filled(text.value)
  }

  /** Stop and target lie on the sides of the entry price that the direction asks for; no direction means long. */
  ghost predicate OnTheRightSides(entry: real, stop: real, profit: real, direction: Option<string>)
  {
    && 0.0 < stop && 0.0 < profit
    && (direction.None? || direction.value == "" || Spells(direction.value, "LONG") ==> stop < entry < profit)
    && (direction.Some? && Spells(direction.value, "SHORT") ==> profit < entry < stop)
  }

  lemma SaneMeansRightSides(entry: real, stop: real, profit: real, direction: Option<string>)
    ensures Sane(entry, stop, profit, direction) <==> OnTheRightSides(entry, stop, profit, direction)
  {
    if direction.Some? {
      UpperIsSpelling(direction.value, "LONG");
      UpperIsSpelling(direction.value, "SHORT");
      UpperIsSpelling(direction.value, "");
    }
  }

  /** The signal a request with these inputs deserves. */
  ghost predicate Delivers(t: Template, vars: map<string, string>, numbers: Numbers, signal: Signal)
  {
    && (forall n :: n in t.variables ==> n in vars)
    && "entry_price" in vars && numbers.entryPrice.Some? && numbers.entryPrice.value > 0.0
    && Substitute(t.structure.rationaleTemplate, vars) == Filled(signal.rationale)
    && Delivered(t.structure.direction, vars, signal.direction)
    && Delivered(t.structure.timeframe, vars, signal.timeframe)
    && Delivered(t.structure.additionalNotes, vars, signal.additionalNotes)
    && numbers.stopLoss == Some(signal.stopLoss) && numbers.takeProfit == Some(signal.takeProfit)
    && OnTheRightSides(numbers.entryPrice.value, signal.stopLoss, signal.takeProfit, signal.direction)
    && signal.templateId == t.id && signal.templateVersion == t.version
  }

  lemma FillFieldDelivers(field: Option<string>, vars: map<string, string>, text: Option<string>)
    ensures FillField(field, vars) == Ok(text) <==> Delivered(field, vars, text)
  {
  }

  /** A signal is generated iff the inputs are complete and in order, and it is the one they deserve. */
  lemma GeneratesIffDelivers(t: Template, vars: map<string, string>, numbers: Numbers, signal: Signal)
    ensures Generate(t, vars, numbers) == Ok(signal) <==> Delivers(t, vars, numbers, signal)
  {
    MissingOfEmpty(t.variables, vars);
    FillFieldDelivers(t.structure.direction, vars, signal.direction);
    FillFieldDelivers(t.structure.timeframe, vars, signal.timeframe);
    FillFieldDelivers(t.structure.additionalNotes, vars, signal.additionalNotes);
    if numbers.entryPrice.Some? {
      SaneMeansRightSides(numbers.entryPrice.value, signal.stopLoss, signal.takeProfit, signal.direction);
    }
  }

  ghost predicate Consistent(t: Template)
  {
    Declares(t.structure, t.variables)
  }

  lemma FieldFillable(t: Template, vars: map<string, string>, i: nat)
    requires Consistent(t) && MissingOf(t.variables, vars) == [] && i < |Fields(t.structure)|
    ensures Substitute(Fields(t.structure)[i], vars).Filled?
  {
    MissingOfEmpty(t.variables, vars);
    FillFailsIff(Pieces(Fields(t.structure)[i]), vars);
  }

  lemma OptionalFillable(t: Template, vars: map<string, string>, field: Option<string>)
    requires Consistent(t) && MissingOf(t.variables, vars) == []
    requires field.Some? ==> field.value in Fields(t.structure)
    ensures FillField(field, vars).Ok?
  {
    if field.Some? {
      var i :| 0 <= i < |Fields(t.structure)| && Fields(t.structure)[i] == field.value;
      FieldFillable(t, vars, i);
    }
  }

  /** Once the inputs of a consistent template are accepted, no substitution can miss a value. */
  lemma AcceptedInputsNeverMiss(t: Template, vars: map<string, string>, numbers: Numbers)
    requires Consistent(t)
    ensures var r := Generate(t, vars, numbers); r.Err? ==> !r.error.MissingPlaceholder?
  {
    if MissingOf(t.variables, vars) == [] {
      FieldFillable(t, vars, 0);
      OptionalFillable(t, vars, t.structure.direction);
      OptionalFillable(t, vars, t.structure.timeframe);
      OptionalFillable(t, vars, t.structure.additionalNotes);
    }
  }

  // ------------------------------------------------------------- the service

  class SignalTemplateService {
    var templates: map<string, Template>

    /** Every stored template declares all its placeholders, and is stored under its own id. */
    ghost predicate Valid()
      reads this
    {
      forall id :: id in templates ==> Consistent(templates[id]) && templates[id].id == id
    }

    constructor ()
      ensures Valid() && templates == map[]
    {
      templates := map[];
    }

    method FindOne(id: string) returns (r: Outcome<Template>)
      ensures r == if id in templates && templates[id].isActive then Ok(templates[id]) else Err(NotFound)
    {
      r := if id in templates && templates[id].isActive then Ok(templates[id]) else Err(NotFound);
    }

    method Create(id: string, providerId: string, name: string, structure: Structure, variables: seq<string>,
                  isPublic: bool)
      returns (r: Outcome<Template>)
      requires Valid() && id !in templates
      modifies this
      ensures Valid()
      ensures r.Ok? <==> Declares(structure, variables)
      ensures r.Ok? ==> r.value == Template(id, providerId, name, structure, variables, 0, isPublic, 1, None, true)
                        && templates == old(templates)[id := r.value]
      ensures r.Err? ==>
                r.error == UndeclaredPlaceholders(Undeclared(structure, variables)) && templates == old(templates)
    {
      UndeclaredEmptyIff(structure, variables);
      var undeclared := Undeclared(structure, variables);
      if undeclared != [] {
        return Err(UndeclaredPlaceholders(undeclared));
      }
      var t := Template(id, providerId, name, structure, variables, 0, isPublic, 1, None, true);
      templates := templates[id := t];
      r := Ok(t);
    }

    /** The merged template is checked again whenever structure or variables change. */
    method Update(id: string, providerId: string, name: Option<string>, patch: Option<Patch>,
                  variables: Option<seq<string>>, isPublic: Option<bool>)
      returns (r: Outcome<Template>)
      requires Valid()
      modifies this
      ensures Valid()
      ensures r.Err? ==> templates == old(templates)
      ensures r.Ok? <==>
                && id in old(templates) && old(templates)[id].isActive && old(templates)[id].providerId == providerId
                && var t := old(templates)[id];
                   Declares(if patch.Some? then Merge(t.structure, patch.value) else t.structure,
                            OrElse(variables, t.variables))
      ensures r == Err(NotFound) <==> id !in old(templates) || !old(templates)[id].isActive
      ensures r == Err(NotOwner) <==>
                id in old(templates) && old(templates)[id].isActive && old(templates)[id].providerId != providerId
      ensures r.Ok? ==>
                && templates == old(templates)[id := r.value]
                && var t := old(templates)[id];
                   r.value == t.(name := OrElse(name, t.name), isPublic := OrElse(isPublic, t.isPublic),
                                 structure := if patch.Some? then Merge(t.structure, patch.value) else t.structure,
                                 variables := OrElse(variables, t.variables),
                                 version := t.version + 1, previousVersionId := Some(t.id))
    {
      var found := FindOne(id);
      if found.Err? {
        return found;
      }
      var t := found.value;
      if t.providerId != providerId {
        return Err(NotOwner);
      }
      var newStructure := if patch.Some? then Merge(t.structure, patch.value) else t.structure;
      var newVariables := OrElse(variables, t.variables);
      UndeclaredEmptyIff(newStructure, newVariables);
      if patch.Some? || variables.Some? {
        var undeclared := Undeclared(newStructure, newVariables);
        if undeclared != [] {
          return Err(UndeclaredPlaceholders(undeclared));
        }
      }
      t := t.(name := OrElse(name, t.name), isPublic := OrElse(isPublic, t.isPublic), structure := newStructure,
              variables := newVariables, version := t.version + 1, previousVersionId := Some(t.id));
      templates := templates[id := t];
      r := Ok(t);
    }

    method SoftDelete(id: string, providerId: string) returns (r: Outcome<Template>)
      requires Valid()
      modifies this
      ensures Valid()
      ensures r.Err? ==> templates == old(templates)
      ensures r.Ok? <==>
                id in old(templates) && old(templates)[id].isActive && old(templates)[id].providerId == providerId
      ensures r == Err(NotFound) <==> id !in old(templates) || !old(templates)[id].isActive
      ensures r == Err(NotOwner) <==>
                id in old(templates) && old(templates)[id].isActive && old(templates)[id].providerId != providerId
      ensures r.Ok? ==> templates == old(templates)[id := old(templates)[id].(isActive := false)]
    {
      r := FindOne(id);
      if r.Ok? {
        if r.value.providerId != providerId {
          return Err(NotOwner);
        }
        templates := templates[id := r.value.(isActive := false)];
      }
    }

    /** A clone is private, starts over at version 1 and inherits structure and variables. */
    method CloneTemplate(id: string, newId: string, providerId: string) returns (r: Outcome<Template>)
      requires Valid() && newId !in templates
      modifies this
      ensures Valid()
      ensures r.Err? ==> templates == old(templates)
      ensures r.Ok? <==> id in old(templates) && old(templates)[id].isActive
                         && (old(templates)[id].isPublic || old(templates)[id].providerId == providerId)
      ensures r == Err(NotFound) <==> id !in old(templates) || !old(templates)[id].isActive
      ensures r == Err(NoAccess) <==> id in old(templates) && old(templates)[id].isActive
                                      && !old(templates)[id].isPublic && old(templates)[id].providerId != providerId
      ensures r.Ok? ==>
                && templates == old(templates)[newId := r.value]
                && r.value == old(templates)[id].(id := newId, providerId := providerId,
                     name := old(templates)[id].name + " (copy)", usageCount := 0, version := 1,
                     previousVersionId := None, isPublic := false)
    {
      var found := FindOne(id);
      if found.Err? {
        return found;
      }
      var source := found.value;
      if !source.isPublic && source.providerId != providerId {
        return Err(NoAccess);
      }
      var clone := source.(id := newId, providerId := providerId, name := source.name + " (copy)", usageCount := 0,
                           version := 1, previousVersionId := None, isPublic := false);
      templates := templates[newId := clone];
      r := Ok(clone);
    }

    /** Access first, then the inputs. */
    method Produce(id: string, providerId: string, vars: map<string, string>, numbers: Numbers)
      returns (r: Outcome<Signal>)
      requires Valid()
      ensures r == if id !in templates || !templates[id].isActive then Err(NotFound)
                   else if templates[id].providerId != providerId && !templates[id].isPublic then Err(NoAccess)
                   else Generate(templates[id], vars, numbers)
      ensures r.Err? ==> !r.error.MissingPlaceholder?
      ensures r.Ok? ==> id in templates && Delivers(templates[id], vars, numbers, r.value)
    {
      var found := FindOne(id);
      if found.Err? {
        return Err(found.error);
      }
      var t := found.value;
      if t.providerId != providerId && !t.isPublic {
        return Err(NoAccess);
      }
      AcceptedInputsNeverMiss(t, vars, numbers);
      r := Generate(t, vars, numbers);
      if r.Ok? {
        GeneratesIffDelivers(t, vars, numbers, r.value);
      }
    }

    /**
     * For no template this service can hold does a substitution meet a
     * placeholder without value. Success counts one use, unless that write is lost.
     */
    method GenerateSignal(id: string, providerId: string, vars: map<string, string>, numbers: Numbers, counted: bool)
      returns (r: Outcome<Signal>)
      requires Valid()
      modifies this
      ensures Valid()
      ensures r.Err? ==> !r.error.MissingPlaceholder?
      ensures r.Ok? ==> id in old(templates) && Delivers(old(templates)[id], vars, numbers, r.value)
      ensures r == var ts := old(templates);
                   if id !in ts || !ts[id].isActive then Err(NotFound)
                   else if ts[id].providerId != providerId && !ts[id].isPublic then Err(NoAccess)
                   else Generate(ts[id], vars, numbers)
      ensures var ts := old(templates);
              templates == if r.Ok? && counted then ts[id := ts[id].(usageCount := ts[id].usageCount + 1)] else ts
    {
      r := Produce(id, providerId, vars, numbers);
      if r.Ok? && counted {
        templates := templates[id := templates[id].(usageCount := templates[id].usageCount + 1)];
      }
    }
  }
}
