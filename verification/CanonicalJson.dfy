/**
 * The key ordering that makes the generated OpenAPI document byte-stable
 * (scripts/openapi/generate-openapi.ts, `sortKeys`).
 */
module CanonicalJson {

  import opened Sorting

  /** JavaScript strings are sequences of UTF-16 code units, and compare by them. */
  type CodeUnit = c: int | 0 <= c < 0x1_0000
  type JsString = seq<CodeUnit>

  /**
   * A JSON value as JavaScript holds it: an object lists its properties in
   * enumeration order. A number is represented by its decimal text.
   */
  datatype Json =
    | Null
    | Bool(b: bool)
    | Num(text: JsString)
    | Str(s: JsString)
    | Arr(items: seq<Json>)
    | Obj(entries: seq<Entry>)

  datatype Entry = Entry(key: JsString, value: Json)

  /** What a document says, whatever the order of its properties. */
  datatype Doc =
    | DNull
    | DBool(b: bool)
    | DNum(text: JsString)
    | DStr(s: JsString)
    | DArr(items: seq<Doc>)
    | DObj(members: map<JsString, Doc>)

  ghost predicate DistinctKeys(es: seq<Entry>)
  {
    forall i, j :: 0 <= i < j < |es| ==> es[i].key != es[j].key
  }

  /** Property names are unique, at every depth. */
  ghost predicate WellFormed(v: Json)
  {
    match v
    case Arr(items) => forall i :: 0 <= i < |items| ==> WellFormed(items[i])
    case Obj(es) => DistinctKeys(es) && forall i :: 0 <= i < |es| ==> WellFormed(es[i].value)
    case _ => true
  }

  ghost function Denote(v: Json): Doc
  {
    match v
    case Null => DNull
    case Bool(b) => DBool(b)
    case Num(t) => DNum(t)
    case Str(s) => DStr(s)
    case Arr(items) => DArr(seq(|items|, i requires 0 <= i < |items| => Denote(items[i])))
    case Obj(es) => DObj(DenoteEntries(es))
  }

  ghost function DenoteEntries(es: seq<Entry>): map<JsString, Doc>
  {
    if es == [] then map[] else DenoteEntries(es[1..])[es[0].key := Denote(es[0].value)]
  }

  // ---------------------------------------------------------------- orders

  /** `a < b` on strings. */
  predicate Less(a: JsString, b: JsString)
  {
    b != [] && (a == [] || a[0] < b[0] || (a[0] == b[0] && Less(a[1..], b[1..])))
  }

  /** The sort comparator is at most zero unless the first key is the greater one. */
  function EntryLe(x: Entry, y: Entry): bool
  {
    !Less(y.key, x.key)
  }

  lemma {:induction false} LessTotal(a: JsString, b: JsString)
    ensures Less(a, b) || Less(b, a) || a == b
    ensures !(Less(a, b) && Less(b, a))
  {
    if a != [] && b != [] && a[0] == b[0] {
      LessTotal(a[1..], b[1..]);
      assert a == [a[0]] + a[1..] && b == [b[0]] + b[1..];
    }
  }

  /** The strings agree before place `i`, where `a` ends or has the smaller unit. */
  predicate DecidesAt(a: JsString, b: JsString, i: nat)
  {
    i <= |a| && i < |b| && a[..i] == b[..i] && (i == |a| || a[i] < b[i])
  }

  /** The order of strings: the first unit that differs decides, and a proper prefix comes first. */
  lemma {:induction false} LessMeaning(a: JsString, b: JsString)
    ensures Less(a, b) <==> exists i: nat :: DecidesAt(a, b, i)
  {
    if Less(a, b) {
      if a == [] || a[0] < b[0] {
        assert DecidesAt(a, b, 0);
      } else {
        LessMeaning(a[1..], b[1..]);
        var i: nat :| DecidesAt(a[1..], b[1..], i);
        assert a[..i + 1] == [a[0]] + a[1..][..i] && b[..i + 1] == [b[0]] + b[1..][..i];
        assert DecidesAt(a, b, i + 1);
      }
    }
    if i: nat :| DecidesAt(a, b, i) {
      if i > 0 {
        assert a[0] == a[..i][0] && b[0] == b[..i][0];
        assert a[1..][..i - 1] == a[..i][1..] && b[1..][..i - 1] == b[..i][1..];
        assert DecidesAt(a[1..], b[1..], i - 1);
        LessMeaning(a[1..], b[1..]);
      }
    }
  }

  lemma {:induction false} LessTransitive(a: JsString, b: JsString, c: JsString)
    requires Less(a, b) && Less(b, c)
    ensures Less(a, c)
  {
    if a != [] && a[0] == b[0] && b[0] == c[0] {
      LessTransitive(a[1..], b[1..], c[1..]);
    }
  }

  lemma EntryLePreorder()
    ensures TotalPreorder(EntryLe)
  {
    forall x: Entry, y: Entry
      ensures EntryLe(x, y) || EntryLe(y, x)
    {
      LessTotal(x.key, y.key);
    }
    forall x: Entry, y: Entry, z: Entry | EntryLe(x, y) && EntryLe(y, z)
      ensures EntryLe(x, z)
    {
      LessTotal(x.key, y.key);
      LessTotal(y.key, z.key);
      if Less(z.key, x.key) {
        if x.key == y.key || y.key == z.key {
        } else {
          LessTransitive(z.key, x.key, y.key);
        }
      }
    }
  }

  predicate Digit(c: CodeUnit)
  {
    48 <= c <= 57
  }

  predicate AllDigits(s: JsString)
  {
    forall i :: 0 <= i < |s| ==> Digit(s[i])
  }

  function Value(s: JsString): int
  {
    if s == [] then 0 else 10 * Value(s[..|s| - 1]) + (s[|s| - 1] as int - 48)
  }

  /** Array indices: canonical decimals below 2^32 - 1. Objects enumerate these first, by value. */
  predicate IsIndex(s: JsString)
  {
    s != [] && AllDigits(s) && (|s| > 1 ==> s[0] != 48) && Value(s) < 0xFFFF_FFFF
  }

  lemma {:induction false} ValuePositive(s: JsString)
    requires s != [] && AllDigits(s) && s[0] != 48
    ensures Value(s) > 0
  {
    var front := s[..|s| - 1];
    if front != [] {
      assert front[0] == s[0];
      ValuePositive(front);
    }
  }

  lemma {:induction false} ValueInjective(s: JsString, t: JsString)
    requires AllDigits(s) && AllDigits(t) && (s != [] ==> s[0] != 48) && (t != [] ==> t[0] != 48)
    requires Value(s) == Value(t)
    ensures s == t
  {
    if s == [] || t == [] {
      if s != [] {
        ValuePositive(s);
      } else if t != [] {
        ValuePositive(t);
      }
    } else {
      var a, b := s[..|s| - 1], t[..|t| - 1];
      assert Digit(s[|s| - 1]) && Digit(t[|t| - 1]);
      assert Value(a) == Value(b) && s[|s| - 1] == t[|t| - 1];
      ValueInjective(a, b);
      assert s == a + [s[|s| - 1]] && t == b + [t[|t| - 1]];
    }
  }

  lemma IndexInjective(s: JsString, t: JsString)
    requires IsIndex(s) && IsIndex(t) && Value(s) == Value(t)
    ensures s == t
  {
    if s[0] != 48 && t[0] != 48 {
      ValueInjective(s, t);
    } else if s[0] == 48 && t[0] != 48 {
      assert s[..0] == [] && Value(s) == 0;
      ValuePositive(t);
    } else if t[0] == 48 && s[0] != 48 {
      assert t[..0] == [] && Value(t) == 0;
      ValuePositive(s);
    }
  }

  lemma ValueSnoc(s: JsString, c: CodeUnit, t: JsString)
    requires t == s + [c]
    ensures Value(t) == 10 * Value(s) + (c as int - 48)
  {
    assert t[..|t| - 1] == s;
  }

  lemma LongIndex(c: CodeUnit)
    ensures Value([52, 50, 57, 52, 57, 54, 55, 50, 57, c]) == 4294967290 + (c as int - 48)
  {
    ValueSnoc([], 52, [52]);
    ValueSnoc([52], 50, [52, 50]);
    ValueSnoc([52, 50], 57, [52, 50, 57]);
    ValueSnoc([52, 50, 57], 52, [52, 50, 57, 52]);
    ValueSnoc([52, 50, 57, 52], 57, [52, 50, 57, 52, 57]);
    ValueSnoc([52, 50, 57, 52, 57], 54, [52, 50, 57, 52, 57, 54]);
    ValueSnoc([52, 50, 57, 52, 57, 54], 55, [52, 50, 57, 52, 57, 54, 55]);
    ValueSnoc([52, 50, 57, 52, 57, 54, 55], 50, [52, 50, 57, 52, 57, 54, 55, 50]);
    ValueSnoc([52, 50, 57, 52, 57, 54, 55, 50], 57, [52, 50, 57, 52, 57, 54, 55, 50, 57]);
    ValueSnoc([52, 50, 57, 52, 57, 54, 55, 50, 57], c, [52, 50, 57, 52, 57, 54, 55, 50, 57, c]);
  }

  /** Indices are numbers without leading zeros up to 4294967294. */
  lemma IndexExamples()
    ensures Value([57]) == 9 && Value([49, 48]) == 10 && IsIndex([57]) && IsIndex([49, 48])
    ensures IsIndex([52, 50, 57, 52, 57, 54, 55, 50, 57, 52]) && !IsIndex([52, 50, 57, 52, 57, 54, 55, 50, 57, 53])
    ensures IsIndex([48]) && !IsIndex([48, 49]) && !IsIndex([])
  {
    ValueSnoc([], 57, [57]);
    ValueSnoc([], 48, [48]);
    ValueSnoc([], 49, [49]);
    ValueSnoc([49], 48, [49, 48]);
    LongIndex(52);
    LongIndex(53);
  }

  /** Enumeration order of an object whose other properties were created in string order. */
  predicate Before(a: JsString, b: JsString)
  {
    if IsIndex(a) then !IsIndex(b) || Value(a) < Value(b)
    else !IsIndex(b) && Less(a, b)
  }

  lemma BeforeAsymmetric(a: JsString, b: JsString)
    requires Before(a, b)
    ensures !Before(b, a)
  {
    LessTotal(a, b);
  }

  ghost predicate Ordered(es: seq<Entry>)
  {
    forall i, j :: 0 <= i < j < |es| ==> Before(es[i].key, es[j].key)
  }

  // -------------------------------------------------------------- sortKeys

  function IndexLe(x: Entry, y: Entry): bool
  {
    Value(x.key) <= Value(y.key)
  }

  function HasIndex(e: Entry): bool
  {
    IsIndex(e.key)
  }

  function HasName(e: Entry): bool
  {
    !IsIndex(e.key)
  }

  /** `Object.fromEntries` on distinct keys, read back in enumeration order. */
  function FromEntries(es: seq<Entry>): seq<Entry>
  {
    Sort(Filter(es, HasIndex), IndexLe) + Filter(es, HasName)
  }

  function SortKeys(v: Json): Json
  {
    match v
    case Arr(items) => Arr(seq(|items|, i requires 0 <= i < |items| => SortKeys(items[i])))
    case Obj(es) => Obj(FromEntries(SortedEntries(es)))
    case _ => v
  }

  /** The entries sorted by key, each value sorted in turn. */
  function SortedEntries(es: seq<Entry>): (r: seq<Entry>)
  {
    var sorted := Sort(es, EntryLe);
    SortMembers(es, EntryLe);
    seq(|sorted|, i requires 0 <= i < |sorted| =>
      assert sorted[i] in es;
      Entry(sorted[i].key, SortKeys(sorted[i].value)))
  }

  // ---------------------------------------------- the entries of the result

  function KeysDiffer(x: Entry, y: Entry): bool
  {
    x.key != y.key
  }

  ghost predicate HasEntry(es: seq<Entry>, e: Entry)
  {
    exists i :: 0 <= i < |es| && e == Entry(es[i].key, SortKeys(es[i].value))
  }

  lemma SortedEntriesMembers(es: seq<Entry>)
    ensures forall e :: e in SortedEntries(es) <==> HasEntry(es, e)
  {
    var sorted, r := Sort(es, EntryLe), SortedEntries(es);
    SortMembers(es, EntryLe);
    forall e
      ensures e in r <==> HasEntry(es, e)
    {
      if e in r {
        var i :| 0 <= i < |r| && r[i] == e;
        assert sorted[i] in es;
        var j :| 0 <= j < |es| && es[j] == sorted[i];
      }
      if HasEntry(es, e) {
        var j :| 0 <= j < |es| && e == Entry(es[j].key, SortKeys(es[j].value));
        assert es[j] in sorted;
        var i :| 0 <= i < |sorted| && sorted[i] == es[j];
        assert r[i] == e;
      }
    }
  }

  lemma SortedEntriesOrder(es: seq<Entry>)
    requires DistinctKeys(es)
    ensures Sorted(SortedEntries(es), KeysDiffer) && Sorted(SortedEntries(es), EntryLe)
  {
    EntryLePreorder();
    SortSorts(es, EntryLe);
    SortPairwise(es, EntryLe, KeysDiffer);
    assert forall i, j :: 0 <= i < j < |Sort(es, EntryLe)| ==>
      EntryLe(Sort(es, EntryLe)[i], Sort(es, EntryLe)[j]) && KeysDiffer(Sort(es, EntryLe)[i], Sort(es, EntryLe)[j]);
  }

  lemma FromEntriesMembers(es: seq<Entry>)
    ensures forall e :: e in FromEntries(es) <==> e in es
  {
    FilterMembers(es, HasIndex);
    FilterMembers(es, HasName);
    SortMembers(Filter(es, HasIndex), IndexLe);
  }

  lemma IndicesOrdered(es: seq<Entry>)
    requires Sorted(es, KeysDiffer) && forall e :: e in es ==> HasIndex(e)
    ensures Ordered(Sort(es, IndexLe))
  {
    SortSorts(es, IndexLe);
    SortPairwise(es, IndexLe, KeysDiffer);
    SortMembers(es, IndexLe);
    var r := Sort(es, IndexLe);
    forall i, j | 0 <= i < j < |r|
      ensures Before(r[i].key, r[j].key)
    {
      assert IndexLe(r[i], r[j]) && KeysDiffer(r[i], r[j]) && HasIndex(r[i]) && HasIndex(r[j]);
      if Value(r[i].key) == Value(r[j].key) {
        IndexInjective(r[i].key, r[j].key);
      }
    }
  }

  lemma NamesOrdered(es: seq<Entry>)
    requires Sorted(es, KeysDiffer) && Sorted(es, EntryLe) && forall e :: e in es ==> HasName(e)
    ensures Ordered(es)
  {
    forall i, j | 0 <= i < j < |es|
      ensures Before(es[i].key, es[j].key)
    {
      assert EntryLe(es[i], es[j]) && KeysDiffer(es[i], es[j]) && HasName(es[i]) && HasName(es[j]);
      LessTotal(es[i].key, es[j].key);
    }
  }

  lemma FromEntriesOrdered(es: seq<Entry>)
    requires Sorted(es, KeysDiffer) && Sorted(es, EntryLe)
    ensures Ordered(FromEntries(es))
  {
    var indices, names := Filter(es, HasIndex), Filter(es, HasName);
    FilterMembers(es, HasIndex);
    FilterMembers(es, HasName);
    FilterSorted(es, HasIndex, KeysDiffer);
    FilterSorted(es, HasName, KeysDiffer);
    FilterSorted(es, HasName, EntryLe);
    IndicesOrdered(indices);
    NamesOrdered(names);
    SortMembers(indices, IndexLe);
    var front := Sort(indices, IndexLe);
    forall i, j | 0 <= i < |front| && 0 <= j < |names|
      ensures Before(front[i].key, names[j].key)
    {
      assert front[i] in indices && names[j] in names;
    }
    OrderedConcat(front, names);
  }

  lemma OrderedConcat(s: seq<Entry>, t: seq<Entry>)
    requires Ordered(s) && Ordered(t)
    requires forall i, j :: 0 <= i < |s| && 0 <= j < |t| ==> Before(s[i].key, t[j].key)
    ensures Ordered(s + t)
  {
  }

  /** The result's entries are the sorted values of the input's, listed in enumeration order. */
  lemma SortKeysEntries(es: seq<Entry>)
    requires DistinctKeys(es)
    ensures Ordered(SortKeys(Obj(es)).entries)
    ensures forall e :: e in SortKeys(Obj(es)).entries <==> HasEntry(es, e)
  {
    SortedEntriesMembers(es);
    SortedEntriesOrder(es);
    FromEntriesMembers(SortedEntries(es));
    FromEntriesOrdered(SortedEntries(es));
  }

  lemma OrderedDistinct(es: seq<Entry>)
    requires Ordered(es)
    ensures DistinctKeys(es)
  {
    forall i, j | 0 <= i < j < |es|
      ensures es[i].key != es[j].key
    {
      assert Before(es[i].key, es[j].key);
      BeforeAsymmetric(es[i].key, es[j].key);
    }
  }

  /** A list of entries in enumeration order is determined by which entries it holds. */
  lemma {:induction false} OrderedUnique(s: seq<Entry>, t: seq<Entry>)
    requires Ordered(s) && Ordered(t) && forall e :: e in s <==> e in t
    ensures s == t
  {
    assert s != [] ==> s[0] in t;
    assert t != [] ==> t[0] in s;
    if s != [] {
      OrderedHead(s, t);
      assert s[0] == t[0];
      var a, b := s[1..], t[1..];
      forall e
        ensures e in a <==> e in b
      {
        OrderedTail(s, e);
        OrderedTail(t, e);
      }
      OrderedUnique(a, b);
      assert s == [s[0]] + a && t == [t[0]] + b;
    }
  }

  lemma OrderedHead(s: seq<Entry>, t: seq<Entry>)
    requires Ordered(s) && Ordered(t) && s != [] && t != [] && s[0] in t && t[0] in s
    ensures s[0] == t[0]
  {
    var i :| 0 <= i < |t| && t[i] == s[0];
    var j :| 0 <= j < |s| && s[j] == t[0];
    assert i > 0 ==> Before(t[0].key, t[i].key);
    assert j > 0 ==> Before(s[0].key, s[j].key);
    if i > 0 {
      BeforeAsymmetric(t[0].key, t[i].key);
    }
  }

  lemma OrderedTail(s: seq<Entry>, e: Entry)
    requires Ordered(s) && s != []
    ensures e in s[1..] <==> e in s && e != s[0]
  {
    if e in s[1..] {
      var i :| 0 <= i < |s[1..]| && s[1..][i] == e;
      assert s[i + 1] == e && Before(s[0].key, s[i + 1].key);
      BeforeAsymmetric(s[0].key, s[i + 1].key);
    }
  }

  // ------------------------------------------------------------- meaning

  lemma {:induction false} DenoteEntriesAt(es: seq<Entry>, i: nat)
    requires DistinctKeys(es) && i < |es|
    ensures es[i].key in DenoteEntries(es) && DenoteEntries(es)[es[i].key] == Denote(es[i].value)
  {
    if i > 0 {
      DenoteEntriesAt(es[1..], i - 1);
      assert es[0].key != es[i].key;
    }
  }

  lemma {:induction false} DenoteEntriesKey(es: seq<Entry>, k: JsString) returns (i: nat)
    requires k in DenoteEntries(es)
    ensures i < |es| && es[i].key == k
  {
    if es[0].key == k {
      i := 0;
    } else {
      var j := DenoteEntriesKey(es[1..], k);
      i := j + 1;
    }
  }

  /** `es` and `fs` agree on every key `es` has: each entry of `es` meets its counterpart. */
  lemma CounterpartOf(es: seq<Entry>, fs: seq<Entry>, i: nat) returns (j: nat)
    requires DistinctKeys(es) && DistinctKeys(fs) && DenoteEntries(es) == DenoteEntries(fs) && i < |es|
    ensures j < |fs| && fs[j].key == es[i].key && Denote(fs[j].value) == Denote(es[i].value)
  {
    DenoteEntriesAt(es, i);
    j := DenoteEntriesKey(fs, es[i].key);
    DenoteEntriesAt(fs, j);
  }

  /** Sorting changes no meaning and leaves a well-formed value. */
  lemma {:induction false} SortKeysPreserves(v: Json)
    requires WellFormed(v)
    ensures WellFormed(SortKeys(v)) && Denote(SortKeys(v)) == Denote(v)
  {
    match v
    case Arr(items) =>
      forall i | 0 <= i < |items|
        ensures WellFormed(SortKeys(items[i])) && Denote(SortKeys(items[i])) == Denote(items[i])
      {
        SortKeysPreserves(items[i]);
      }
    case Obj(es) =>
      forall i | 0 <= i < |es|
        ensures WellFormed(SortKeys(es[i].value)) && Denote(SortKeys(es[i].value)) == Denote(es[i].value)
      {
        SortKeysPreserves(es[i].value);
      }
      SortKeysEntries(es);
      var rs := SortKeys(v).entries;
      OrderedDistinct(rs);
      forall i | 0 <= i < |rs|
        ensures WellFormed(rs[i].value)
      {
        assert rs[i] in rs;
      }
      SameMembersSameMeaning(es, rs);
    case _ =>
  }

  lemma SameMembersSameMeaning(es: seq<Entry>, rs: seq<Entry>)
    requires DistinctKeys(es) && DistinctKeys(rs)
    requires forall i :: 0 <= i < |es| ==> Denote(SortKeys(es[i].value)) == Denote(es[i].value)
    requires forall e :: e in rs <==> HasEntry(es, e)
    ensures DenoteEntries(rs) == DenoteEntries(es)
  {
    var a, b := DenoteEntries(es), DenoteEntries(rs);
    forall k | k in a
      ensures k in b && b[k] == a[k]
    {
      var i := DenoteEntriesKey(es, k);
      DenoteEntriesAt(es, i);
      var e := Entry(es[i].key, SortKeys(es[i].value));
      assert HasEntry(es, e) && e in rs;
      var j :| 0 <= j < |rs| && rs[j] == e;
      DenoteEntriesAt(rs, j);
    }
    forall k | k in b
      ensures k in a
    {
      var j := DenoteEntriesKey(rs, k);
      assert rs[j] in rs;
      var i :| 0 <= i < |es| && rs[j] == Entry(es[i].key, SortKeys(es[i].value));
      DenoteEntriesAt(es, i);
    }
  }

  /** Values that say the same sort to the identical value: key order is forgotten at every depth. */
  lemma {:induction false} SortKeysForgetsOrder(v: Json, w: Json)
    requires WellFormed(v) && WellFormed(w) && Denote(v) == Denote(w)
    ensures SortKeys(v) == SortKeys(w)
  {
    match v
    case Arr(items) =>
      forall i | 0 <= i < |items|
        ensures SortKeys(items[i]) == SortKeys(w.items[i])
      {
        assert Denote(v).items[i] == Denote(w).items[i];
        SortKeysForgetsOrder(items[i], w.items[i]);
      }
    case Obj(es) =>
      var fs := w.entries;
      SortKeysEntries(es);
      SortKeysEntries(fs);
      forall i | 0 <= i < |es|
        ensures HasEntry(fs, Entry(es[i].key, SortKeys(es[i].value)))
      {
        var j := CounterpartOf(es, fs, i);
        SortKeysForgetsOrder(es[i].value, fs[j].value);
      }
      forall j | 0 <= j < |fs|
        ensures HasEntry(es, Entry(fs[j].key, SortKeys(fs[j].value)))
      {
        var i := CounterpartOf(fs, es, j);
        SortKeysForgetsOrder(es[i].value, fs[j].value);
      }
      assert forall e :: HasEntry(es, e) <==> HasEntry(fs, e);
      OrderedUnique(SortKeys(v).entries, SortKeys(w).entries);
    case _ =>
  }

  /** `sortKeys` is a normal form for "the same up to key order". */
  lemma SortKeysNormalForm(v: Json, w: Json)
    requires WellFormed(v) && WellFormed(w)
    ensures SortKeys(v) == SortKeys(w) <==> Denote(v) == Denote(w)
    ensures SortKeys(SortKeys(v)) == SortKeys(v)
  {
    SortKeysPreserves(v);
    SortKeysPreserves(w);
    SortKeysForgetsOrder(v, SortKeys(v));
    if Denote(v) == Denote(w) {
      SortKeysForgetsOrder(v, w);
    }
  }
}
