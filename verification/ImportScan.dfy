/**
 * The scan that cuts the `imports` array out of a module file
 * (scripts/generate-module-graph.js, `parseModule`).
 */
module ImportScan {

  function Depth(s: string): int
  {
    if s == "" then 0
    else Depth(s[..|s| - 1]) + (if s[|s| - 1] == '[' then 1 else if s[|s| - 1] == ']' then -1 else 0)
  }

  /** Brackets match up: no prefix closes more than it opened and everything is closed. */
  ghost predicate Balanced(s: string)
  {
    Depth(s) == 0 && forall i :: 0 <= i <= |s| ==> Depth(s[..i]) >= 0
  }

  /** What an `imports` array may hold, by its grammar rather than by counting. */
  datatype Item = Text(chars: string) | Nested(items: seq<Item>)

  ghost predicate PlainText(t: string)
  {
    forall i :: 0 <= i < |t| ==> t[i] != '[' && t[i] != ']'
  }

  ghost predicate PlainItems(items: seq<Item>)
  {
    forall i :: 0 <= i < |items| ==>
      match items[i]
      case Text(t) => PlainText(t)
      case Nested(inner) => PlainItems(inner)
  }

  ghost function Render(items: seq<Item>): string
  {
    if items == [] then "" else RenderItem(items[0]) + Render(items[1..])
  }

  ghost function RenderItem(item: Item): string
  {
    match item
    case Text(t) => t
    case Nested(items) => "[" + Render(items) + "]"
  }

  lemma {:induction false} DepthConcat(s: string, t: string)
    ensures Depth(s + t) == Depth(s) + Depth(t)
  {
    if t == "" {
      assert s + t == s;
    } else {
      assert (s + t)[..|s + t| - 1] == s + t[..|t| - 1];
      DepthConcat(s, t[..|t| - 1]);
    }
  }

  lemma BalancedConcat(s: string, t: string)
    requires Balanced(s) && Balanced(t)
    ensures Balanced(s + t)
  {
    DepthConcat(s, t);
    forall i | 0 <= i <= |s + t|
      ensures Depth((s + t)[..i]) >= 0
    {
      if i <= |s| {
        assert (s + t)[..i] == s[..i];
      } else {
        assert (s + t)[..i] == s + t[..i - |s|];
        DepthConcat(s, t[..i - |s|]);
      }
    }
  }

  lemma BalancedWrap(s: string)
    requires Balanced(s)
    ensures Balanced("[" + s + "]")
  {
    var w := "[" + s + "]";
    assert Depth("[") == 1 && Depth("]") == -1;
    DepthConcat("[" + s, "]");
    DepthConcat("[", s);
    forall i | 0 <= i <= |w|
      ensures Depth(w[..i]) >= 0
    {
      if i == |w| {
        assert w[..i] == w;
      } else if i > 0 {
        assert w[..i] == "[" + s[..i - 1];
        DepthConcat("[", s[..i - 1]);
      }
    }
  }

  lemma {:induction false} PlainTextBalanced(t: string)
    requires PlainText(t)
    ensures Balanced(t)
  {
    if t != "" {
      var front := t[..|t| - 1];
      PlainTextBalanced(front);
      forall i | 0 <= i <= |t|
        ensures Depth(t[..i]) >= 0
      {
        if i < |t| {
          assert t[..i] == front[..i];
        } else {
          assert t[..i] == t;
        }
      }
    }
  }

  lemma {:induction false} RenderBalanced(items: seq<Item>)
    requires PlainItems(items)
    ensures Balanced(Render(items))
  {
    if items != [] {
      match items[0] {
        case Text(t) => PlainTextBalanced(t);
        case Nested(inner) =>
          RenderBalanced(inner);
          BalancedWrap(Render(inner));
      }
      RenderBalanced(items[1..]);
      BalancedConcat(RenderItem(items[0]), Render(items[1..]));
    }
  }

  /** Behind the opening bracket at `start` stand a balanced text, its closing bracket and a rest. */
  ghost predicate Closed(source: string, start: nat, content: string, rest: string)
  {
    start < |source| && Balanced(content) && source[start + 1..] == content + "]" + rest
  }

  lemma ClosedDepths(source: string, start: nat, content: string, rest: string)
    requires Closed(source, start, content, rest)
    ensures var tail := source[start + 1..];
            && Depth(tail[..|content| + 1]) == -1
            && forall k :: 0 <= k <= |content| ==> Depth(tail[..k]) >= 0
  {
    var tail := source[start + 1..];
    assert tail[..|content| + 1] == content + "]";
    assert Depth("]") == -1;
    DepthConcat(content, "]");
    forall k | 0 <= k <= |content|
      ensures Depth(tail[..k]) >= 0
    {
      assert tail[..k] == content[..k];
    }
  }

  lemma ClosedHere(source: string, start: nat, end: nat)
    requires start < end < |source| && source[end] == ']'
    requires var tail := source[start + 1..];
             && Depth(tail[..end - start - 1]) == 0
             && forall k :: 0 <= k < end - start ==> Depth(tail[..k]) >= 0
    ensures Closed(source, start, source[start + 1..end], source[end + 1..])
    ensures forall c, rest :: Closed(source, start, c, rest) ==> c == source[start + 1..end]
  {
    var tail, content := source[start + 1..], source[start + 1..end];
    assert tail[..|content|] == content;
    forall k | 0 <= k <= |content|
      ensures Depth(content[..k]) >= 0
    {
      assert content[..k] == tail[..k];
    }
    assert tail == content + "]" + source[end + 1..];
    ClosedDepths(source, start, content, source[end + 1..]);
    forall c, rest | Closed(source, start, c, rest)
      ensures c == content
    {
      ClosedDepths(source, start, c, rest);
      assert |c| == |content|;
      assert c == tail[..|c|];
    }
  }

  /**
   * The text between the bracket at `start` and its partner. An array that is
   * never closed yields the empty text, because the end stays at the start.
   */
  method ArrayContent(source: string, start: nat) returns (content: string)
    requires start < |source| && source[start] == '['
    ensures forall c, rest :: Closed(source, start, c, rest) ==> content == c
    ensures (forall c, rest :: !Closed(source, start, c, rest)) ==> content == ""
  {
    ghost var tail := source[start + 1..];
    var depth, end, i := 0, start, start;
    while i < |source|
      invariant start <= i <= |source| && end == start
      invariant depth == if i == start then 0 else 1 + Depth(tail[..i - start - 1])
      invariant forall k :: 0 <= k < i - start ==> Depth(tail[..k]) >= 0
    {
      if i > start {
        assert tail[..i - start][..i - start - 1] == tail[..i - start - 1];
      }
      if source[i] == '[' {
        depth := depth + 1;
      } else if source[i] == ']' {
        depth := depth - 1;
        if depth == 0 {
          end := i;
          break;
        }
      }
      i := i + 1;
    }
    content := if start + 1 <= end then source[start + 1..end] else "";
    if i < |source| {
      ClosedHere(source, start, end);
    } else {
      forall c, rest
        ensures !Closed(source, start, c, rest)
      {
        if Closed(source, start, c, rest) {
          ClosedDepths(source, start, c, rest);
        }
      }
    }
  }

  /** An array literal with nested arrays inside is closed by its own bracket, whatever follows it. */
  lemma NestedArrayIsClosed(before: string, items: seq<Item>, rest: string)
    requires PlainItems(items)
    ensures Closed(before + "[" + Render(items) + "]" + rest, |before|, Render(items), rest)
  {
    RenderBalanced(items);
    var source := before + "[" + Render(items) + "]" + rest;
    assert source[|before| + 1..] == Render(items) + "]" + rest;
  }
}
