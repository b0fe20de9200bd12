/** The bracket scanner that runs before the JSON parser, and the nesting depth that runs after it. */
module BracketDepth {

  /** A parsed document.  A scalar is carried as its token: a number, `true`, `false` or `null`. */
  datatype Json = Scalar(token: string) | Text(chars: string) | List(items: seq<Json>) | Object(members: seq<Member>)

  datatype Member = Member(key: string, value: Json)

  predicate Container(v: Json) {
    v.List? || v.Object?
  }

  function Arity(v: Json): nat {
    if v.List? then |v.items| else if v.Object? then |v.members| else 0
  }

  function Child(v: Json, i: nat): (child: Json)
    requires i < Arity(v)
    ensures child < v
  {
    if v.List? then v.items[i] else v.members[i].value
  }

  predicate Plain(token: string) {
    forall i :: 0 <= i < |token| ==> token[i] !in "\"[]{}"
  }

  /** Scalar tokens hold no quote and no bracket. */
  predicate PlainScalars(v: Json) {
    (v.Scalar? ==> Plain(v.token)) && forall i :: 0 <= i < Arity(v) ==> PlainScalars(Child(v, i))
  }

  // ---------------------------------------------------------------- canonical text

  function Hex(n: nat): char
    requires n < 16
  {
    "0123456789abcdef"[n]
  }

  function Escape(c: char): string {
    if c == '\"' then "\\\""
    else if c == '\\' then "\\\\"
    else if c == '\n' then "\\n"
    else if c == '\r' then "\\r"
    else if c == '\t' then "\\t"
    else if c as int == 8 then "\\b"
    else if c as int == 12 then "\\f"
    else if c as int < 0x20 then "\\u00" + [Hex(c as int / 16), Hex(c as int % 16)]
    else [c]
  }

  function Escaped(chars: string, n: nat): string
    requires n <= |chars|
  {
    if n == 0 then "" else Escaped(chars, n - 1) + Escape(chars[n - 1])
  }

  function Quoted(chars: string): string {
    "\"" + Escaped(chars, |chars|) + "\""
  }

  function Label(v: Json, i: nat): string
    requires i < Arity(v)
  {
    (if i > 0 then "," else "") + (if v.Object? then Quoted(v.members[i].key) + ":" else "")
  }

  /** The one canonical text of a document, with the members in the order the document lists them. */
  function Render(v: Json): string
    decreases v, 1, 0
  {
    match v
    case Scalar(token) => token
    case Text(chars) => Quoted(chars)
    case List(items) => "[" + RenderTo(v, |items|) + "]"
    case Object(members) => "{" + RenderTo(v, |members|) + "}"
  }

  function RenderTo(v: Json, n: nat): string
    requires n <= Arity(v)
    decreases v, 0, n
  {
    if n == 0 then "" else RenderTo(v, n - 1) + Label(v, n - 1) + Render(Child(v, n - 1))
  }

  // ---------------------------------------------------------------- tree depth

  function Max(a: nat, b: nat): nat {
    if a >= b then a else b
  }

  /** A scalar has depth 0 and an empty container depth 1. */
  function Depth(v: Json): nat
    decreases v, 1, 0
  {
    if Container(v) then 1 + DepthTo(v, Arity(v)) else 0
  }

  /** The deepest of the first `n` children. */
  function DepthTo(v: Json, n: nat): nat
    requires n <= Arity(v)
    decreases v, 0, n
  {
    if n == 0 then 0 else Max(DepthTo(v, n - 1), Depth(Child(v, n - 1)))
  }

  // ---------------------------------------------------------------- the scanner

  datatype Scanner = Scanning(depth: int, inString: bool, escaped: bool) | TooDeep

  function Feed(s: Scanner, c: char, cap: int): Scanner {
    if s.TooDeep? then s
    else if s.inString then
      if s.escaped then s.(escaped := false)
      else if c == '\\' then s.(escaped := true)
      else if c == '\"' then s.(inString := false)
      else s
    else if c == '\"' then s.(inString := true)
    else if c == '[' || c == '{' then
      if s.depth + 1 > cap then TooDeep else s.(depth := s.depth + 1)
    else if c == ']' || c == '}' then s.(depth := s.depth - 1)
    else s
  }

  function FeedAll(s: Scanner, text: string, cap: int): Scanner
    decreases |text|
  {
    if text == "" then s else FeedAll(Feed(s, text[0], cap), text[1..], cap)
  }

  method CheckBracketDepth(text: string, cap: int) returns (accepted: bool)
    ensures accepted <==> FeedAll(Scanning(0, false, false), text, cap).Scanning?
  {
    var depth, inString, escaped := 0, false, false;
    assert text[0..] == text;
    for i := 0 to |text|
      invariant FeedAll(Scanning(0, false, false), text, cap)
             == FeedAll(Scanning(depth, inString, escaped), text[i..], cap)
    {
      var c := text[i];
      assert text[i..][0] == c && text[i..][1..] == text[i + 1..];
      if inString {
        if escaped {
          escaped := false;
        } else if c == '\\' {
          escaped := true;
        } else if c == '\"' {
          inString := false;
        }
      } else if c == '\"' {
        inString := true;
      } else if c == '[' || c == '{' {
        depth := depth + 1;
        if depth > cap {
          StaysTooDeep(text[i + 1..], cap);
          return false;
        }
      } else if c == ']' || c == '}' {
        depth := depth - 1;
      }
    }
    return true;
  }

  lemma {:induction false} StaysTooDeep(text: string, cap: int)
    ensures FeedAll(TooDeep, text, cap) == TooDeep
  {
    if text != "" {
      StaysTooDeep(text[1..], cap);
    }
  }

  lemma {:induction false} FeedConcat(s: Scanner, left: string, right: string, cap: int)
    ensures FeedAll(s, left + right, cap) == FeedAll(FeedAll(s, left, cap), right, cap)
    decreases |left|
  {
    if left == "" {
      assert left + right == right;
    } else {
      assert (left + right)[0] == left[0] && (left + right)[1..] == left[1..] + right;
      FeedConcat(Feed(s, left[0], cap), left[1..], right, cap);
    }
  }

  lemma FeedOne(s: Scanner, c: char, cap: int)
    ensures FeedAll(s, [c], cap) == Feed(s, c, cap)
  {
    assert [c][1..] == "";
  }

  lemma {:induction false} FeedPlain(s: Scanner, token: string, cap: int)
    requires Plain(token) && s.Scanning? && !s.inString
    ensures FeedAll(s, token, cap) == s
  {
    if token != "" {
      assert token[0] !in "\"[]{}";
      assert Plain(token[1..]);
      FeedPlain(s, token[1..], cap);
    }
  }

  // ---------------------------------------------------------------- strings

  lemma FeedHexEscape(depth: int, high: nat, low: nat, cap: int)
    requires high < 16 && low < 16
    ensures FeedAll(Scanning(depth, true, false), "\\u00" + [Hex(high), Hex(low)], cap) == Scanning(depth, true, false)
  {
    var s := Scanning(depth, true, false);
    FeedConcat(s, "\\u00", [Hex(high), Hex(low)], cap);
    FeedConcat(s, "\\u", "00", cap);
    FeedPair(s, '\\', 'u', cap);
    FeedPair(s, '0', '0', cap);
    FeedPair(s, Hex(high), Hex(low), cap);
  }

  lemma FeedPair(s: Scanner, c: char, d: char, cap: int)
    ensures FeedAll(s, [c, d], cap) == Feed(Feed(s, c, cap), d, cap)
  {
    assert [c, d] == [c] + [d];
    FeedConcat(s, [c], [d], cap);
    FeedOne(s, c, cap);
    FeedOne(Feed(s, c, cap), d, cap);
  }

  /** Whatever a character is escaped to, the scanner is back inside the string behind it. */
  lemma FeedEscape(depth: int, c: char, cap: int)
    ensures FeedAll(Scanning(depth, true, false), Escape(c), cap) == Scanning(depth, true, false)
  {
    var s, e := Scanning(depth, true, false), Escape(c);
    if |e| == 1 {
      FeedOne(s, e[0], cap);
    } else if |e| == 2 {
      assert e == [e[0], e[1]];
      FeedPair(s, e[0], e[1], cap);
    } else {
      FeedHexEscape(depth, c as int / 16, c as int % 16, cap);
    }
  }

  lemma {:induction false} FeedEscaped(depth: int, chars: string, n: nat, cap: int)
    requires n <= |chars|
    ensures FeedAll(Scanning(depth, true, false), Escaped(chars, n), cap) == Scanning(depth, true, false)
  {
    if n > 0 {
      FeedEscaped(depth, chars, n - 1, cap);
      FeedConcat(Scanning(depth, true, false), Escaped(chars, n - 1), Escape(chars[n - 1]), cap);
      FeedEscape(depth, chars[n - 1], cap);
    }
  }

  /** A quoted string, whatever brackets, quotes and backslashes it holds, is neutral. */
  lemma FeedQuoted(depth: int, chars: string, cap: int)
    ensures FeedAll(Scanning(depth, false, false), Quoted(chars), cap) == Scanning(depth, false, false)
  {
    var outside, inside := Scanning(depth, false, false), Scanning(depth, true, false);
    FeedConcat(outside, "\"" + Escaped(chars, |chars|), "\"", cap);
    FeedConcat(outside, "\"", Escaped(chars, |chars|), cap);
    FeedOne(outside, '\"', cap);
    FeedEscaped(depth, chars, |chars|, cap);
    FeedOne(inside, '\"', cap);
  }

  lemma FeedLabel(depth: int, v: Json, i: nat, cap: int)
    requires i < Arity(v)
    ensures FeedAll(Scanning(depth, false, false), Label(v, i), cap) == Scanning(depth, false, false)
  {
    var s := Scanning(depth, false, false);
    var comma := if i > 0 then "," else "";
    var key := if v.Object? then Quoted(v.members[i].key) + ":" else "";
    FeedConcat(s, comma, key, cap);
    FeedPlain(s, comma, cap);
    if v.Object? {
      FeedConcat(s, Quoted(v.members[i].key), ":", cap);
      FeedQuoted(depth, v.members[i].key, cap);
      FeedPlain(s, ":", cap);
    }
  }

  // ---------------------------------------------------------------- scanner depth is tree depth

  /** What scanning a document from nesting `depth` must give. */
  function Expected(depth: int, deeper: nat, cap: int): Scanner {
    if depth + deeper > cap then TooDeep else Scanning(depth, false, false)
  }

  lemma {:induction false} FeedRender(depth: int, v: Json, cap: int)
    requires PlainScalars(v) && depth <= cap
    ensures FeedAll(Scanning(depth, false, false), Render(v), cap) == Expected(depth, Depth(v), cap)
    decreases v, 1, 0
  {
    var s := Scanning(depth, false, false);
    match v {
      case Scalar(token) =>
        FeedPlain(s, token, cap);
      case Text(chars) =>
        FeedQuoted(depth, chars, cap);
      case List(_) =>
        FeedContainer(depth, v, '[', ']', cap);
      case Object(_) =>
        FeedContainer(depth, v, '{', '}', cap);
    }
  }

  lemma {:induction false} FeedContainer(depth: int, v: Json, open: char, close: char, cap: int)
    requires PlainScalars(v) && depth <= cap && Container(v)
    requires (open == '[' && close == ']') || (open == '{' && close == '}')
    ensures FeedAll(Scanning(depth, false, false), [open] + RenderTo(v, Arity(v)) + [close], cap)
         == Expected(depth, Depth(v), cap)
    decreases v, 0, Arity(v) + 1
  {
    var s, inner := Scanning(depth, false, false), RenderTo(v, Arity(v));
    FeedConcat(s, [open] + inner, [close], cap);
    FeedConcat(s, [open], inner, cap);
    FeedOne(s, open, cap);
    if depth + 1 > cap {
      StaysTooDeep(inner, cap);
      StaysTooDeep([close], cap);
    } else {
      FeedChildren(depth + 1, v, Arity(v), cap);
      FeedOne(Expected(depth + 1, DepthTo(v, Arity(v)), cap), close, cap);
    }
  }

  lemma {:induction false} FeedChildren(depth: int, v: Json, n: nat, cap: int)
    requires PlainScalars(v) && depth <= cap && n <= Arity(v)
    ensures FeedAll(Scanning(depth, false, false), RenderTo(v, n), cap) == Expected(depth, DepthTo(v, n), cap)
    decreases v, 0, n
  {
    if n > 0 {
      var s, child := Scanning(depth, false, false), Child(v, n - 1);
      var before := RenderTo(v, n - 1) + Label(v, n - 1);
      FeedChildren(depth, v, n - 1, cap);
      FeedConcat(s, before, Render(child), cap);
      FeedConcat(s, RenderTo(v, n - 1), Label(v, n - 1), cap);
      if depth + DepthTo(v, n - 1) > cap {
        StaysTooDeep(Label(v, n - 1), cap);
        StaysTooDeep(Render(child), cap);
      } else {
        FeedLabel(depth, v, n - 1, cap);
        FeedRender(depth, child, cap);
      }
    }
  }

  /** For every document: the scanner accepts its canonical text exactly when its depth is within the
      cap.  The check before the parser and the check after it never disagree. */
  lemma ScannerAcceptsIff(v: Json, cap: nat)
    requires PlainScalars(v)
    ensures FeedAll(Scanning(0, false, false), Render(v), cap).Scanning? <==> Depth(v) <= cap
  {
    FeedRender(0, v, cap);
  }

  // ---------------------------------------------------------------- the explicit stack

  datatype Pending = Pending(value: Json, depth: nat)

  /** The deepest container reached from an entry whose own depth is `depth`. */
  function Reach(p: Pending): nat {
    if Container(p.value) then p.depth + DepthTo(p.value, Arity(p.value)) else 0
  }

  function Deepest(stack: seq<Pending>): nat {
    if stack == [] then 0 else Max(Deepest(stack[..|stack| - 1]), Reach(stack[|stack| - 1]))
  }

  function Size(v: Json): nat
    decreases v, 1, 0
  {
    1 + SizeTo(v, Arity(v))
  }

  function SizeTo(v: Json, n: nat): nat
    requires n <= Arity(v)
    decreases v, 0, n
  {
    if n == 0 then 0 else SizeTo(v, n - 1) + Size(Child(v, n - 1))
  }

  function StackSize(stack: seq<Pending>): nat {
    if stack == [] then 0 else StackSize(stack[..|stack| - 1]) + Size(stack[|stack| - 1].value)
  }

  /** The entries that one container pushes: its first `n` children, one level deeper. */
  function Pushed(v: Json, depth: nat, n: nat): seq<Pending>
    requires n <= Arity(v)
  {
    if n == 0 then [] else Pushed(v, depth, n - 1) + [Pending(Child(v, n - 1), depth + 1)]
  }

  lemma DeepestPush(stack: seq<Pending>, p: Pending)
    ensures Deepest(stack + [p]) == Max(Deepest(stack), Reach(p))
    ensures StackSize(stack + [p]) == StackSize(stack) + Size(p.value)
  {
    assert (stack + [p])[..|stack|] == stack;
  }

  lemma PushOne(stack: seq<Pending>, v: Json, depth: nat, n: nat)
    requires n < Arity(v)
    ensures var child := Pending(Child(v, n), depth + 1);
      && Deepest(stack + Pushed(v, depth, n + 1)) == Max(Deepest(stack + Pushed(v, depth, n)), Reach(child))
      && StackSize(stack + Pushed(v, depth, n + 1)) == StackSize(stack + Pushed(v, depth, n)) + Size(child.value)
  {
    var fewer, child := stack + Pushed(v, depth, n), Pending(Child(v, n), depth + 1);
    assert stack + Pushed(v, depth, n + 1) == fewer + [child];
    DeepestPush(fewer, child);
  }

  lemma ReachOfChild(p: Pending)
    requires p.depth > 0
    ensures Reach(p) == if Depth(p.value) == 0 then 0 else p.depth - 1 + Depth(p.value)
  {
  }

  lemma MaxStep(depth: nat, deepest: nat, reach: nat, base: nat, before: nat, deeper: nat)
    requires Max(depth, deepest) == Max(base, depth + before)
    requires reach == if deeper == 0 then 0 else depth + deeper
    ensures Max(depth, Max(deepest, reach)) == Max(base, depth + Max(before, deeper))
  {
  }

  lemma {:induction false} PushedSize(stack: seq<Pending>, v: Json, depth: nat, n: nat)
    requires n <= Arity(v)
    ensures StackSize(stack + Pushed(v, depth, n)) == StackSize(stack) + SizeTo(v, n)
  {
    if n == 0 {
      assert stack + Pushed(v, depth, n) == stack;
    } else {
      var fewer, child := stack + Pushed(v, depth, n - 1), Pending(Child(v, n - 1), depth + 1);
      PushedSize(stack, v, depth, n - 1);
      PushOne(stack, v, depth, n - 1);
    }
  }

  ghost predicate PushedReaches(stack: seq<Pending>, v: Json, depth: nat, n: nat)
    requires n <= Arity(v)
  {
    Max(depth, Deepest(stack + Pushed(v, depth, n))) == Max(Deepest(stack), depth + DepthTo(v, n))
  }

  lemma PushNone(stack: seq<Pending>, v: Json, depth: nat)
    ensures PushedReaches(stack, v, depth, 0)
  {
    assert stack + Pushed(v, depth, 0) == stack;
  }

  lemma PushNext(stack: seq<Pending>, v: Json, depth: nat, n: nat)
    requires n < Arity(v) && PushedReaches(stack, v, depth, n)
    ensures PushedReaches(stack, v, depth, n + 1)
  {
    var child, deepest := Pending(Child(v, n), depth + 1), Deepest(stack + Pushed(v, depth, n));
    PushOne(stack, v, depth, n);
    ReachOfChild(child);
    MaxStep(depth, deepest, Reach(child), Deepest(stack), DepthTo(v, n), Depth(child.value));
  }

  /** Pushing the children of a container pushes exactly what they reach. */
  lemma {:induction false} PushedReach(stack: seq<Pending>, v: Json, depth: nat, n: nat)
    requires n <= Arity(v)
    ensures PushedReaches(stack, v, depth, n)
  {
    if n == 0 {
      PushNone(stack, v, depth);
    } else {
      PushedReach(stack, v, depth, n - 1);
      PushNext(stack, v, depth, n - 1);
    }
  }

  /** The maximum container depth, computed with an explicit stack instead of recursion. */
  method NestingDepth(value: Json) returns (deepest: nat)
    ensures deepest == Depth(value)
  {
    deepest := 0;
    var stack := [Pending(value, 1)];
    assert stack[..0] == [];
    while stack != []
      invariant Max(deepest, Deepest(stack)) == Depth(value)
      decreases StackSize(stack)
    {
      var Pending(current, depth) := stack[|stack| - 1];
      stack := stack[..|stack| - 1];
      if Container(current) {
        deepest := Max(deepest, depth);
        PushedReach(stack, current, depth, Arity(current));
        PushedSize(stack, current, depth, Arity(current));
        stack := stack + Pushed(current, depth, Arity(current));
      }
    }
  }
}
