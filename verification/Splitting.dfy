/** `split` and `join` on one separator, and when they undo each other. */
module Splitting {

  function Split<T(==)>(text: seq<T>, sep: T): (parts: seq<seq<T>>)
    ensures parts != []
  {
    if text == [] then [[]]
    else
      var rest := Split(text[1..], sep);
      if text[0] == sep then [[]] + rest else [[text[0]] + rest[0]] + rest[1..]
  }

  function Join<T>(parts: seq<seq<T>>, sep: T): seq<T>
    requires parts != []
  {
    if |parts| == 1 then parts[0] else parts[0] + [sep] + Join(parts[1..], sep)
  }

  predicate Free<T(==)>(text: seq<T>, sep: T) {
    sep !in text
  }

  lemma {:induction false} JoinOfSplit<T>(text: seq<T>, sep: T)
    ensures Join(Split(text, sep), sep) == text
    ensures forall i :: 0 <= i < |Split(text, sep)| ==> Free(Split(text, sep)[i], sep)
  {
    if text != [] {
      var rest, parts := Split(text[1..], sep), Split(text, sep);
      JoinOfSplit(text[1..], sep);
      if text[0] == sep {
        assert parts[1..] == rest;
      } else {
        assert parts[1..] == rest[1..];
      }
      assert text == [text[0]] + text[1..];
    }
  }

  lemma {:induction false} SplitFree<T>(text: seq<T>, sep: T)
    ensures Split(text, sep) == [text] <==> Free(text, sep)
    ensures Free(text, sep) <==> |Split(text, sep)| == 1
  {
    if text != [] {
      SplitFree(text[1..], sep);
      assert text == [text[0]] + text[1..];
    }
  }

  function Push<T(==)>(head: T, parts: seq<seq<T>>, sep: T): seq<seq<T>>
    requires parts != []
  {
    if head == sep then [[]] + parts else [[head] + parts[0]] + parts[1..]
  }

  lemma SplitCons<T>(head: T, text: seq<T>, sep: T)
    ensures Split([head] + text, sep) == Push(head, Split(text, sep), sep)
  {
    assert ([head] + text)[1..] == text;
  }

  lemma PushConcat<T>(head: T, first: seq<seq<T>>, second: seq<seq<T>>, sep: T)
    requires first != []
    ensures Push(head, first + second, sep) == Push(head, first, sep) + second
  {
  }

  lemma {:induction false} SplitConcat<T>(left: seq<T>, right: seq<T>, sep: T)
    ensures Split(left + [sep] + right, sep) == Split(left, sep) + Split(right, sep)
    decreases |left|
  {
    if left == [] {
      assert left + [sep] + right == [sep] + right;
      SplitCons(sep, right, sep);
    } else {
      var tail := left[1..];
      SplitConcat(tail, right, sep);
      assert left + [sep] + right == [left[0]] + (tail + [sep] + right);
      assert left == [left[0]] + tail;
      SplitCons(left[0], tail + [sep] + right, sep);
      SplitCons(left[0], tail, sep);
      PushConcat(left[0], Split(tail, sep), Split(right, sep), sep);
    }
  }

  predicate AllFree<T(==)>(parts: seq<seq<T>>, sep: T) {
    forall i :: 0 <= i < |parts| ==> Free(parts[i], sep)
  }

  lemma AllFreeCons<T>(head: seq<T>, tail: seq<seq<T>>, sep: T)
    ensures AllFree([head] + tail, sep) <==> Free(head, sep) && AllFree(tail, sep)
  {
    var parts := [head] + tail;
    assert parts[0] == head;
    if AllFree(parts, sep) {
      forall i | 0 <= i < |tail|
        ensures Free(tail[i], sep)
      {
        assert tail[i] == parts[i + 1];
      }
    }
  }

  lemma JoinCons<T>(head: seq<T>, tail: seq<seq<T>>, sep: T)
    requires tail != []
    ensures Join([head] + tail, sep) == head + [sep] + Join(tail, sep)
    ensures Split(Join([head] + tail, sep), sep) == Split(head, sep) + Split(Join(tail, sep), sep)
  {
    assert ([head] + tail)[1..] == tail;
    SplitConcat(head, Join(tail, sep), sep);
  }

  /** What splitting a join says about the joined parts: none is lost, and they come back exactly when
      none holds the separator, that is exactly when there are as many as there were. */
  ghost predicate Returns<T>(parts: seq<seq<T>>, again: seq<seq<T>>, sep: T) {
    && |again| >= |parts|
    && (AllFree(parts, sep) <==> again == parts)
    && (|again| == |parts| ==> again == parts)
  }

  lemma ReturnsCons<T>(head: seq<T>, tail: seq<seq<T>>, first: seq<seq<T>>, again: seq<seq<T>>, sep: T)
    requires Returns(tail, again, sep)
    requires first != [] && (first == [head] <==> Free(head, sep)) && (Free(head, sep) <==> |first| == 1)
    ensures Returns([head] + tail, first + again, sep)
  {
    AllFreeCons(head, tail, sep);
    if |first + again| == |[head] + tail| {
      assert |first| == 1 && |again| == |tail|;
    }
  }

  lemma {:induction false} SplitOfJoin<T>(parts: seq<seq<T>>, sep: T)
    requires parts != []
    ensures Returns(parts, Split(Join(parts, sep), sep), sep)
    decreases |parts|
  {
    var head, tail := parts[0], parts[1..];
    SplitFree(head, sep);
    assert parts == [head] + tail;
    if tail == [] {
      assert parts == [head];
    } else {
      SplitOfJoin(tail, sep);
      JoinCons(head, tail, sep);
      ReturnsCons(head, tail, Split(head, sep), Split(Join(tail, sep), sep), sep);
    }
  }

  /** Separator-free parts at the front come back first, whatever follows them. */
  lemma {:induction false} SplitHeads<T>(heads: seq<seq<T>>, rest: seq<seq<T>>, sep: T)
    requires rest != [] && AllFree(heads, sep)
    ensures Split(Join(heads + rest, sep), sep) == heads + Split(Join(rest, sep), sep)
    decreases |heads|
  {
    if heads == [] {
      assert heads + rest == rest;
    } else {
      var head, tail := heads[0], heads[1..];
      assert heads == [head] + tail;
      AllFreeCons(head, tail, sep);
      SplitHeads(tail, rest, sep);
      SplitOneHead(head, tail, rest, sep);
    }
  }

  lemma SplitOneHead<T>(head: seq<T>, tail: seq<seq<T>>, rest: seq<seq<T>>, sep: T)
    requires rest != [] && Free(head, sep)
    requires Split(Join(tail + rest, sep), sep) == tail + Split(Join(rest, sep), sep)
    ensures Split(Join([head] + tail + rest, sep), sep) == [head] + tail + Split(Join(rest, sep), sep)
  {
    var again := Split(Join(rest, sep), sep);
    SplitFree(head, sep);
    JoinCons(head, tail + rest, sep);
    assert [head] + tail + rest == [head] + (tail + rest);
    assert [head] + tail + again == [head] + (tail + again);
  }

  predicate All<T>(text: seq<T>, holds: T -> bool) {
    forall i :: 0 <= i < |text| ==> holds(text[i])
  }

  lemma {:induction false} JoinAll<T>(parts: seq<seq<T>>, sep: T, holds: T -> bool)
    requires parts != [] && holds(sep) && forall i :: 0 <= i < |parts| ==> All(parts[i], holds)
    ensures All(Join(parts, sep), holds)
    decreases |parts|
  {
    if |parts| > 1 {
      JoinAll(parts[1..], sep, holds);
    }
  }

  /** A stretch of the text between two separators, or between one and an end. */
  ghost predicate Component<T>(text: seq<T>, sep: T, i: nat, j: nat) {
    && i <= j <= |text|
    && (i == 0 || text[i - 1] == sep)
    && (j == |text| || text[j] == sep)
    && sep !in text[i..j]
  }

  lemma ComponentBehind<T>(text: seq<T>, sep: T, i: nat, j: nat)
    requires text != [] && 0 < i <= j
    ensures j <= |text| ==> text[i..j] == text[1..][i - 1..j - 1]
    ensures (i > 1 || text[0] == sep) ==> (Component(text, sep, i, j) <==> Component(text[1..], sep, i - 1, j - 1))
    ensures i == 1 && text[0] != sep ==> !Component(text, sep, i, j)
  {
  }

  lemma FirstComponent<T>(text: seq<T>, sep: T, j: nat)
    requires text != []
    ensures text[0] == sep ==> (Component(text, sep, 0, j) <==> j == 0)
    ensures text[0] != sep ==> !Component(text, sep, 0, 0)
    ensures text[0] != sep && 0 < j <= |text| ==>
              && text[..j] == [text[0]] + text[1..][..j - 1]
              && (Component(text, sep, 0, j) <==> Component(text[1..], sep, 0, j - 1))
  {
    if text[0] != sep && 0 < j <= |text| {
      assert text[0..j] == [text[0]] + text[1..][0..j - 1];
    }
    if text[0] == sep && 0 < j <= |text| {
      assert text[0..j][0] == sep;
    }
  }

  /** Splitting yields components only, the first one first. */
  lemma {:induction false} PartIsComponent<T>(text: seq<T>, sep: T, n: nat) returns (i: nat, j: nat)
    requires n < |Split(text, sep)|
    ensures Component(text, sep, i, j) && text[i..j] == Split(text, sep)[n] && (i == 0 <==> n == 0)
    decreases |text|
  {
    i, j := 0, 0;
    if text != [] {
      if text[0] == sep {
        if n > 0 {
          i, j := PartIsComponent(text[1..], sep, n - 1);
          i, j := i + 1, j + 1;
          ComponentBehind(text, sep, i, j);
        } else {
          FirstComponent(text, sep, 0);
        }
      } else {
        i, j := PartIsComponent(text[1..], sep, n);
        if n == 0 {
          j := j + 1;
          FirstComponent(text, sep, j);
        } else {
          i, j := i + 1, j + 1;
          ComponentBehind(text, sep, i, j);
        }
      }
    }
  }

  /** No component is lost by splitting. */
  lemma {:induction false} ComponentIsPart<T>(text: seq<T>, sep: T, i: nat, j: nat) returns (n: nat)
    requires Component(text, sep, i, j)
    ensures n < |Split(text, sep)| && text[i..j] == Split(text, sep)[n] && (i == 0 <==> n == 0)
    decreases |text|
  {
    n := 0;
    if text != [] {
      if i > 0 {
        ComponentBehind(text, sep, i, j);
        n := ComponentIsPart(text[1..], sep, i - 1, j - 1);
        n := if text[0] == sep then n + 1 else n;
      } else {
        FirstComponent(text, sep, j);
        if text[0] != sep {
          n := ComponentIsPart(text[1..], sep, 0, j - 1);
        }
      }
    }
  }
}
