/** Fixed-width fields at the front of a buffer, and the remainder behind them. */
module Fields {
  import opened Bytes

  function Sum(widths: seq<nat>): nat {
    if widths == [] then 0 else widths[0] + Sum(widths[1..])
  }

  /** The fields of the given widths, then everything that is left. */
  function Cut(data: seq<byte>, widths: seq<nat>): (parts: seq<seq<byte>>)
    requires |data| >= Sum(widths)
    ensures |parts| == |widths| + 1
    decreases |widths|
  {
    if widths == [] then [data] else [data[..widths[0]]] + Cut(data[widths[0]..], widths[1..])
  }

  function Glue(parts: seq<seq<byte>>): seq<byte> {
    if parts == [] then [] else parts[0] + Glue(parts[1..])
  }

  predicate Fit(parts: seq<seq<byte>>, widths: seq<nat>) {
    |parts| == |widths| + 1 && forall i :: 0 <= i < |widths| ==> |parts[i]| == widths[i]
  }

  lemma {:induction false} GlueOfCut(data: seq<byte>, widths: seq<nat>)
    requires |data| >= Sum(widths)
    ensures Glue(Cut(data, widths)) == data && Fit(Cut(data, widths), widths)
    ensures |Cut(data, widths)[|widths|]| == |data| - Sum(widths)
    decreases |widths|
  {
    var parts := Cut(data, widths);
    if widths != [] {
      var rest := data[widths[0]..];
      GlueOfCut(rest, widths[1..]);
      assert parts[1..] == Cut(rest, widths[1..]);
      assert data == data[..widths[0]] + rest;
      forall i | 0 <= i < |widths|
        ensures |parts[i]| == widths[i]
      {
        assert i > 0 ==> parts[i] == parts[1..][i - 1] && widths[i] == widths[1..][i - 1];
      }
    } else {
      assert parts[1..] == [];
    }
  }

  lemma {:induction false} CutOfGlue(parts: seq<seq<byte>>, widths: seq<nat>)
    requires Fit(parts, widths)
    ensures |Glue(parts)| == Sum(widths) + |parts[|widths|]|
    ensures Cut(Glue(parts), widths) == parts
    decreases |widths|
  {
    if widths != [] {
      var rest := parts[1..];
      assert forall i :: 0 <= i < |widths[1..]| ==> rest[i] == parts[i + 1] && widths[1..][i] == widths[i + 1];
      CutOfGlue(rest, widths[1..]);
      assert Glue(parts)[..widths[0]] == parts[0] && Glue(parts)[widths[0]..] == Glue(rest);
      assert parts == [parts[0]] + rest;
    } else {
      assert parts[1..] == [];
      assert parts == [parts[0]] && Glue(parts) == parts[0] + Glue([]) == parts[0];
    }
  }

  /** Where a field starts. */
  function Offset(widths: seq<nat>, i: nat): nat
    requires i <= |widths|
  {
    if i == 0 then 0 else widths[0] + Offset(widths[1..], i - 1)
  }

  lemma {:induction false} OffsetAtMost(widths: seq<nat>, i: nat)
    requires i <= |widths|
    ensures Offset(widths, i) <= Sum(widths) && Offset(widths, |widths|) == Sum(widths)
    ensures i < |widths| ==> Offset(widths, i + 1) == Offset(widths, i) + widths[i] <= Sum(widths)
    decreases |widths|
  {
    if widths != [] {
      OffsetAtMost(widths[1..], if i == 0 then 0 else i - 1);
    }
  }

  /** A field is the slice of its width at its offset, and the remainder is what lies behind them all. */
  lemma {:induction false} CutAt(data: seq<byte>, widths: seq<nat>, i: nat)
    requires |data| >= Sum(widths) && i <= |widths|
    ensures Offset(widths, i) <= |data|
    ensures i < |widths| ==>
              && Offset(widths, i) + widths[i] <= |data|
              && Cut(data, widths)[i] == data[Offset(widths, i)..Offset(widths, i) + widths[i]]
    ensures i == |widths| ==> Cut(data, widths)[i] == data[Offset(widths, i)..]
    decreases |widths|
  {
    OffsetAtMost(widths, i);
    if i > 0 {
      var w := widths[0];
      CutAt(data[w..], widths[1..], i - 1);
      var from := Offset(widths[1..], i - 1);
      assert Cut(data, widths)[i] == Cut(data[w..], widths[1..])[i - 1];
      if i < |widths| {
        SliceBehind(data, w, from, from + widths[i]);
      } else {
        SliceBehind(data, w, from, |data| - w);
      }
    }
  }

  lemma SliceBehind(data: seq<byte>, w: nat, from: nat, to: nat)
    requires from <= to && w + to <= |data|
    ensures data[w..][from..to] == data[w + from..w + to]
  {
  }
}
