/** The write loop that every journal ends its append with, over a device that may write less than asked. */
module Device {
  import opened Bytes

  /** How a write loop ended: all written, a write that reported nothing, or a process that stopped. */
  datatype Ended = Finished | ZeroWrite | Halted

  /** What the loop gets out of `size` bytes when the device reports `counts` for its successive writes;
      a list that ends early is a process that stopped. */
  function Delivered(counts: seq<nat>, size: nat): (r: (nat, Ended))
    ensures r.0 <= size && (r.1.Finished? <==> r.0 == size)
    decreases |counts|
  {
    if size == 0 then (0, Finished)
    else if counts == [] then (0, Halted)
    else if counts[0] == 0 then (0, ZeroWrite)
    else if counts[0] >= size then (size, Finished)
    else
      var (more, ended) := Delivered(counts[1..], size - counts[0]);
      (counts[0] + more, ended)
  }

  /** The first `k` counts, all of them progress, and their sum. */
  predicate Progress(counts: seq<nat>, k: nat)
    requires k <= |counts|
  {
    forall i :: 0 <= i < k ==> counts[i] > 0
  }

  function Sum(counts: seq<nat>, k: nat): nat
    requires k <= |counts|
  {
    if k == 0 then 0 else Sum(counts, k - 1) + counts[k - 1]
  }

  lemma {:induction false} SumTail(counts: seq<nat>, k: nat)
    requires counts != [] && k <= |counts[1..]|
    ensures Sum(counts, k + 1) == counts[0] + Sum(counts[1..], k)
  {
    if k > 0 {
      SumTail(counts, k - 1);
    }
  }

  /** After `k` writes the loop stands at its end. */
  ghost predicate EndsAfter(counts: seq<nat>, size: nat, k: nat, r: (nat, Ended)) {
    && k <= |counts| && Progress(counts, k)
    && match r.1
       case Finished => Sum(counts, k) >= size && r.0 == size && (k > 0 ==> Sum(counts, k - 1) < size)
       case ZeroWrite => Sum(counts, k) < size && r.0 == Sum(counts, k) && k < |counts| && counts[k] == 0
       case Halted => Sum(counts, k) < size && r.0 == Sum(counts, k) && k == |counts|
  }

  /** The loop takes the counts one by one until they cover the data, until one is zero, or until none is left. */
  lemma {:induction false} DeliveredMeaning(counts: seq<nat>, size: nat) returns (k: nat)
    ensures EndsAfter(counts, size, k, Delivered(counts, size))
    decreases |counts|
  {
    k := 0;
    if size > 0 && counts != [] && counts[0] > 0 {
      if counts[0] >= size {
        k := 1;
        assert Sum(counts, 0) == 0;
      } else {
        var rest := DeliveredMeaning(counts[1..], size - counts[0]);
        k := rest + 1;
        SumTail(counts, rest);
        if rest > 0 {
          SumTail(counts, rest - 1);
        }
      }
    }
  }

  /** Append `data` to a file, write by write. */
  method WriteAll(file: seq<byte>, data: seq<byte>, counts: seq<nat>) returns (after: seq<byte>, cut: nat, ended: Ended)
    ensures (cut, ended) == Delivered(counts, |data|)
    ensures after == file + data[..cut]
  {
    after, cut := file, 0;
    var call := 0;
    while cut < |data|
      invariant cut <= |data| && call <= |counts|
      invariant after == file + data[..cut]
      invariant Delivered(counts, |data|)
             == (cut + Delivered(counts[call..], |data| - cut).0, Delivered(counts[call..], |data| - cut).1)
      decreases |counts| - call
    {
      if call == |counts| {
        return after, cut, Halted;
      }
      var count := if counts[call] <= |data| - cut then counts[call] else |data| - cut;
      assert counts[call..][1..] == counts[call + 1..];
      call := call + 1;
      if count == 0 {
        return after, cut, ZeroWrite;
      }
      after := after + data[cut..cut + count];
      cut := cut + count;
    }
    return after, cut, Finished;
  }

  /** A device that makes progress on every call finishes once it has been called often enough. */
  lemma {:induction false} ProgressFinishes(counts: seq<nat>, size: nat)
    requires |counts| >= size && forall i :: 0 <= i < |counts| ==> counts[i] > 0
    ensures Delivered(counts, size) == (size, Finished)
    decreases |counts|
  {
    if size > 0 && counts[0] < size {
      ProgressFinishes(counts[1..], size - counts[0]);
    }
  }

  /** A device that finishes a write finishes every shorter one. */
  lemma {:induction false} ShorterFinishes(counts: seq<nat>, size: nat, shorter: nat)
    requires shorter <= size && Delivered(counts, size).1.Finished?
    ensures Delivered(counts, shorter).1.Finished?
    decreases |counts|
  {
    if 0 < shorter && counts[0] < shorter {
      ShorterFinishes(counts[1..], size - counts[0], shorter - counts[0]);
    }
  }
}
