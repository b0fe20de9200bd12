/** What the journal reader accepts, in terms of the journal alone: which payload lists are a sequence of
    transactions, and which row may stand at which place of one. */
module InstallReading {
  import opened Wrappers
  import opened InstallEvents
  import opened InstallJournal
  import opened InstallOrder

  // ---------------------------------------------------------------- transactions as payloads

  /** The start record of a transaction and its first `n` rows. */
  function Records(t: nat, segment: Segment, n: nat): (payloads: seq<Payload>)
    requires n <= |segment.rows|
    ensures |payloads| == n + 1
  {
    if n == 0 then [Payload(t, segment.binding, TransactionStart)]
    else Records(t, segment, n - 1) + [Payload(t, segment.binding, segment.rows[n - 1])]
  }

  /** The payloads of the first `k` transactions, numbered from 1. */
  function Flat(segments: seq<Segment>, k: nat): (payloads: seq<Payload>)
    requires k <= |segments|
    ensures |payloads| >= k
  {
    if k == 0 then [] else Flat(segments, k - 1) + Records(k, segments[k - 1], |segments[k - 1].rows|)
  }

  /** A transaction is started once and has nothing behind its last row. */
  ghost predicate RowsShaped(rows: seq<Event>) {
    forall i :: 0 <= i < |rows| ==> !rows[i].TransactionStart? && (i < |rows| - 1 ==> !Terminal(rows[i]))
  }

  /** Every transaction but the last was recovered. */
  ghost predicate Shaped(segments: seq<Segment>) {
    && (forall i :: 0 <= i < |segments| ==> RowsShaped(segments[i].rows))
    && (forall i :: 0 <= i < |segments| - 1 ==> LastEvent(segments[i]).RecoveryComplete?)
  }

  lemma {:induction false} FlatLocal(segments: seq<Segment>, others: seq<Segment>, k: nat)
    requires k <= |segments| && k <= |others| && segments[..k] == others[..k]
    ensures Flat(segments, k) == Flat(others, k)
  {
    if k > 0 {
      assert segments[..k - 1] == segments[..k][..k - 1] && others[..k - 1] == others[..k][..k - 1];
      assert segments[k - 1] == segments[..k][k - 1] && others[k - 1] == others[..k][k - 1];
      FlatLocal(segments, others, k - 1);
    }
  }

  lemma {:induction false} RecordsLocal(t: nat, segment: Segment, event: Event, n: nat)
    requires n <= |segment.rows|
    ensures Records(t, segment.(rows := segment.rows + [event]), n) == Records(t, segment, n)
  {
    if n > 0 {
      RecordsLocal(t, segment, event, n - 1);
    }
  }

  function StartTransaction(segments: seq<Segment>, binding: Binding): seq<Segment> {
    segments + [Segment(binding, [])]
  }

  function AddRow(segments: seq<Segment>, event: Event): seq<Segment>
    requires segments != []
  {
    var last := segments[|segments| - 1];
    segments[|segments| - 1 := last.(rows := last.rows + [event])]
  }

  lemma FlatOfStart(segments: seq<Segment>, binding: Binding)
    ensures Flat(StartTransaction(segments, binding), |segments| + 1)
         == Flat(segments, |segments|) + [Payload(|segments| + 1, binding, TransactionStart)]
  {
    FlatLocal(StartTransaction(segments, binding), segments, |segments|);
  }

  lemma FlatOfRow(segments: seq<Segment>, event: Event)
    requires segments != []
    ensures Flat(AddRow(segments, event), |segments|)
         == Flat(segments, |segments|) + [Payload(|segments|, segments[|segments| - 1].binding, event)]
  {
    var k: nat, more := |segments| - 1, AddRow(segments, event);
    assert segments[..k] == more[..k];
    FlatLocal(more, segments, k);
    RecordsOfRow(k + 1, segments[k], more[k], event);
    AppendBehind(Flat(segments, k), Records(k + 1, segments[k], |segments[k].rows|),
                 [Payload(k + 1, segments[k].binding, event)]);
  }

  lemma AppendBehind(a: seq<Payload>, b: seq<Payload>, c: seq<Payload>)
    ensures a + (b + c) == a + b + c
  {
  }

  lemma RecordsOfRow(t: nat, segment: Segment, more: Segment, event: Event)
    requires more == segment.(rows := segment.rows + [event])
    ensures Records(t, more, |more.rows|) == Records(t, segment, |segment.rows|) + [Payload(t, segment.binding, event)]
  {
    RecordsLocal(t, segment, event, |segment.rows|);
  }

  lemma RowsShapedExtend(rows: seq<Event>, event: Event)
    ensures RowsShaped(rows + [event])
       <==> RowsShaped(rows) && !event.TransactionStart? && (rows != [] ==> !Terminal(rows[|rows| - 1]))
  {
    var more := rows + [event];
    assert more[|rows|] == event && forall i :: 0 <= i < |rows| ==> more[i] == rows[i];
    if RowsShaped(more) && rows != [] {
      assert more[|rows| - 1] == rows[|rows| - 1];
    }
  }

  lemma ShapedStart(segments: seq<Segment>, binding: Binding)
    ensures Shaped(StartTransaction(segments, binding))
       <==> Shaped(segments) && (segments != [] ==> LastEvent(segments[|segments| - 1]).RecoveryComplete?)
  {
    var more := StartTransaction(segments, binding);
    assert forall i :: 0 <= i < |segments| ==> more[i] == segments[i];
    if Shaped(more) && segments != [] {
      assert more[|segments| - 1] == segments[|segments| - 1];
    }
  }

  lemma ShapedRow(segments: seq<Segment>, event: Event)
    requires segments != []
    ensures Shaped(AddRow(segments, event))
       <==> Shaped(segments) && !event.TransactionStart? && !Terminal(LastEvent(segments[|segments| - 1]))
  {
    var more, k := AddRow(segments, event), |segments| - 1;
    RowsShapedExtend(segments[k].rows, event);
    assert forall i :: 0 <= i < k ==> more[i] == segments[i];
    if Shaped(more) {
      assert RowsShaped(more[k].rows);
    }
  }

  /** What one payload adds, read backwards. */
  lemma AddPayloadIff(segments: seq<Segment>, payload: Payload, more: seq<Segment>)
    requires Shaped(segments)
    ensures AddPayload(segments, payload) == Ok(more)
       <==> Shaped(more)
            && (|| (payload == Payload(|segments| + 1, payload.binding, TransactionStart)
                    && more == StartTransaction(segments, payload.binding))
                || (segments != [] && payload == Payload(|segments|, segments[|segments| - 1].binding, payload.event)
                    && !payload.event.TransactionStart? && more == AddRow(segments, payload.event)))
  {
    ShapedStart(segments, payload.binding);
    if segments != [] {
      ShapedRow(segments, payload.event);
    }
  }

  lemma {:induction false} ReadIsFlat(payloads: seq<Payload>, n: nat)
    requires n <= |payloads| && SegmentsTo(payloads, n).Ok?
    ensures var segments := SegmentsTo(payloads, n).value;
            Shaped(segments) && payloads[..n] == Flat(segments, |segments|)
  {
    if n > 0 {
      var before, now, payload := SegmentsTo(payloads, n - 1).value, SegmentsTo(payloads, n).value, payloads[n - 1];
      ReadIsFlat(payloads, n - 1);
      AddPayloadIff(before, payload, now);
      assert payloads[..n] == payloads[..n - 1] + [payload];
      if payload.event.TransactionStart? {
        FlatOfStart(before, payload.binding);
      } else {
        FlatOfRow(before, payload.event);
      }
    }
  }

  /** The transactions without their last record. */
  function Shorter(segments: seq<Segment>): (shorter: seq<Segment>)
    requires segments != []
  {
    var last := segments[|segments| - 1];
    if last.rows == [] then segments[..|segments| - 1]
    else segments[|segments| - 1 := last.(rows := last.rows[..|last.rows| - 1])]
  }

  function LastPayload(segments: seq<Segment>): Payload
    requires segments != []
  {
    Payload(|segments|, segments[|segments| - 1].binding, LastEvent(segments[|segments| - 1]))
  }

  lemma ShorterIsShorter(segments: seq<Segment>)
    requires segments != [] && Shaped(segments)
    ensures Shaped(Shorter(segments)) && AddPayload(Shorter(segments), LastPayload(segments)) == Ok(segments)
    ensures Flat(segments, |segments|) == Flat(Shorter(segments), |Shorter(segments)|) + [LastPayload(segments)]
  {
    var last, shorter := segments[|segments| - 1], Shorter(segments);
    if last.rows == [] {
      assert segments == StartTransaction(shorter, last.binding);
      ShapedStart(shorter, last.binding);
      FlatOfStart(shorter, last.binding);
    } else {
      var event := last.rows[|last.rows| - 1];
      assert last.rows == last.rows[..|last.rows| - 1] + [event];
      assert segments == AddRow(shorter, event);
      ShapedRow(shorter, event);
      FlatOfRow(shorter, event);
    }
    AddPayloadIff(shorter, LastPayload(segments), segments);
  }

  lemma {:induction false} FlatIsRead(segments: seq<Segment>, payloads: seq<Payload>)
    requires Shaped(segments) && payloads == Flat(segments, |segments|)
    ensures SegmentsTo(payloads, |payloads|) == Ok(segments)
    decreases |payloads|
  {
    if segments != [] {
      var shorter := Flat(Shorter(segments), |Shorter(segments)|);
      ShorterIsShorter(segments);
      FlatIsRead(Shorter(segments), shorter);
      SegmentsLocal(shorter, LastPayload(segments), |shorter|);
    }
  }

  /** A payload list is read as transactions exactly when it is those transactions written out one after
      the other: numbered from 1, each record with the binding of its start, each transaction but the last
      recovered, and nothing behind a plan or recovery that was completed. */
  lemma SegmentsIff(payloads: seq<Payload>, segments: seq<Segment>)
    ensures SegmentsTo(payloads, |payloads|) == Ok(segments)
       <==> Shaped(segments) && payloads == Flat(segments, |segments|)
  {
    if SegmentsTo(payloads, |payloads|) == Ok(segments) {
      ReadIsFlat(payloads, |payloads|);
      assert payloads[..|payloads|] == payloads;
    }
    if Shaped(segments) && payloads == Flat(segments, |segments|) {
      FlatIsRead(segments, payloads);
    }
  }

  // ---------------------------------------------------------------- which row may stand where

  /** The row before position `n` that is not a mere declaration that the plan is complete. */
  function Prev(rows: seq<Event>, n: nat): Option<Event>
    requires n <= |rows|
  {
    if n == 0 then None else if rows[n - 1].PlanComplete? then Prev(rows, n - 1) else Some(rows[n - 1])
  }

  /** How many steps were started before position `n`, and which one last. */
  function StepStarts(rows: seq<Event>, n: nat): (count: nat)
    requires n <= |rows|
    ensures count <= n
  {
    if n == 0 then 0 else StepStarts(rows, n - 1) + if rows[n - 1].StepStart? then 1 else 0
  }

  function Current(rows: seq<Event>, n: nat): Option<StepId>
    requires n <= |rows|
  {
    if n == 0 then None else if rows[n - 1].StepStart? then Some(rows[n - 1].step) else Current(rows, n - 1)
  }

  /** The base operation last started in the current step, the first one when none was. */
  function Base(rows: seq<Event>, n: nat): nat
    requires n <= |rows|
  {
    if n == 0 || rows[n - 1].StepStart? then 0
    else if rows[n - 1].OperationStart? then rows[n - 1].unit.operation.base
    else Base(rows, n - 1)
  }

  /** The operation was started in the current step. */
  ghost predicate StartedHere(rows: seq<Event>, n: nat, operation: Operation)
    requires n <= |rows|
  {
    exists k :: 0 <= k < n && rows[k].OperationStart? && rows[k].unit.operation == operation && NoStepFrom(rows, k, n)
  }

  ghost predicate NoStepFrom(rows: seq<Event>, k: nat, n: nat)
    requires n <= |rows|
  {
    forall j :: k <= j < n ==> !rows[j].StepStart?
  }

  predicate Idle(event: Option<Event>) {
    event.None? || event.value.StepComplete?
  }

  predicate Between(event: Option<Event>) {
    event.Some? && (event.value.StepStart? || event.value.OperationComplete?)
  }

  /** The row at position `n` may follow the rows before it: the next step behind a completed one; a new
      unit of the same base operation or the next one, nothing being in flight; the completion of the
      unit just started; the completion of the step behind its last base operation. */
  ghost predicate MayStand(rows: seq<Event>, n: nat)
    requires n < |rows|
  {
    match rows[n]
    case PlanComplete => true
    case StepStart(step) =>
      && Idle(Prev(rows, n))
      && StepStarts(rows, n) < |INSTALL_STEPS| && step == INSTALL_STEPS[StepStarts(rows, n)]
    case OperationStart(unit) =>
      && Between(Prev(rows, n)) && Current(rows, n) == Some(unit.step)
      && Base(rows, n) <= unit.operation.base <= Base(rows, n) + 1
      && unit.operation.base < OperationCount(unit.step)
      && !StartedHere(rows, n, unit.operation)
    case OperationComplete(unit, _) => Prev(rows, n) == Some(OperationStart(unit))
    case StepComplete(step, _) =>
      && Between(Prev(rows, n)) && Current(rows, n) == Some(step)
      && Base(rows, n) + 1 == OperationCount(step)
    case _ => false
  }

  /** The order state repeats what the rows say. */
  ghost predicate Tracks(rows: seq<Event>, n: nat, o: Order)
    requires n <= |rows|
  {
    && !o.rollbackStarted
    && o.stepIndex + 1 == StepStarts(rows, n)
    && o.activeStep == (if Idle(Prev(rows, n)) then None else Current(rows, n))
    && (o.activeStep.None? <==> Idle(Prev(rows, n)))
    && o.activeOperation == (if Prev(rows, n).Some? && Prev(rows, n).value.OperationStart?
                             then Some(Prev(rows, n).value.unit.operation) else None)
    && (Prev(rows, n).Some? && Prev(rows, n).value.OperationStart? ==> o.activeStep == Some(Prev(rows, n).value.unit.step))
    && (Idle(Prev(rows, n)) || Between(Prev(rows, n)) || Prev(rows, n).value.OperationStart?)
    && o.operationIndex == Base(rows, n)
    && (o.activeStep.Some? ==> o.operationIndex < OperationCount(o.activeStep.value))
    && SeenHere(rows, n, o.seen)
  }

  ghost predicate SeenHere(rows: seq<Event>, n: nat, seen: set<Operation>)
    requires n <= |rows|
  {
    forall operation :: operation in seen <==> StartedHere(rows, n, operation)
  }

  lemma SeenNext(rows: seq<Event>, n: nat, seen: set<Operation>)
    requires n < |rows| && SeenHere(rows, n, seen)
    ensures SeenHere(rows, n + 1, if rows[n].StepStart? then {}
                                  else if rows[n].OperationStart? then seen + {rows[n].unit.operation} else seen)
  {
    forall operation
      ensures StartedHere(rows, n + 1, operation)
         <==> !rows[n].StepStart?
              && (StartedHere(rows, n, operation) || (rows[n].OperationStart? && rows[n].unit.operation == operation))
    {
      StartedHereNext(rows, n, operation);
    }
  }

  lemma StartedHereNext(rows: seq<Event>, n: nat, operation: Operation)
    requires n < |rows|
    ensures StartedHere(rows, n + 1, operation)
       <==> !rows[n].StepStart?
            && (StartedHere(rows, n, operation) || (rows[n].OperationStart? && rows[n].unit.operation == operation))
  {
    if StartedHere(rows, n + 1, operation) {
      var k :| 0 <= k < n + 1 && rows[k].OperationStart? && rows[k].unit.operation == operation && NoStepFrom(rows, k, n + 1);
      assert NoStepFrom(rows, k, n);
    }
    if !rows[n].StepStart? && StartedHere(rows, n, operation) {
      var k :| 0 <= k < n && rows[k].OperationStart? && rows[k].unit.operation == operation && NoStepFrom(rows, k, n);
      assert NoStepFrom(rows, k, n + 1);
    }
    if rows[n].OperationStart? {
      assert NoStepFrom(rows, n, n + 1);
    }
  }

  /** One row: the automaton lets it through exactly when it may stand there. */
  lemma RowIff(rows: seq<Event>, n: nat, o: Order)
    requires n < |rows| && !RollbackEvent(rows[n]) && Tracks(rows, n, o)
    ensures AdvanceOrder(o, rows[n]).Some? <==> MayStand(rows, n)
    ensures AdvanceOrder(o, rows[n]).Some? ==> Tracks(rows, n + 1, AdvanceOrder(o, rows[n]).value)
  {
    SeenNext(rows, n, o.seen);
  }

  lemma {:induction false} PrefixIff(rows: seq<Event>, n: nat)
    requires n <= |rows| && NoRollbackBefore(rows, n)
    ensures OrderTo(rows, n).Some? <==> AllMayStand(rows, n)
    ensures OrderTo(rows, n).Some? ==> Tracks(rows, n, OrderTo(rows, n).value)
  {
    if n > 0 {
      PrefixIff(rows, n - 1);
      if OrderTo(rows, n - 1).Some? {
        RowIff(rows, n - 1, OrderTo(rows, n - 1).value);
      }
    } else {
      assert forall operation :: !StartedHere(rows, 0, operation);
    }
  }

  ghost predicate AllMayStand(rows: seq<Event>, n: nat)
    requires n <= |rows|
  {
    forall i :: 0 <= i < n ==> MayStand(rows, i)
  }

  /** The order check accepts a transaction with operations exactly when each row before the first
      rollback row may stand at its place. */
  lemma OrderIff(rows: seq<Event>)
    requires OperationMode(rows)
    ensures OrderValid(rows)
       <==> forall i :: 0 <= i < |rows| && NoRollbackBefore(rows, i + 1) ==> MayStand(rows, i)
  {
    if NoRollbackBefore(rows, |rows|) {
      PrefixIff(rows, |rows|);
    } else {
      var k := FirstRollback(rows, |rows|);
      CheckEndsAtRollback(rows, k);
      PrefixIff(rows, k);
    }
  }

  /** What the reader of the install journal accepts, altogether. */
  lemma ParsedIff(payloads: seq<Payload>, segments: seq<Segment>)
    ensures Parsed(payloads) == Ok(segments)
       <==> && Shaped(segments) && payloads == Flat(segments, |segments|)
            && forall i :: 0 <= i < |segments| ==> OrderValid(segments[i].rows)
  {
    SegmentsIff(payloads, segments);
  }

  lemma {:induction false} FirstRollback(rows: seq<Event>, n: nat) returns (k: nat)
    requires n <= |rows| && !NoRollbackBefore(rows, n)
    ensures k < n && RollbackEvent(rows[k]) && NoRollbackBefore(rows, k)
  {
    if NoRollbackBefore(rows, n - 1) {
      k := n - 1;
    } else {
      k := FirstRollback(rows, n - 1);
    }
  }
}
