/** Reading the install journal back: segments, operation order, and the ownership it records. */
module InstallJournal {
  import opened Wrappers
  import opened InstallEvents

  datatype JournalError =
    | SegmentInvalid
    | SegmentOverlap
    | AfterAppliedPlan
    | AfterTerminal
    | BindingMismatch
    | OperationOrderInvalid

  /** One transaction: the binding of its start record and the events after it. */
  datatype Segment = Segment(binding: Binding, rows: seq<Event>)

  function LastEvent(segment: Segment): Event {
    if segment.rows == [] then TransactionStart else segment.rows[|segment.rows| - 1]
  }

  predicate Terminal(event: Event) {
    event.PlanComplete? || event.RecoveryComplete?
  }

  function AddPayload(segments: seq<Segment>, payload: Payload): Result<seq<Segment>, JournalError> {
    if payload.event.TransactionStart? then
      if payload.transaction != |segments| + 1 then Err(SegmentInvalid)
      else if segments != [] && !Terminal(LastEvent(segments[|segments| - 1])) then Err(SegmentOverlap)
      else if segments != [] && LastEvent(segments[|segments| - 1]).PlanComplete? then Err(AfterAppliedPlan)
      else Ok(segments + [Segment(payload.binding, [])])
    else if segments == [] || payload.transaction != |segments| then Err(SegmentInvalid)
    else
      var last := segments[|segments| - 1];
      if Terminal(LastEvent(last)) then Err(AfterTerminal)
      else if payload.binding != last.binding then Err(BindingMismatch)
      else Ok(segments[|segments| - 1 := last.(rows := last.rows + [payload.event])])
  }

  ghost function SegmentsTo(payloads: seq<Payload>, n: nat): Result<seq<Segment>, JournalError>
    requires n <= |payloads|
  {
    if n == 0 then Ok([])
    else
      match SegmentsTo(payloads, n - 1)
      case Ok(segments) => AddPayload(segments, payloads[n - 1])
      case Err(e) => Err(e)
  }

  // ---------------------------------------------------------------- operation order

  datatype Order = Order(
    stepIndex: int,
    activeStep: Option<StepId>,
    operationIndex: nat,
    activeOperation: Option<Operation>,
    seen: set<Operation>,
    rollbackStarted: bool)

  const ORDER_START: Order := Order(-1, None, 0, None, {}, false)

  predicate RollbackEvent(event: Event) {
    || event.RollbackStart? || event.RollbackComplete? || event.RollbackFailed?
    || event.RollbackRetainedAmbiguous? || event.RecoveryComplete? || event.RecoveryFailed?
  }

  function RosterLength(step: Option<StepId>): nat {
    match step
    case Some(s) => OperationCount(s)
    case None => 0
  }

  function AdvanceOrder(o: Order, event: Event): Option<Order> {
    if RollbackEvent(event) then
      Some(o.(rollbackStarted := true, activeStep := None, activeOperation := None))
    else if o.rollbackStarted || event.PlanComplete? then Some(o)
    else
      match event
      case StepStart(step) =>
        if o.stepIndex < -1 || o.stepIndex + 1 >= |INSTALL_STEPS| || step != INSTALL_STEPS[o.stepIndex + 1]
           || o.activeStep.Some? then None
        else Some(o.(stepIndex := o.stepIndex + 1, activeStep := Some(step), operationIndex := 0, seen := {}))
      case OperationStart(unit) =>
        var count, base := RosterLength(o.activeStep), unit.operation.base;
        var index :=
          if o.operationIndex < count && base != o.operationIndex && o.operationIndex + 1 < count
             && base == o.operationIndex + 1
          then o.operationIndex + 1 else o.operationIndex;
        if o.activeStep != Some(unit.step) || o.activeOperation.Some? || index >= count || base != index
           || unit.operation in o.seen then None
        else Some(o.(operationIndex := index, activeOperation := Some(unit.operation),
                     seen := o.seen + {unit.operation}))
      case OperationComplete(unit, _) =>
        if o.activeStep != Some(unit.step) || o.activeOperation != Some(unit.operation) then None
        else Some(o.(activeOperation := None))
      case StepComplete(step, _) =>
        if o.activeStep != Some(step) || o.activeOperation.Some?
           || o.operationIndex != RosterLength(o.activeStep) - 1 then None
        else Some(o.(activeStep := None))
      case _ => None
  }

  ghost function OrderTo(rows: seq<Event>, n: nat): Option<Order>
    requires n <= |rows|
  {
    if n == 0 then Some(ORDER_START)
    else
      match OrderTo(rows, n - 1)
      case Some(o) => AdvanceOrder(o, rows[n - 1])
      case None => None
  }

  predicate OperationMode(rows: seq<Event>) {
    exists i :: 0 <= i < |rows| && (rows[i].OperationStart? || rows[i].OperationComplete?)
  }

  ghost predicate OrderValid(rows: seq<Event>) {
    OperationMode(rows) ==> OrderTo(rows, |rows|).Some?
  }

  method ValidateOperationOrder(rows: seq<Event>) returns (valid: bool)
    ensures valid <==> OrderValid(rows)
  {
    if !OperationMode(rows) {
      return true;
    }
    var o, i := ORDER_START, 0;
    while i < |rows|
      invariant i <= |rows|
      invariant OrderTo(rows, i) == Some(o)
    {
      match AdvanceOrder(o, rows[i]) {
        case Some(next) =>
          o := next;
        case None =>
          OrderStaysRejected(rows, i + 1, |rows|);
          return false;
      }
      i := i + 1;
    }
    return true;
  }

  lemma {:induction false} OrderStaysRejected(rows: seq<Event>, n: nat, m: nat)
    requires n <= m <= |rows| && OrderTo(rows, n).None?
    ensures OrderTo(rows, m).None?
    decreases m - n
  {
    if n < m {
      OrderStaysRejected(rows, n + 1, m);
    }
  }

  /** What the journal reader accepts. */
  ghost function Parsed(payloads: seq<Payload>): Result<seq<Segment>, JournalError> {
    match SegmentsTo(payloads, |payloads|)
    case Err(e) => Err(e)
    case Ok(segments) =>
      if forall i :: 0 <= i < |segments| ==> OrderValid(segments[i].rows) then Ok(segments)
      else Err(OperationOrderInvalid)
  }

  lemma {:induction false} SegmentsStayRejected(payloads: seq<Payload>, n: nat, m: nat)
    requires n <= m <= |payloads| && SegmentsTo(payloads, n).Err?
    ensures SegmentsTo(payloads, m) == SegmentsTo(payloads, n)
    decreases m - n
  {
    if n < m {
      SegmentsStayRejected(payloads, n + 1, m);
    }
  }

  /** A longer journal keeps the transactions of a shorter one; only the last of them may grow, and not
      once it is terminated. */
  lemma {:induction false} SegmentsGrow(payloads: seq<Payload>, n: nat, m: nat)
    requires n <= m <= |payloads| && SegmentsTo(payloads, m).Ok?
    ensures SegmentsTo(payloads, n).Ok?
    ensures var earlier, later := SegmentsTo(payloads, n).value, SegmentsTo(payloads, m).value;
      && |earlier| <= |later|
      && (forall i :: 0 <= i < |earlier| - 1 ==> later[i] == earlier[i])
      && (earlier != [] && Terminal(LastEvent(earlier[|earlier| - 1])) ==> later[|earlier| - 1] == earlier[|earlier| - 1])
    decreases m - n
  {
    if n < m {
      SegmentsGrow(payloads, n, m - 1);
    }
  }

  lemma {:induction false} SegmentsPrefix(payloads: seq<Payload>, more: seq<Payload>, n: nat)
    requires n <= |payloads| && payloads <= more
    ensures SegmentsTo(more, n) == SegmentsTo(payloads, n)
  {
    if n > 0 {
      SegmentsPrefix(payloads, more, n - 1);
    }
  }

  method JournalSegments(payloads: seq<Payload>) returns (result: Result<seq<Segment>, JournalError>)
    ensures result == Parsed(payloads)
  {
    var segments, n := [], 0;
    while n < |payloads|
      invariant n <= |payloads|
      invariant SegmentsTo(payloads, n) == Ok(segments)
    {
      match AddPayload(segments, payloads[n]) {
        case Ok(more) =>
          segments := more;
        case Err(e) =>
          SegmentsStayRejected(payloads, n + 1, |payloads|);
          return Err(e);
      }
      n := n + 1;
    }
    var i := 0;
    while i < |segments|
      invariant i <= |segments|
      invariant forall j :: 0 <= j < i ==> OrderValid(segments[j].rows)
    {
      var valid := ValidateOperationOrder(segments[i].rows);
      if !valid {
        return Err(OperationOrderInvalid);
      }
      i := i + 1;
    }
    return Ok(segments);
  }

  // ---------------------------------------------------------------- recorded ownership

  /** What the recovery loop collects from the rows of one transaction. */
  datatype View = View(
    starts: seq<Unit>,
    done: map<Unit, Option<Receipt>>,
    duplicate: bool,
    completed: set<StepId>,
    stepReceipts: map<StepId, Receipt>,
    rolledBack: set<RollbackId>,
    repeatedRollback: bool)

  const VIEW_START: View := View([], map[], false, {}, map[], {}, false)

  function AdvanceView(v: View, event: Event): View {
    match event
    case OperationStart(unit) => v.(starts := v.starts + [unit])
    case OperationComplete(unit, receipt) =>
      v.(done := v.done[unit := receipt], duplicate := v.duplicate || unit in v.done)
    case StepComplete(step, receipt) =>
      v.(completed := v.completed + {step},
         stepReceipts := if receipt.Some? then v.stepReceipts[step := receipt.value] else v.stepReceipts)
    case RollbackComplete(action) =>
      v.(rolledBack := v.rolledBack + {action}, repeatedRollback := v.repeatedRollback || action in v.rolledBack)
    case _ => v
  }

  ghost function ViewTo(rows: seq<Event>, n: nat): View
    requires n <= |rows|
  {
    if n == 0 then VIEW_START else AdvanceView(ViewTo(rows, n - 1), rows[n - 1])
  }

  ghost function ViewOf(rows: seq<Event>): View {
    ViewTo(rows, |rows|)
  }

  /** The steps recovery treats as possibly effected: those with a step or an operation receipt. */
  function PossiblyEffected(v: View): set<StepId> {
    v.stepReceipts.Keys + set unit | unit in v.done && v.done[unit].Some? :: unit.step
  }

  ghost predicate Affected(v: View, action: RollbackId) {
    Sources(action) * PossiblyEffected(v) != {}
  }

  // The fold functions on an extended list.

  lemma {:induction false} OrderLocal(rows: seq<Event>, event: Event, n: nat)
    requires n <= |rows|
    ensures OrderTo(rows + [event], n) == OrderTo(rows, n)
  {
    if n > 0 {
      OrderLocal(rows, event, n - 1);
    }
  }

  lemma {:induction false} ViewLocal(rows: seq<Event>, event: Event, n: nat)
    requires n <= |rows|
    ensures ViewTo(rows + [event], n) == ViewTo(rows, n)
  {
    if n > 0 {
      ViewLocal(rows, event, n - 1);
    }
  }

  lemma {:induction false} SegmentsLocal(payloads: seq<Payload>, payload: Payload, n: nat)
    requires n <= |payloads|
    ensures SegmentsTo(payloads + [payload], n) == SegmentsTo(payloads, n)
  {
    if n > 0 {
      SegmentsLocal(payloads, payload, n - 1);
    }
  }

  // ---------------------------------------------------------------- what a recorded view means

  /** The started units are exactly those with an operation-start row, the finished ones exactly
      those with an operation-complete row, and an accepted view keeps the receipt of that row. */
  lemma {:induction false} ViewMeaning(rows: seq<Event>, n: nat, unit: Unit)
    requires n <= |rows|
    ensures unit in ViewTo(rows, n).starts <==> exists i :: 0 <= i < n && rows[i] == OperationStart(unit)
    ensures unit in ViewTo(rows, n).done
       <==> exists i :: 0 <= i < n && rows[i].OperationComplete? && rows[i].unit == unit
    ensures unit in ViewTo(rows, n).done
        ==> exists i :: 0 <= i < n && rows[i] == OperationComplete(unit, ViewTo(rows, n).done[unit])
  {
    if n > 0 {
      ViewMeaning(rows, n - 1, unit);
      assert ViewTo(rows, n) == AdvanceView(ViewTo(rows, n - 1), rows[n - 1]);
      if unit in ViewTo(rows, n).done {
        if rows[n - 1].OperationComplete? && rows[n - 1].unit == unit {
          assert rows[n - 1] == OperationComplete(unit, ViewTo(rows, n).done[unit]);
        }
      }
    }
  }

  /** No duplicate flag means no two completions of one unit; no repeated flag, no two completions of
      one rollback action. */
  lemma {:induction false} FlagsMeaning(rows: seq<Event>, n: nat, i: nat, j: nat)
    requires i < j < n <= |rows|
    requires !ViewTo(rows, n).duplicate && !ViewTo(rows, n).repeatedRollback
    ensures rows[i].OperationComplete? && rows[j].OperationComplete? ==> rows[i].unit != rows[j].unit
    ensures rows[i].RollbackComplete? && rows[j].RollbackComplete? ==> rows[i].action != rows[j].action
  {
    assert ViewTo(rows, n) == AdvanceView(ViewTo(rows, n - 1), rows[n - 1]);
    if j < n - 1 {
      FlagsMeaning(rows, n - 1, i, j);
    } else {
      if rows[i].OperationComplete? {
        ViewMeaning(rows, n - 1, rows[i].unit);
      }
      if rows[i].RollbackComplete? {
        RolledBackMeaning(rows, n - 1, rows[i].action);
      }
    }
  }

  lemma {:induction false} RolledBackMeaning(rows: seq<Event>, n: nat, action: RollbackId)
    requires n <= |rows|
    ensures action in ViewTo(rows, n).rolledBack <==> exists i :: 0 <= i < n && rows[i] == RollbackComplete(action)
  {
    if n > 0 {
      RolledBackMeaning(rows, n - 1, action);
      assert ViewTo(rows, n) == AdvanceView(ViewTo(rows, n - 1), rows[n - 1]);
    }
  }
}
