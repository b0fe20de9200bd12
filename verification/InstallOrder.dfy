/** What the operation-order check of the journal reader guarantees, and where it stops short. */
module InstallOrder {
  import opened Wrappers
  import opened InstallEvents
  import opened InstallJournal

  predicate NoRollbackBefore(rows: seq<Event>, n: nat)
    requires n <= |rows|
  {
    forall i :: 0 <= i < n ==> !RollbackEvent(rows[i])
  }

  /** Some unit of base operation `b` of the step has a start row. */
  ghost predicate Started(rows: seq<Event>, n: nat, step: StepId, b: nat)
    requires n <= |rows|
  {
    exists i :: 0 <= i < n && rows[i].OperationStart? && rows[i].unit.step == step && rows[i].unit.operation.base == b
  }

  /** Some unit of base operation `b` of the step has a start row and, behind it, its completion row. */
  ghost predicate Ran(rows: seq<Event>, n: nat, step: StepId, b: nat)
    requires n <= |rows|
  {
    exists i :: 0 <= i < n && rows[i].OperationStart? && rows[i].unit.step == step && rows[i].unit.operation.base == b
                && FinishedAfter(rows, i, n)
  }

  ghost predicate FinishedAfter(rows: seq<Event>, i: nat, n: nat)
    requires i < n <= |rows| && rows[i].OperationStart?
  {
    exists j :: i < j < n && rows[j].OperationComplete? && rows[j].unit == rows[i].unit
  }

  ghost predicate RanAll(rows: seq<Event>, n: nat, step: StepId)
    requires n <= |rows|
  {
    forall b :: 0 <= b < OperationCount(step) ==> Ran(rows, n, step, b)
  }

  ghost predicate StepCompleted(rows: seq<Event>, n: nat, step: StepId)
    requires n <= |rows|
  {
    exists i :: 0 <= i < n && rows[i].StepComplete? && rows[i].step == step
  }

  ghost predicate AllStepsCompleted(rows: seq<Event>, n: nat)
    requires n <= |rows|
  {
    forall k :: 0 <= k < |INSTALL_STEPS| ==> StepCompleted(rows, n, INSTALL_STEPS[k])
  }

  // ---------------------------------------------------------------- the order state before any rollback

  /** Every base operation of the active step from the second up to the current one was started. */
  ghost predicate CoversActiveStep(rows: seq<Event>, n: nat, o: Order)
    requires n <= |rows|
  {
    o.activeStep.Some? ==> forall b :: 1 <= b <= o.operationIndex ==> Started(rows, n, o.activeStep.value, b)
  }

  /** Every started unit is finished, but for the active one. */
  ghost predicate FinishesStarts(rows: seq<Event>, n: nat, o: Order)
    requires n <= |rows|
  {
    forall i :: 0 <= i < n && rows[i].OperationStart? && !FinishedAfter(rows, i, n) ==>
      o.activeStep == Some(rows[i].unit.step) && o.activeOperation == Some(rows[i].unit.operation)
  }

  /** The completed steps are those before the current one, and the current one once it is left. */
  ghost predicate CountsSteps(rows: seq<Event>, n: nat, o: Order)
    requires n <= |rows|
  {
    && -1 <= o.stepIndex < |INSTALL_STEPS|
    && (o.activeStep.Some? ==> o.stepIndex >= 0 && o.activeStep.value == INSTALL_STEPS[o.stepIndex])
    && forall k :: 0 <= k < |INSTALL_STEPS| ==>
         (StepCompleted(rows, n, INSTALL_STEPS[k]) <==> k < o.stepIndex || (k == o.stepIndex && o.activeStep.None?))
  }

  lemma StartedGrows(rows: seq<Event>, n: nat, step: StepId, b: nat)
    requires n < |rows|
    ensures Started(rows, n + 1, step, b) <==>
              || Started(rows, n, step, b)
              || (rows[n].OperationStart? && rows[n].unit.step == step && rows[n].unit.operation.base == b)
  {
  }

  lemma CoverageStep(rows: seq<Event>, n: nat, o: Order, next: Order)
    requires n < |rows| && AdvanceOrder(o, rows[n]) == Some(next) && CoversActiveStep(rows, n, o)
    ensures CoversActiveStep(rows, n + 1, next)
  {
    if next.activeStep.Some? {
      forall b: nat {:trigger Started(rows, n + 1, next.activeStep.value, b)} | 1 <= b <= next.operationIndex
        ensures Started(rows, n + 1, next.activeStep.value, b)
      {
        StartedGrows(rows, n, next.activeStep.value, b);
      }
    }
  }

  lemma FinishStep(rows: seq<Event>, n: nat, o: Order, next: Order)
    requires n < |rows| && AdvanceOrder(o, rows[n]) == Some(next)
    requires !RollbackEvent(rows[n]) && !o.rollbackStarted && (o.activeOperation.Some? ==> o.activeStep.Some?)
    requires FinishesStarts(rows, n, o)
    ensures FinishesStarts(rows, n + 1, next) && (next.activeOperation.Some? ==> next.activeStep.Some?)
  {
    forall i | 0 <= i < n + 1 && rows[i].OperationStart? && !FinishedAfter(rows, i, n + 1)
      ensures next.activeStep == Some(rows[i].unit.step) && next.activeOperation == Some(rows[i].unit.operation)
    {
      if i < n {
        assert !FinishedAfter(rows, i, n);
        assert rows[n].OperationComplete? ==> rows[n].unit != rows[i].unit;
      }
    }
  }

  lemma DifferentSteps(j: nat, k: nat)
    requires j < |INSTALL_STEPS| && k < |INSTALL_STEPS| && INSTALL_STEPS[j] == INSTALL_STEPS[k]
    ensures j == k
  {
  }

  lemma CountStep(rows: seq<Event>, n: nat, o: Order, next: Order)
    requires n < |rows| && AdvanceOrder(o, rows[n]) == Some(next)
    requires !RollbackEvent(rows[n]) && !o.rollbackStarted && CountsSteps(rows, n, o)
    ensures CountsSteps(rows, n + 1, next)
  {
    forall k | 0 <= k < |INSTALL_STEPS|
      ensures StepCompleted(rows, n + 1, INSTALL_STEPS[k])
         <==> k < next.stepIndex || (k == next.stepIndex && next.activeStep.None?)
    {
      assert StepCompleted(rows, n + 1, INSTALL_STEPS[k]) <==>
             StepCompleted(rows, n, INSTALL_STEPS[k]) || (rows[n].StepComplete? && rows[n].step == INSTALL_STEPS[k]);
      if rows[n].StepComplete? && rows[n].step == INSTALL_STEPS[k] {
        DifferentSteps(k, o.stepIndex);
      }
    }
  }

  ghost predicate Follows(rows: seq<Event>, n: nat, o: Order)
    requires n <= |rows|
  {
    && !o.rollbackStarted && (o.activeOperation.Some? ==> o.activeStep.Some?)
    && CoversActiveStep(rows, n, o) && FinishesStarts(rows, n, o) && CountsSteps(rows, n, o)
  }

  lemma {:induction false} OrderFollows(rows: seq<Event>, n: nat)
    requires n <= |rows| && OrderTo(rows, n).Some? && NoRollbackBefore(rows, n)
    ensures Follows(rows, n, OrderTo(rows, n).value)
  {
    if n > 0 {
      OrderFollows(rows, n - 1);
      var o, next := OrderTo(rows, n - 1).value, OrderTo(rows, n).value;
      CoverageStep(rows, n - 1, o, next);
      FinishStep(rows, n - 1, o, next);
      CountStep(rows, n - 1, o, next);
    }
  }

  // ---------------------------------------------------------------- accepted journals

  lemma AcceptedPrefix(rows: seq<Event>, n: nat)
    requires OrderValid(rows) && OperationMode(rows) && n <= |rows|
    ensures OrderTo(rows, n).Some?
  {
    if OrderTo(rows, n).None? {
      OrderStaysRejected(rows, n, |rows|);
    }
  }

  lemma StartedIsRan(rows: seq<Event>, n: nat, o: Order, step: StepId)
    requires n <= |rows| && FinishesStarts(rows, n, o) && o.activeOperation.None?
    ensures forall b :: Started(rows, n, step, b) ==> Ran(rows, n, step, b)
  {
    forall b: nat {:trigger Ran(rows, n, step, b)} | Started(rows, n, step, b)
      ensures Ran(rows, n, step, b)
    {
      var i :| 0 <= i < n && rows[i].OperationStart? && rows[i].unit.step == step && rows[i].unit.operation.base == b;
      assert FinishedAfter(rows, i, n);
    }
  }

  /** A completed step of an accepted journal ran every base operation of its roster exactly when it
      started the first one: before a rollback row only the first can be skipped.  A journal without
      operation rows ran none. */
  lemma AcceptedStepCompleteIff(rows: seq<Event>, n: nat, step: StepId)
    requires OrderValid(rows) && n < |rows| && rows[n].StepComplete? && rows[n].step == step
    ensures OperationMode(rows) && NoRollbackBefore(rows, n) ==>
              (RanAll(rows, n, step) <==> Started(rows, n, step, 0))
    ensures !OperationMode(rows) ==> !RanAll(rows, n, step)
  {
    if OperationMode(rows) && NoRollbackBefore(rows, n) {
      AcceptedPrefix(rows, n);
      AcceptedPrefix(rows, n + 1);
      OrderFollows(rows, n);
      StartedIsRan(rows, n, OrderTo(rows, n).value, step);
      assert Ran(rows, n, step, 0) ==> Started(rows, n, step, 0);
      assert forall b :: 1 <= b < OperationCount(step) ==> Started(rows, n, step, b);
    } else if !OperationMode(rows) {
      assert !Ran(rows, n, step, 0);
    }
  }

  /** Before a rollback row, an accepted journal completed all steps exactly when it completed the last
      one, which is also what the order state shows there. */
  lemma AcceptedPlanCompleteIff(rows: seq<Event>, n: nat)
    requires OrderValid(rows) && OperationMode(rows) && n < |rows| && rows[n].PlanComplete?
    requires NoRollbackBefore(rows, n)
    ensures AllStepsCompleted(rows, n) <==> StepCompleted(rows, n, RegisterAuthority)
    ensures OrderTo(rows, n).Some?
    ensures AllStepsCompleted(rows, n)
       <==> OrderTo(rows, n).value.stepIndex == |INSTALL_STEPS| - 1 && OrderTo(rows, n).value.activeStep.None?
  {
    AcceptedPrefix(rows, n);
    OrderFollows(rows, n);
    assert INSTALL_STEPS[|INSTALL_STEPS| - 1] == RegisterAuthority;
  }

  /** The check ends at the first rollback row: whatever follows it is let through. */
  lemma CheckEndsAtRollback(rows: seq<Event>, k: nat)
    requires OperationMode(rows) && k < |rows| && RollbackEvent(rows[k])
    ensures OrderValid(rows) <==> OrderTo(rows, k).Some?
  {
    if OrderTo(rows, k).None? {
      OrderStaysRejected(rows, k, |rows|);
    } else {
      AnythingAfterRollback(rows, k + 1, |rows|);
    }
  }

  lemma {:induction false} AnythingAfterRollback(rows: seq<Event>, k: nat, n: nat)
    requires k <= n <= |rows| && OrderTo(rows, k).Some? && OrderTo(rows, k).value.rollbackStarted
    ensures OrderTo(rows, n).Some? && OrderTo(rows, n).value.rollbackStarted
  {
    if k < n {
      AnythingAfterRollback(rows, k, n - 1);
    }
  }

  // ---------------------------------------------------------------- journals that are let through

  function StartOf(step: StepId, base: nat): Event {
    OperationStart(Unit(step, Operation(base, "")))
  }

  function EndOf(step: StepId, base: nat): Event {
    OperationComplete(Unit(step, Operation(base, "")), None)
  }

  /** The rows of the first step without its first operation. */
  function SkippingRow(i: nat): Event {
    if i == 0 then StepStart(ValidateInputs)
    else if i > 10 then StepComplete(ValidateInputs, None)
    else if i % 2 == 1 then StartOf(ValidateInputs, (i + 1) / 2)
    else EndOf(ValidateInputs, i / 2)
  }

  function SkippingRows(): seq<Event> {
    seq(12, i requires 0 <= i < 12 => SkippingRow(i))
  }

  /** The order state in the first step with `k` as its last finished operation. */
  ghost predicate Skipped(o: Order, k: nat) {
    && o.activeStep == Some(ValidateInputs) && o.operationIndex == k && o.activeOperation.None? && !o.rollbackStarted
    && forall operation :: operation in o.seen ==> operation.base <= k
  }

  lemma SkippingPair(o: Order, k: nat)
    requires Skipped(o, k) && k < 5
    ensures AdvanceOrder(o, StartOf(ValidateInputs, k + 1)).Some?
    ensures var next := AdvanceOrder(AdvanceOrder(o, StartOf(ValidateInputs, k + 1)).value, EndOf(ValidateInputs, k + 1));
            next.Some? && Skipped(next.value, k + 1)
  {
  }

  lemma {:induction false} SkippingOrder(rows: seq<Event>, k: nat)
    requires rows == SkippingRows() && k <= 5
    ensures OrderTo(rows, 2 * k + 1).Some? && Skipped(OrderTo(rows, 2 * k + 1).value, k)
  {
    if k == 0 {
      assert OrderTo(rows, 0) == Some(ORDER_START) && rows[0] == SkippingRow(0);
    } else {
      SkippingOrder(rows, k - 1);
      assert rows[2 * k - 1] == StartOf(ValidateInputs, k) && rows[2 * k] == EndOf(ValidateInputs, k);
      SkippingPair(OrderTo(rows, 2 * k - 1).value, k - 1);
    }
  }

  /** An accepted journal whose completed step skipped its first operation. */
  lemma SkippedFirstOperationAccepted()
    ensures var rows := SkippingRows();
            && OrderValid(rows) && OperationMode(rows) && NoRollbackBefore(rows, 11) && rows[11].StepComplete?
            && !RanAll(rows, 11, ValidateInputs)
  {
    var rows := SkippingRows();
    SkippingAccepted(rows);
    SkippingMisses(rows);
  }

  lemma SkippingAccepted(rows: seq<Event>)
    requires rows == SkippingRows()
    ensures OrderTo(rows, |rows|).Some?
  {
    SkippingOrder(rows, 5);
    assert rows[11] == StepComplete(ValidateInputs, None);
    assert OrderTo(rows, 12) == AdvanceOrder(OrderTo(rows, 11).value, rows[11]);
  }

  lemma SkippingMisses(rows: seq<Event>)
    requires rows == SkippingRows()
    ensures OperationMode(rows) && NoRollbackBefore(rows, 11) && rows[11].StepComplete? && !RanAll(rows, 11, ValidateInputs)
  {
    assert rows[1] == StartOf(ValidateInputs, 1) && rows[11] == StepComplete(ValidateInputs, None);
    assert !Ran(rows, 11, ValidateInputs, 0);
  }

  /** Behind a rollback row a step may be completed that ran one operation of six. */
  lemma CompletedAfterRollbackAccepted()
    ensures var rows := [StepStart(ValidateInputs), StartOf(ValidateInputs, 0), RollbackStart(WithdrawAuthority),
                         StepComplete(ValidateInputs, None)];
            && OrderValid(rows) && OperationMode(rows) && Started(rows, 3, ValidateInputs, 0)
            && !RanAll(rows, 3, ValidateInputs)
  {
    var rows := [StepStart(ValidateInputs), StartOf(ValidateInputs, 0), RollbackStart(WithdrawAuthority),
                 StepComplete(ValidateInputs, None)];
    assert OrderTo(rows, 1).Some?;
    assert OrderTo(rows, 2).Some?;
    CheckEndsAtRollback(rows, 2);
    assert rows[1].OperationStart?;
    assert !Ran(rows, 3, ValidateInputs, 1);
  }

  /** A plan may be declared complete in the middle of its first step. */
  lemma EarlyPlanCompleteAccepted()
    ensures var rows := [StepStart(ValidateInputs), StartOf(ValidateInputs, 0), PlanComplete];
            && OrderValid(rows) && OperationMode(rows) && NoRollbackBefore(rows, 2) && !AllStepsCompleted(rows, 2)
  {
    var rows := [StepStart(ValidateInputs), StartOf(ValidateInputs, 0), PlanComplete];
    assert OrderTo(rows, 1).Some?;
    assert OrderTo(rows, 2).Some?;
    assert OrderTo(rows, 3).Some?;
    assert rows[1].OperationStart?;
    assert !StepCompleted(rows, 2, INSTALL_STEPS[0]);
  }
}
