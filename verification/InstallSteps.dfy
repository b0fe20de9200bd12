/** Why each event the installer writes keeps its transaction sound. */
module InstallSteps {
  import opened Wrappers
  import opened InstallEvents
  import opened InstallJournal
  import opened InstallInvariant

  lemma StepStartSound(config: Config, t: nat, o: Order, v: View, last: Event,
                       host: set<(nat, Unit)>, ran: set<(nat, RollbackId)>)
    requires Sound(config, t, o, v, last, host, ran)
    requires !o.rollbackStarted && o.activeStep.None? && o.stepIndex + 1 < |INSTALL_STEPS|
    ensures var event := StepStart(INSTALL_STEPS[o.stepIndex + 1]);
            && AdvanceOrder(o, event).Some?
            && Sound(config, t, AdvanceOrder(o, event).value, AdvanceView(v, event), event, host, ran)
  {
    StepIndexOf(o.stepIndex + 1);
  }

  lemma OperationStartSound(config: Config, t: nat, o: Order, v: View, last: Event, unit: Unit,
                            host: set<(nat, Unit)>, ran: set<(nat, RollbackId)>)
    requires Sound(config, t, o, v, last, host, ran)
    requires !o.rollbackStarted && o.activeStep == Some(unit.step) && o.activeOperation.None?
    requires o.operationIndex <= unit.operation.base <= o.operationIndex + 1
    requires unit.operation.base < OperationCount(unit.step) && unit.operation !in o.seen
    requires Planned(config, t, unit) && Unrolled(t, ran)
    ensures unit !in v.starts
    ensures var event := OperationStart(unit);
            && AdvanceOrder(o, event).Some?
            && Sound(config, t, AdvanceOrder(o, event).value, AdvanceView(v, event), event, host, ran)
  {
    StepIndexOf(o.stepIndex);
    var v', o' := AdvanceView(v, OperationStart(unit)), AdvanceOrder(o, OperationStart(unit)).value;
    assert forall u :: u in v'.starts <==> u in v.starts || u == unit;
    assert forall u :: InFlight(v, u) ==> false;
    assert forall i, j :: 0 <= i < j < |v'.starts| ==> v'.starts[i] != v'.starts[j];
    assert InFlight(v', unit);
    assert StartsMatchOrder(o', v');
  }

  lemma OperationCompleteSound(config: Config, t: nat, o: Order, v: View, last: Event, unit: Unit,
                               host: set<(nat, Unit)>, ran: set<(nat, RollbackId)>)
    requires Sound(config, t, o, v, last, host, ran)
    requires InFlight(v, unit)
    ensures var event := OperationComplete(unit, if (t, unit) in host then Some(OperationReceipt(unit)) else None);
            && AdvanceOrder(o, event).Some?
            && Sound(config, t, AdvanceOrder(o, event).value, AdvanceView(v, event), event, host, ran)
  {
    var event := OperationComplete(unit, if (t, unit) in host then Some(OperationReceipt(unit)) else None);
    var v', o' := AdvanceView(v, event), AdvanceOrder(o, event).value;
    assert forall u :: InFlight(v', u) ==> InFlight(v, u) && u != unit;
    assert StartsMatchOrder(o', v');
  }

  lemma StepCompleteSound(config: Config, t: nat, o: Order, v: View, last: Event, step: StepId, receipt: Option<Receipt>,
                          host: set<(nat, Unit)>, ran: set<(nat, RollbackId)>)
    requires Sound(config, t, o, v, last, host, ran)
    requires !o.rollbackStarted && o.activeStep == Some(step) && o.activeOperation.None?
    requires o.operationIndex == OperationCount(step) - 1
    requires forall u :: Planned(config, t, u) && u.step == step ==> u in v.done
    ensures var event := StepComplete(step, receipt);
            && AdvanceOrder(o, event).Some?
            && Sound(config, t, AdvanceOrder(o, event).value, AdvanceView(v, event), event, host, ran)
  {
    assert forall u :: InFlight(AdvanceView(v, StepComplete(step, receipt)), u) <==> InFlight(v, u);
  }

  lemma PlanCompleteSound(config: Config, t: nat, o: Order, v: View, last: Event,
                          host: set<(nat, Unit)>, ran: set<(nat, RollbackId)>)
    requires Sound(config, t, o, v, last, host, ran) && Applied(config, t, v)
    ensures AdvanceOrder(o, PlanComplete).Some?
    ensures Sound(config, t, AdvanceOrder(o, PlanComplete).value, AdvanceView(v, PlanComplete), PlanComplete, host, ran)
  {
  }

  lemma RollbackKeepsStarts(o: Order, v: View, event: Event)
    requires StartsMatchOrder(o, v) && RollbackEvent(event) && o.activeOperation.None?
    ensures AdvanceOrder(o, event).Some? && StartsMatchOrder(AdvanceOrder(o, event).value, AdvanceView(v, event))
    ensures NothingInFlight(v) && NothingInFlight(AdvanceView(v, event))
  {
    assert forall u :: !InFlight(v, u);
    assert forall u :: InFlight(AdvanceView(v, event), u) <==> InFlight(v, u);
  }

  lemma RollbackKeepsReceipts(v: View, event: Event)
    requires RollbackEvent(event)
    ensures PossiblyEffected(AdvanceView(v, event)) == PossiblyEffected(v)
    ensures forall a :: Affected(AdvanceView(v, event), a) <==> Affected(v, a)
  {
  }

  /** Any rollback or recovery event may follow once nothing is in flight; a completed action must
      have run and must be the first completion, and a completed recovery must be settled. */
  lemma RollbackEventSound(config: Config, t: nat, o: Order, v: View, last: Event, event: Event,
                           host: set<(nat, Unit)>, ran: set<(nat, RollbackId)>)
    requires Sound(config, t, o, v, last, host, ran)
    requires RollbackEvent(event) && o.activeOperation.None?
    requires event.RollbackComplete? ==> event.action !in v.rolledBack && (t, event.action) in ran
    requires event.RecoveryComplete? ==> Settled(t, v, ran)
    ensures AdvanceOrder(o, event).Some?
    ensures Sound(config, t, AdvanceOrder(o, event).value, AdvanceView(v, event), event, host, ran)
  {
    RollbackKeepsStarts(o, v, event);
    RollbackKeepsReceipts(v, event);
  }

  // ---------------------------------------------------------------- rollback bookkeeping

  /** The actions still owed by a transaction: called for by a receipt, not yet rolled back. */
  ghost function Unfinished(v: View): set<RollbackId> {
    set action: RollbackId | Affected(v, action) && action !in v.rolledBack
  }

  ghost predicate AllRollbackEvents(rows: seq<Event>) {
    forall i :: 0 <= i < |rows| ==> RollbackEvent(rows[i])
  }

  /** Recovery passes only shrink the owed actions: rollback rows leave the receipts alone. */
  lemma {:induction false} UnfinishedShrinks(rows: seq<Event>, more: seq<Event>, n: nat)
    requires n <= |more| && AllRollbackEvents(more)
    ensures PossiblyEffected(ViewTo(rows + more, |rows| + n)) == PossiblyEffected(ViewOf(rows))
    ensures Unfinished(ViewTo(rows + more, |rows| + n)) <= Unfinished(ViewOf(rows))
    ensures ViewOf(rows).rolledBack <= ViewTo(rows + more, |rows| + n).rolledBack
  {
    if n == 0 {
      ViewPrefix(rows, more, |rows|);
    } else {
      UnfinishedShrinks(rows, more, n - 1);
      var v, event := ViewTo(rows + more, |rows| + n - 1), more[n - 1];
      assert (rows + more)[|rows| + n - 1] == event;
      assert PossiblyEffected(AdvanceView(v, event)) == PossiblyEffected(v);
    }
  }

  lemma {:induction false} ViewPrefix(rows: seq<Event>, more: seq<Event>, n: nat)
    requires n <= |rows|
    ensures ViewTo(rows + more, n) == ViewTo(rows, n)
  {
    if n > 0 {
      ViewPrefix(rows, more, n - 1);
      assert (rows + more)[n - 1] == rows[n - 1];
    }
  }
}
