/** An installation that owns one effect and whose rollback fails for ever, as a journal. */
module FailingInstall {
  import opened Wrappers
  import opened InstallEvents
  import opened InstallJournal
  import opened InstallInvariant
  import opened InstallSteps
  import opened InstallTransaction

  const EMPTY: Binding := Binding("", "", "")

  /** The first operation behind the validated inputs creates something. */
  const OWNED: Unit := Unit(CreateIdentityBroker, Operation(0, ""))

  /** One unit for each base operation. */
  function FailingConfig(): Config {
    Config((t, step, base) => [""], (t, unit) => unit == OWNED)
  }

  /** The inputs are validated, one unit of the next step is applied, and then every recovery starts the one
      action that is owed, fails in it, and concludes. */
  function FailingEvent(i: nat): Event {
    if i == 0 then TransactionStart
    else if i == 1 then StepStart(ValidateInputs)
    else if i < 14 then
      var unit := Unit(ValidateInputs, Operation((i - 2) / 2, ""));
      if i % 2 == 0 then OperationStart(unit) else OperationComplete(unit, None)
    else if i == 14 then StepComplete(ValidateInputs, None)
    else if i == 15 then StepStart(CreateIdentityBroker)
    else if i == 16 then OperationStart(OWNED)
    else if i == 17 then OperationComplete(OWNED, Some(OperationReceipt(OWNED)))
    else if i % 3 == 0 then RollbackStart(RemoveCreatedIdentities)
    else if i % 3 == 1 then RollbackFailed(RemoveCreatedIdentities)
    else RecoveryFailed
  }

  function FailingPayload(i: nat): Payload {
    Payload(1, EMPTY, FailingEvent(i))
  }

  function FailingRun(n: nat): (payloads: seq<Payload>)
    ensures |payloads| == n
  {
    if n == 0 then [] else FailingRun(n - 1) + [FailingPayload(n - 1)]
  }

  lemma {:induction false} FailingRunAt(n: nat, i: nat)
    requires i < n
    ensures FailingRun(n)[i] == FailingPayload(i)
  {
    if i < n - 1 {
      FailingRunAt(n - 1, i);
    }
  }

  /** The rows of its one transaction after `n` records. */
  function FailingRows(n: nat): (rows: seq<Event>)
    requires n > 0
    ensures |rows| == n - 1
  {
    if n == 1 then [] else FailingRows(n - 1) + [FailingEvent(n - 1)]
  }

  ghost function FailingState(n: nat): Durable {
    Durable(FailingRun(n), if n > 17 then {(1, OWNED)} else {}, {})
  }

  function FailingSegment(n: nat): Segment
    requires n > 0
  {
    Segment(EMPTY, FailingRows(n))
  }

  lemma NextState(n: nat)
    requires n > 0 && n != 17
    ensures FailingState(n + 1) == After(FailingState(n), 1, FailingSegment(n), FailingEvent(n))
    ensures FailingSegment(n + 1) == Longer(FailingSegment(n), FailingEvent(n))
  {
  }

  lemma FailingStart()
    ensures BetweenSteps(FailingConfig(), FailingState(1), 1, FailingSegment(1), 0)
  {
    var nothing := Durable([], {}, {});
    assert SegmentsTo(nothing.journal, 0) == Ok([]);
    StartTransaction(FailingConfig(), nothing, EMPTY);
    assert FailingState(1) == Durable([FailingPayload(0)], {}, {});
    FreshTransaction(FailingConfig(), FailingState(1), 1, FailingSegment(1));
  }

  lemma FailingFirst(n: nat)
    requires n == 1
    ensures InStep(FailingConfig(), FailingState(n + 1), 1, FailingSegment(n + 1), 0, 0, 0)
  {
    FailingStart();
    NextState(n);
    InputsStart(FailingConfig(), FailingState(n), FailingSegment(n), FailingEvent(n));
  }

  lemma InputsStart(config: Config, d: Durable, segment: Segment, started: Event)
    requires BetweenSteps(config, d, 1, segment, 0) && started == StepStart(ValidateInputs)
    ensures InStep(config, After(d, 1, segment, started), 1, Longer(segment, started), 0, 0, 0)
  {
    StepMayStart(config, d, 1, segment, 0);
  }

  /** `b` operations of the first step are done. */
  lemma {:induction false} FailingInputs(b: nat)
    requires b <= 6
    ensures InStep(FailingConfig(), FailingState(2 + 2 * b), 1, FailingSegment(2 + 2 * b), 0, b, 0)
  {
    if b == 0 {
      FailingFirst(1 + 2 * b);
    } else {
      FailingInputs(b - 1);
      FailingInput(b - 1);
    }
  }

  /** One unit without an effect, started and completed, is its whole base operation. */
  lemma IdleUnit(config: Config, d: Durable, segment: Segment, i: nat, b: nat, begin: Event, end: Event)
    requires Valid(config) && i < |INSTALL_STEPS| && InStep(config, d, 1, segment, i, b, 0)
    requires b < OperationCount(INSTALL_STEPS[i]) && |config.units(1, INSTALL_STEPS[i], b)| == 1
    requires var unit := UnitAt(config, 1, i, b, 0);
      && !config.effects(1, unit) && (1, unit) !in d.host
      && begin == OperationStart(unit) && end == OperationComplete(unit, None)
    ensures InStep(config, After(After(d, 1, segment, begin), 1, Longer(segment, begin), end), 1,
                   Longer(Longer(segment, begin), end), i, b + 1, 0)
  {
    var started, longer := After(d, 1, segment, begin), Longer(segment, begin);
    UnitMayStart(config, d, 1, segment, i, b, 0);
    UnitMayComplete(config, started, started, 1, longer, i, b, 0);
    NextBase(config, After(started, 1, longer, end), 1, Longer(longer, end), i, b);
  }

  lemma FailingInput(b: nat)
    requires b < 6
    requires InStep(FailingConfig(), FailingState(2 + 2 * b), 1, FailingSegment(2 + 2 * b), 0, b, 0)
    ensures InStep(FailingConfig(), FailingState(4 + 2 * b), 1, FailingSegment(4 + 2 * b), 0, b + 1, 0)
  {
    var n := 2 + 2 * b;
    NextState(n);
    NextState(n + 1);
    FailingInputEvents(b);
    IdleUnit(FailingConfig(), FailingState(n), FailingSegment(n), 0, b, FailingEvent(n), FailingEvent(n + 1));
  }

  lemma FailingInputEvents(b: nat)
    requires b < 6
    ensures var unit := UnitAt(FailingConfig(), 1, 0, b, 0);
      && FailingEvent(2 + 2 * b) == OperationStart(unit) && FailingEvent(3 + 2 * b) == OperationComplete(unit, None)
      && !FailingConfig().effects(1, unit)
  {
  }

  lemma InputsComplete(config: Config, d: Durable, segment: Segment, completed: Event)
    requires InStep(config, d, 1, segment, 0, OperationCount(ValidateInputs), 0)
    requires completed == StepComplete(ValidateInputs, None)
    ensures BetweenSteps(config, After(d, 1, segment, completed), 1, Longer(segment, completed), 1)
  {
    StepMayComplete(config, d, 1, segment, 0);
  }

  lemma IdentityStarts(config: Config, d: Durable, segment: Segment, started: Event)
    requires BetweenSteps(config, d, 1, segment, 1) && started == StepStart(CreateIdentityBroker)
    ensures InStep(config, After(d, 1, segment, started), 1, Longer(segment, started), 1, 0, 0)
  {
    StepMayStart(config, d, 1, segment, 1);
  }

  lemma OwnedStarts(config: Config, d: Durable, segment: Segment, begin: Event)
    requires Valid(config) && InStep(config, d, 1, segment, 1, 0, 0)
    requires config.units(1, CreateIdentityBroker, 0) == [""] && begin == OperationStart(OWNED)
    ensures UnitStarted(config, After(d, 1, segment, begin), 1, Longer(segment, begin), 1, 0, 0)
  {
    assert UnitAt(config, 1, 1, 0, 0) == OWNED;
    UnitMayStart(config, d, 1, segment, 1, 0, 0);
  }

  lemma FailingSteps(n: nat)
    requires n == 14 && InStep(FailingConfig(), FailingState(n), 1, FailingSegment(n), 0, OperationCount(ValidateInputs), 0)
    ensures UnitStarted(FailingConfig(), FailingState(n + 3), 1, FailingSegment(n + 3), 1, 0, 0)
  {
    NextState(n);
    NextState(n + 1);
    NextState(n + 2);
    InputsComplete(FailingConfig(), FailingState(n), FailingSegment(n), FailingEvent(n));
    IdentityStarts(FailingConfig(), FailingState(n + 1), FailingSegment(n + 1), FailingEvent(n + 1));
    OwnedStarts(FailingConfig(), FailingState(n + 2), FailingSegment(n + 2), FailingEvent(n + 2));
  }

  /** The owned unit takes effect, and its receipt is recorded. */
  lemma OwnedUnit(config: Config, d: Durable, segment: Segment, end: Event)
    requires UnitStarted(config, d, 1, segment, 1, 0, 0) && UnitAt(config, 1, 1, 0, 0) == OWNED
    requires config.effects(1, OWNED) && end == OperationComplete(OWNED, Some(OperationReceipt(OWNED)))
    ensures Quiet(config, After(d.(host := d.host + {(1, OWNED)}), 1, segment, end), 1, Longer(segment, end))
    ensures OWNED.step in PossiblyEffected(ViewOf(Longer(segment, end).rows))
  {
    var applied := d.(host := d.host + {(1, OWNED)});
    EffectOfInFlight(config, d, 1, segment, OWNED);
    UnitMayComplete(config, d, applied, 1, segment, 1, 0, 0);
    ViewExtends(segment.rows, end);
    assert OWNED in ViewOf(Longer(segment, end).rows).done && ViewOf(Longer(segment, end).rows).done[OWNED].Some?;
  }

  lemma FailingOwned(n: nat, b: nat)
    requires n == 17 && b == 6
    ensures Quiet(FailingConfig(), FailingState(n + 1), 1, FailingSegment(n + 1))
    ensures OWNED.step in PossiblyEffected(ViewOf(FailingRows(n + 1)))
  {
    FailingInputs(b);
    assert 2 + 2 * b == n - 3;
    FailingSteps(n - 3);
    OwnedUnit(FailingConfig(), FailingState(n), FailingSegment(n), FailingEvent(n));
    OwnedState(n);
  }

  lemma OwnedState(n: nat)
    requires n == 17
    ensures UnitAt(FailingConfig(), 1, 1, 0, 0) == OWNED
    ensures FailingState(n + 1)
         == After(FailingState(n).(host := FailingState(n).host + {(1, OWNED)}), 1, FailingSegment(n), FailingEvent(n))
    ensures FailingSegment(n + 1) == Longer(FailingSegment(n), FailingEvent(n))
  {
  }

  lemma FailingNotRolledBack(n: nat)
    requires n == 17
    ensures ViewOf(FailingRows(n + 1)).rolledBack == {}
  {
    FailingRowsQuiet(n);
    NothingRolledBack(FailingRows(n + 1), |FailingRows(n + 1)|);
  }

  lemma {:induction false} FailingRowsQuiet(n: nat)
    requires n <= 17
    ensures NoRollback(FailingRows(n + 1))
  {
    if n > 0 {
      FailingRowsQuiet(n - 1);
    }
  }

  /** However often the recovery fails, each of its rows is one the installer may write there. */
  lemma {:induction false} FailingPasses(n: nat)
    requires n >= 18
    ensures Quiet(FailingConfig(), FailingState(n), 1, FailingSegment(n))
    ensures ViewOf(FailingRows(n)).rolledBack == {} && OWNED.step in PossiblyEffected(ViewOf(FailingRows(n)))
  {
    if n == 18 {
      FailingOwned(n - 1, 6);
      FailingNotRolledBack(n - 1);
    } else {
      FailingPasses(n - 1);
      NextState(n - 1);
      RollbackRowKeepsQuiet(FailingConfig(), FailingState(n - 1), 1, FailingSegment(n - 1), FailingEvent(n - 1));
      ViewExtends(FailingRows(n - 1), FailingEvent(n - 1));
    }
  }

  /** And each pass is the rollback of a recovery: the action it starts is owed and not yet rolled back. */
  lemma FailingPassIsRollback(k: nat)
    ensures RolledBackFrom(FailingRows(18 + 3 * k), FailingRows(21 + 3 * k))
  {
    FailingView(18 + 3 * k);
    FailingPassRows(18 + 3 * k);
    OneFailedPass(FailingRows(18 + 3 * k), FailingRows(21 + 3 * k));
  }

  lemma FailingView(n: nat)
    requires n >= 18
    ensures ViewOf(FailingRows(n)).rolledBack == {} && OWNED.step in PossiblyEffected(ViewOf(FailingRows(n)))
  {
    FailingPasses(n);
  }

  lemma FailingPassRows(n: nat)
    requires n >= 18 && n % 3 == 0
    ensures FailingRows(n + 3)
         == FailingRows(n) + [RollbackStart(RemoveCreatedIdentities)] + [RollbackFailed(RemoveCreatedIdentities)]
            + [RecoveryFailed]
  {
    assert FailingRows(n + 1) == FailingRows(n) + [FailingEvent(n)];
    assert FailingRows(n + 2) == FailingRows(n + 1) + [FailingEvent(n + 1)];
  }

  lemma OneFailedPass(before: seq<Event>, now: seq<Event>)
    requires ViewOf(before).rolledBack == {} && OWNED.step in PossiblyEffected(ViewOf(before))
    requires now == before + [RollbackStart(RemoveCreatedIdentities)] + [RollbackFailed(RemoveCreatedIdentities)]
                    + [RecoveryFailed]
    ensures RolledBackFrom(before, now)
  {
    var passed := before + [RollbackStart(RemoveCreatedIdentities)] + [RollbackFailed(RemoveCreatedIdentities)];
    assert OWNED.step in Sources(RemoveCreatedIdentities) * PossiblyEffected(ViewOf(before));
    assert TableIndex(RemoveCreatedIdentities) < |ROLLBACK_TABLE|;
    assert PassBehind(before, passed);
    PassThenConclusion(before, passed, now);
    CompletionThenPass(before, before, now);
  }
}
