/** The transactional installer over the bytes of its journal: execution, in-process failure handling,
    recovery and rollback, with a stop or an exception possible at every host call, at every journal
    append and between any two bytes of one. */
module InstallTransaction {
  import opened Wrappers
  import opened Bytes
  import Device
  import opened FramedLog
  import opened InstallEvents
  import opened InstallJournal
  import opened InstallInvariant
  import opened InstallSteps
  import opened InstallStorage
  import TransitionJournal

  /** How the environment answers a call: it worked, it raised without effect, or it raised after its
      effect. */
  datatype Answer = Done | Lost | Late

  /** The answer to one call and, should the call be a journal append, the byte counts the device reports
      for its writes.  A list of fates that ends is a process that stopped before that call; a list of
      counts that ends is one that stopped inside its write loop. */
  datatype Fate = Fate(answer: Answer, counts: seq<nat>)

  /** Why the installer's own journal turned a call down: it has outgrown its readers, or it has no room
      for a payload. */
  datatype Refusal = Unreadable | Roomless(payload: Payload)

  /** One run: the binding it was started with, the fates to come, and the refusals it has met. */
  datatype Env = Env(own: Binding, fates: seq<Fate>, refusals: seq<Refusal>)

  datatype Signal = Went | Raised | Halted

  /** An environment that never makes a call fail; it may still stop the process. */
  predicate Smooth(fates: seq<Fate>) {
    forall i :: 0 <= i < |fates| ==> fates[i].answer == Done && Finishes(fates[i].counts)
  }

  /** Smooth fates enough for so many calls. */
  predicate Suffices(fates: seq<Fate>, calls: nat) {
    Smooth(fates) && |fates| >= calls
  }

  predicate Passed(before: Env, after: Env) {
    && after.own == before.own && before.refusals <= after.refusals
    && (Smooth(before.fates) ==> Smooth(after.fates))
  }

  /** Neither the environment nor the caps of the journal got in the way. */
  predicate Undisturbed(before: Env, after: Env) {
    Smooth(before.fates) && after.refusals == before.refusals
  }

  /** What some calls did with the environment: they stop only when no fate is left, smooth fates are used
      up by at most `cost` calls, and undisturbed they raise only where the program itself does. */
  predicate Calls(before: Env, after: Env, signal: Signal, cost: nat, calm: bool) {
    && Passed(before, after)
    && (signal.Halted? ==> after.fates == [])
    && (Smooth(before.fates) ==> |before.fates| <= |after.fates| + cost && (signal.Halted? ==> |before.fates| < cost))
    && (Undisturbed(before, after) && calm ==> !signal.Raised?)
  }

  datatype Failure =
    | Ambiguous(action: RollbackId)
    | JournalStart(action: RollbackId)
    | Backend(action: RollbackId)
    | JournalOutcome(action: RollbackId)
    | TerminalJournal

  datatype Outcome =
    | Complete
    | AlreadyComplete
    | CompletedPlanForbidden
    | Clean
    | RolledBack
    | RecoveryRequired
    | RecoveryFailures(failures: seq<Failure>)
    | TransactionFailed(failures: seq<Failure>)
    | BindingRefused
    | JournalRaised
    | Stopped

  lemma TableIndexOf(i: nat)
    requires i < |ROLLBACK_TABLE|
    ensures TableIndex(ROLLBACK_TABLE[i]) == i
  {
  }

  /** No base operation has an empty unit roster. */
  ghost predicate Staffed(config: Config) {
    forall t, s, b: nat :: b < OperationCount(s) ==> config.units(t, s, b) != []
  }

  // ---------------------------------------------------------------- what the journal may refuse

  /** The events the installer writes. */
  ghost predicate Writes(config: Config, transaction: nat, event: Event) {
    match event
    case OperationStart(unit) => Planned(config, transaction, unit)
    case OperationComplete(unit, receipt) =>
      Planned(config, transaction, unit) && receipt in {None, Some(OperationReceipt(unit))}
    case StepComplete(_, _) => RightReceipt(event)
    case _ => true
  }

  ghost function Bindings(journal: seq<Payload>): set<Binding> {
    set i | 0 <= i < |journal| :: journal[i].binding
  }

  /** A payload that a run with this binding may have to append behind `n` records. */
  ghost predicate Writable(config: Config, journal: seq<Payload>, own: Binding, n: nat, payload: Payload) {
    && 1 <= payload.transaction <= n + 1 && Writes(config, payload.transaction, payload.event)
    && (payload.binding == own || payload.binding in Bindings(journal))
  }

  ghost predicate Lacking(config: Config, codec: TransitionJournal.Codec, journal: seq<Payload>, own: Binding, n: nat,
                          payload: Payload)
  {
    && n <= |journal| && Writable(config, journal, own, n, payload)
    && !TransitionJournal.Room(codec, journal[..n], payload)
  }

  /** The journal is over the record cap, or somewhere along it the caps left no room for a payload of the
      installer. */
  ghost predicate Crowded(config: Config, codec: TransitionJournal.Codec, journal: seq<Payload>, own: Binding) {
    Locked(journal) || exists n: nat, payload :: Lacking(config, codec, journal, own, n, payload)
  }

  ghost predicate Explained(config: Config, codec: TransitionJournal.Codec, journal: seq<Payload>, own: Binding,
                            refusal: Refusal)
  {
    match refusal
    case Unreadable => Locked(journal)
    case Roomless(payload) => exists n: nat :: Lacking(config, codec, journal, own, n, payload)
  }

  ghost predicate AllExplained(config: Config, codec: TransitionJournal.Codec, journal: seq<Payload>, own: Binding,
                               refusals: seq<Refusal>)
  {
    forall refusal :: refusal in refusals ==> Explained(config, codec, journal, own, refusal)
  }

  lemma LackingGrows(config: Config, codec: TransitionJournal.Codec, journal: seq<Payload>, more: seq<Payload>,
                     own: Binding, n: nat, payload: Payload)
    requires journal <= more && Lacking(config, codec, journal, own, n, payload)
    ensures Lacking(config, codec, more, own, n, payload)
  {
    assert more[..n] == journal[..n];
  }

  lemma ExplainedGrows(config: Config, codec: TransitionJournal.Codec, journal: seq<Payload>, more: seq<Payload>,
                       own: Binding, refusals: seq<Refusal>)
    requires journal <= more && AllExplained(config, codec, journal, own, refusals)
    ensures AllExplained(config, codec, more, own, refusals)
  {
    forall refusal | refusal in refusals
      ensures Explained(config, codec, more, own, refusal)
    {
      assert Explained(config, codec, journal, own, refusal);
      if refusal.Roomless? {
        var n: nat :| Lacking(config, codec, journal, own, n, refusal.payload);
        LackingGrows(config, codec, journal, more, own, n, refusal.payload);
      }
    }
  }

  lemma CrowdedGrows(config: Config, codec: TransitionJournal.Codec, journal: seq<Payload>, more: seq<Payload>, own: Binding)
    requires journal <= more && Crowded(config, codec, journal, own)
    ensures Crowded(config, codec, more, own)
  {
    if !Locked(journal) {
      var n: nat, payload :| Lacking(config, codec, journal, own, n, payload);
      LackingGrows(config, codec, journal, more, own, n, payload);
    }
  }

  lemma RefusedIsCrowded(config: Config, codec: TransitionJournal.Codec, journal: seq<Payload>, own: Binding,
                         refusals: seq<Refusal>)
    requires AllExplained(config, codec, journal, own, refusals) && refusals != []
    ensures Crowded(config, codec, journal, own)
  {
    assert Explained(config, codec, journal, own, refusals[0]);
  }

  /** A journal with room for one more record of the largest size that the installer's payloads reach is
      not crowded. */
  lemma SmallJournalIsUncrowded(config: Config, codec: TransitionJournal.Codec, journal: seq<Payload>, own: Binding,
                                size: nat)
    requires |journal| <= TransitionJournal.MAX_RECORDS && size <= TransitionJournal.MAX_RECORD
    requires |Image(TransitionJournal.Journal(codec, journal))| + 4 + size <= TransitionJournal.MAX_BYTES
    requires forall n: nat, payload :: n <= |journal| && Writable(config, journal, own, n, payload) ==>
               |TransitionJournal.NextBody(codec, TransitionJournal.Journal(codec, journal[..n]), payload)| <= size
    ensures !Crowded(config, codec, journal, own)
  {
    forall n: nat, payload | n <= |journal| && Writable(config, journal, own, n, payload)
      ensures TransitionJournal.Room(codec, journal[..n], payload)
    {
      PrefixImage(codec, journal, n);
    }
  }

  lemma PrefixImage(codec: TransitionJournal.Codec, journal: seq<Payload>, n: nat)
    requires n <= |journal|
    ensures |Image(TransitionJournal.Journal(codec, journal[..n]))| <= |Image(TransitionJournal.Journal(codec, journal))|
  {
    var bodies := TransitionJournal.Journal(codec, journal);
    TransitionJournal.WrittenLocal(codec, journal[..n], journal, n);
    TransitionJournal.WrittenPrefix(codec, journal, n, |journal|);
    ImageToLocal(bodies[..n], bodies, n);
    ImageToPrefix(bodies, n);
  }

  lemma {:induction false} SegmentsRooted(payloads: seq<Payload>, n: nat)
    requires n <= |payloads| && SegmentsTo(payloads, n).Ok?
    ensures |SegmentsTo(payloads, n).value| <= n
    ensures forall i :: 0 <= i < |SegmentsTo(payloads, n).value| ==>
              SegmentsTo(payloads, n).value[i].binding in Bindings(payloads)
  {
    if n > 0 {
      SegmentsRooted(payloads, n - 1);
      assert payloads[n - 1].binding in Bindings(payloads);
    }
  }

  /** What is appended to the open transaction carries a known binding and a transaction number. */
  lemma OpenIsRooted(config: Config, d: Durable, transaction: nat, segment: Segment)
    requires Open(config, d, transaction, segment)
    ensures 1 <= transaction <= |d.journal| && segment.binding in Bindings(d.journal)
  {
    SegmentsRooted(d.journal, |d.journal|);
  }

  // ---------------------------------------------------------------- how many calls a run makes

  /** Intent, start, effect and completion of each unit of a base operation. */
  function OperationCalls(config: Config, t: nat, step: StepId, b: nat): nat {
    4 * |config.units(t, step, b)|
  }

  /** The first `b` base operations of a step. */
  function UnitCalls(config: Config, t: nat, step: StepId, b: nat): nat {
    if b == 0 then 0 else UnitCalls(config, t, step, b - 1) + OperationCalls(config, t, step, b - 1)
  }

  /** One step: start, units, ownership receipt and completion. */
  function WholeStepCalls(config: Config, t: nat, step: StepId): nat {
    3 + UnitCalls(config, t, step, OperationCount(step))
  }

  /** The first `i` steps. */
  function StepCalls(config: Config, t: nat, i: nat): nat
    requires i <= |INSTALL_STEPS|
  {
    if i == 0 then 0 else StepCalls(config, t, i - 1) + WholeStepCalls(config, t, INSTALL_STEPS[i - 1])
  }

  function AllStepCalls(config: Config, t: nat): nat {
    StepCalls(config, t, |INSTALL_STEPS|)
  }

  lemma {:induction false} UnitCallsGrow(config: Config, t: nat, step: StepId, b: nat, c: nat)
    requires b <= c
    ensures UnitCalls(config, t, step, b) <= UnitCalls(config, t, step, c)
  {
    if b < c {
      UnitCallsGrow(config, t, step, b, c - 1);
    }
  }

  lemma {:induction false} StepCallsGrow(config: Config, t: nat, i: nat, j: nat)
    requires i <= j <= |INSTALL_STEPS|
    ensures StepCalls(config, t, i) <= StepCalls(config, t, j)
  {
    if i < j {
      StepCallsGrow(config, t, i, j - 1);
    }
  }

  lemma CallsWithin(before: Env, middle: Env, after: Env, signal: Signal, spent: nat, cost: nat, all: nat, calm: bool)
    requires Calls(before, middle, Went, spent, true) && Calls(middle, after, signal, cost, calm) && spent + cost <= all
    ensures Calls(before, after, signal, all, calm)
  {
  }

  /** One more base operation, as part of the operations so far and of all of them. */
  lemma OperationWithin(config: Config, t: nat, step: StepId, b: nat, count: nat, before: Env, middle: Env, after: Env,
                        signal: Signal, calm: bool)
    requires b < count && Calls(before, middle, Went, UnitCalls(config, t, step, b), true)
    requires Calls(middle, after, signal, OperationCalls(config, t, step, b), calm)
    ensures Calls(before, after, signal, UnitCalls(config, t, step, count), calm)
    ensures signal.Went? ==> Calls(before, after, Went, UnitCalls(config, t, step, b + 1), true)
  {
    UnitCallsGrow(config, t, step, b + 1, count);
    CallsWithin(before, middle, after, signal, UnitCalls(config, t, step, b), OperationCalls(config, t, step, b),
                UnitCalls(config, t, step, b + 1), calm);
  }

  lemma StepWithin(config: Config, t: nat, i: nat, before: Env, middle: Env, after: Env, signal: Signal, calm: bool)
    requires i < |INSTALL_STEPS| && Calls(before, middle, Went, StepCalls(config, t, i), true)
    requires Calls(middle, after, signal, WholeStepCalls(config, t, INSTALL_STEPS[i]), calm)
    ensures Calls(before, after, signal, AllStepCalls(config, t), calm)
    ensures signal.Went? ==> Calls(before, after, Went, StepCalls(config, t, i + 1), true)
  {
    StepCallsGrow(config, t, i + 1, |INSTALL_STEPS|);
    CallsWithin(before, middle, after, signal, StepCalls(config, t, i), WholeStepCalls(config, t, INSTALL_STEPS[i]),
                StepCalls(config, t, i + 1), calm);
  }

  /** Start, call and outcome of each of the nine actions. */
  const PASS_CALLS: nat := 27

  /** Reconciliation and its row, a pass, and the conclusion. */
  const ROLLBACK_CALLS: nat := 30

  /** At most this many calls are made by one execution. */
  function ExecutionCalls(config: Config, t: nat): nat {
    1 + AllStepCalls(config, t) + ROLLBACK_CALLS
  }

  // ---------------------------------------------------------------- where the executor stands

  ghost function OrderOf(segment: Segment): Order
    requires OrderTo(segment.rows, |segment.rows|).Some?
  {
    OrderTo(segment.rows, |segment.rows|).value
  }

  /** Operations of a step that come before unit `k` of base operation `b`. */
  ghost predicate Before(config: Config, t: nat, step: StepId, operation: Operation, b: nat, k: nat) {
    || operation.base < b
    || (operation.base == b && k <= |config.units(t, step, b)| && operation.suffix in config.units(t, step, b)[..k])
  }

  /** Every planned unit before position (i, b, k) is complete, and its effect is on the host
      exactly when the unit has one. */
  ghost predicate CoveredBefore(config: Config, t: nat, v: View, host: set<(nat, Unit)>, i: nat, b: nat, k: nat) {
    forall u :: Planned(config, t, u) && (StepIndex(u.step) < i || (StepIndex(u.step) == i && Before(config, t, u.step, u.operation, b, k)))
            ==> u in v.done && ((t, u) in host <==> config.effects(t, u))
  }

  /** About to start step `i` (or, after the last step, to complete the plan). */
  ghost predicate BetweenSteps(config: Config, d: Durable, t: nat, segment: Segment, i: nat) {
    && Open(config, d, t, segment)
    && OrderTo(segment.rows, |segment.rows|).Some?
    && var o := OrderOf(segment);
    && o.stepIndex == i - 1 && o.activeStep.None? && o.activeOperation.None? && !o.rollbackStarted
    && Unrolled(t, d.ran)
    && CoveredBefore(config, t, ViewOf(segment.rows), d.host, i, 0, 0)
  }

  /** Inside step `i`, about to start unit `k` of base operation `b`. */
  ghost predicate InStep(config: Config, d: Durable, t: nat, segment: Segment, i: nat, b: nat, k: nat) {
    && i < |INSTALL_STEPS|
    && Open(config, d, t, segment)
    && OrderTo(segment.rows, |segment.rows|).Some?
    && var o := OrderOf(segment);
    && o.stepIndex == i && o.activeStep == Some(INSTALL_STEPS[i]) && o.activeOperation.None? && !o.rollbackStarted
    && Unrolled(t, d.ran)
    && o.operationIndex == (if k > 0 then b else if b == 0 then 0 else b - 1)
    && (forall op :: op in o.seen ==> Before(config, t, INSTALL_STEPS[i], op, b, k))
    && CoveredBefore(config, t, ViewOf(segment.rows), d.host, i, b, k)
  }

  ghost predicate NoRollback(rows: seq<Event>) {
    forall i :: 0 <= i < |rows| ==> !RollbackEvent(rows[i])
  }

  /** The journal may be closed or rolled back: nothing is in flight. */
  ghost predicate Quiet(config: Config, d: Durable, t: nat, segment: Segment) {
    && Open(config, d, t, segment)
    && OrderTo(segment.rows, |segment.rows|).Some?
    && OrderOf(segment).activeOperation.None?
  }

  lemma NextBase(config: Config, d: Durable, t: nat, segment: Segment, i: nat, b: nat)
    requires i < |INSTALL_STEPS| && config.units(t, INSTALL_STEPS[i], b) != []
    requires InStep(config, d, t, segment, i, b, |config.units(t, INSTALL_STEPS[i], b)|)
    ensures InStep(config, d, t, segment, i, b + 1, 0)
  {
    var step := INSTALL_STEPS[i];
    var units := config.units(t, step, b);
    assert units[..|units|] == units;
    StepIndexOf(i);
    forall u | Planned(config, t, u) && StepIndex(u.step) == i && Before(config, t, u.step, u.operation, b + 1, 0)
      ensures Before(config, t, u.step, u.operation, b, |units|)
    {
      assert u.step == step;
    }
  }

  lemma StepCovered(config: Config, t: nat, v: View, host: set<(nat, Unit)>, i: nat)
    requires i < |INSTALL_STEPS|
    requires CoveredBefore(config, t, v, host, i, OperationCount(INSTALL_STEPS[i]), 0)
    ensures CoveredBefore(config, t, v, host, i + 1, 0, 0)
  {
    StepIndexOf(i);
    forall u | Planned(config, t, u) && StepIndex(u.step) < i + 1
      ensures StepIndex(u.step) < i || Before(config, t, u.step, u.operation, OperationCount(INSTALL_STEPS[i]), 0)
    {
    }
  }

  // ---------------------------------------------------------------- recovery's reading of the journal

  datatype ViewError = DuplicateCompletion | MultipleInFlight

  method CollectView(rows: seq<Event>) returns (result: Result<View, ViewError>)
    ensures result.Ok? ==> result.value == ViewOf(rows)
    ensures result.Ok? <==> !ViewOf(rows).duplicate
  {
    var v, n := VIEW_START, 0;
    while n < |rows|
      invariant n <= |rows|
      invariant ViewTo(rows, n) == v && !v.duplicate
    {
      if rows[n].OperationComplete? && rows[n].unit in v.done {
        DuplicateStays(rows, n + 1, |rows|);
        return Err(DuplicateCompletion);
      }
      v := AdvanceView(v, rows[n]);
      n := n + 1;
    }
    return Ok(v);
  }

  lemma {:induction false} DuplicateStays(rows: seq<Event>, n: nat, m: nat)
    requires n <= m <= |rows| && ViewTo(rows, n).duplicate
    ensures ViewTo(rows, m).duplicate
    decreases m - n
  {
    if n < m {
      DuplicateStays(rows, n + 1, m);
    }
  }

  /** The started units without a completion; more than one is refused. */
  method Unmatched(v: View) returns (result: Result<Option<Unit>, ViewError>)
    ensures match result
            case Ok(None) => NothingInFlight(v)
            case Ok(Some(u)) => InFlight(v, u) && forall w :: InFlight(v, w) ==> w == u
            case Err(_) => exists i, j :: 0 <= i < j < |v.starts| && v.starts[i] !in v.done && v.starts[j] !in v.done
  {
    var found: Option<Unit>, n := None, 0;
    while n < |v.starts|
      invariant n <= |v.starts|
      invariant found.None? ==> forall i :: 0 <= i < n ==> v.starts[i] in v.done
      invariant found.Some? ==>
                  exists i :: 0 <= i < n && v.starts[i] == found.value && found.value !in v.done
                              && forall j :: 0 <= j < n && v.starts[j] !in v.done ==> j == i
    {
      if v.starts[n] !in v.done {
        if found.Some? {
          return Err(MultipleInFlight);
        }
        found := Some(v.starts[n]);
      }
      n := n + 1;
    }
    return Ok(found);
  }

  // ---------------------------------------------------------------- rollback rows

  ghost predicate InTableOrder(rows: seq<Event>, from: nat, below: nat) {
    && (forall p :: from <= p < |rows| ==> ActionRow(rows[p]) && TableIndex(ActionOf(rows[p])) < below)
    && (forall p, q :: from <= p < q < |rows| ==> TableIndex(ActionOf(rows[p])) <= TableIndex(ActionOf(rows[q])))
  }

  predicate ActionRow(event: Event) {
    event.RollbackStart? || event.RollbackComplete? || event.RollbackFailed? || event.RollbackRetainedAmbiguous?
  }

  function ActionOf(event: Event): RollbackId
    requires ActionRow(event)
  {
    event.action
  }

  /** Which actions a rollback pass is entitled to run. */
  ghost predicate Entitled(action: RollbackId, effected: set<StepId>, owned: set<StepId>, already: set<RollbackId>) {
    && action !in already
    && Sources(action) * effected != {}
    && Sources(action) * effected <= owned
  }

  /** The rows a pass has added: actions in table order, started or completed only when entitled. */
  ghost predicate PassRows(rows: seq<Event>, from: nat, effected: set<StepId>, owned: set<StepId>,
                           already: set<RollbackId>, below: nat)
  {
    && InTableOrder(rows, from, below)
    && forall p :: from <= p < |rows| && !rows[p].RollbackRetainedAmbiguous?
               ==> Entitled(ActionOf(rows[p]), effected, owned, already)
  }

  /** What a pass has done to the recorded view. */
  ghost predicate PassView(before: View, now: View, below: nat) {
    && PossiblyEffected(now) == PossiblyEffected(before)
    && before.rolledBack <= now.rolledBack
    && forall a :: a in now.rolledBack && a !in before.rolledBack ==> TableIndex(a) < below
  }

  ghost predicate PassRan(before: set<(nat, RollbackId)>, now: set<(nat, RollbackId)>, t: nat,
                          effected: set<StepId>, owned: set<StepId>, already: set<RollbackId>)
  {
    && before <= now
    && forall t', a :: (t', a) in now && (t', a) !in before ==> t' == t && Entitled(a, effected, owned, already)
  }

  /** Every action below the table position was skipped for a reason, or ran. */
  ghost predicate Served(done: set<RollbackId>, effected: set<StepId>, already: set<RollbackId>, below: nat) {
    forall a :: TableIndex(a) < below && a !in already && Sources(a) * effected != {} ==> a in done
  }

  /** The row that records how the call of an action went. */
  function OutcomeRow(action: RollbackId, failures: seq<Failure>): Event {
    if Backend(action) in failures then RollbackFailed(action) else RollbackComplete(action)
  }

  /** The rows of one action: its start, then its outcome, each missing only when the append failed or the
      process stopped. */
  predicate ActionRecorded(before: seq<Event>, now: seq<Event>, action: RollbackId, failures: seq<Failure>) {
    || now == before
    || now == before + [RollbackStart(action)]
    || now == before + [OutcomeRow(action, failures)]
    || now == before + [RollbackStart(action), OutcomeRow(action, failures)]
  }

  /** The outcome row behind the start row, both present when neither append failed. */
  lemma RecordedInTurn(before: Segment, started: Segment, now: Segment, action: RollbackId, failures: seq<Failure>)
    requires started == before || started == Longer(before, RollbackStart(action))
    requires now == started || now == Longer(started, OutcomeRow(action, failures))
    ensures ActionRecorded(before.rows, now.rows, action, failures)
    ensures started != before && now != started ==>
              now.rows == before.rows + [RollbackStart(action), OutcomeRow(action, failures)]
  {
    if started != before && now != started {
      assert before.rows + [RollbackStart(action)] + [OutcomeRow(action, failures)]
          == before.rows + [RollbackStart(action), OutcomeRow(action, failures)];
    }
  }

  /** A row that an action failed stands for a call that failed in this pass. */
  ghost predicate FailuresExplained(rows: seq<Event>, from: nat, failures: seq<Failure>) {
    forall p :: from <= p < |rows| && rows[p].RollbackFailed? ==> Backend(rows[p].action) in failures
  }

  ghost predicate PassAt(t: nat, segment: Segment, now: Segment, ran0: set<(nat, RollbackId)>, ran: set<(nat, RollbackId)>,
                       effected: set<StepId>, owned: set<StepId>, already: set<RollbackId>, index: nat)
  {
    && segment.rows <= now.rows
    && PassRows(now.rows, |segment.rows|, effected, owned, already, index)
    && PassView(ViewOf(segment.rows), ViewOf(now.rows), index)
    && PassRan(ran0, ran, t, effected, owned, already)
  }

  /** A pass that stands at a table position; the quantifier keeps its parts out of the reasoning about the
      loop over the table. */
  ghost predicate Pass(t: nat, segment: Segment, now: Segment, ran0: set<(nat, RollbackId)>, ran: set<(nat, RollbackId)>,
                       effected: set<StepId>, owned: set<StepId>, already: set<RollbackId>, index: nat)
  {
    forall at :: at == index ==> PassAt(t, segment, now, ran0, ran, effected, owned, already, at)
  }

  lemma PassHolds(t: nat, segment: Segment, now: Segment, ran0: set<(nat, RollbackId)>, ran: set<(nat, RollbackId)>,
                  effected: set<StepId>, owned: set<StepId>, already: set<RollbackId>, index: nat)
    ensures Pass(t, segment, now, ran0, ran, effected, owned, already, index)
       <==> PassAt(t, segment, now, ran0, ran, effected, owned, already, index)
  {
  }

  lemma PassWidens(t: nat, segment: Segment, now: Segment, ran0: set<(nat, RollbackId)>, ran: set<(nat, RollbackId)>,
                   effected: set<StepId>, owned: set<StepId>, already: set<RollbackId>, index: nat)
    requires Pass(t, segment, now, ran0, ran, effected, owned, already, index) && index <= |ROLLBACK_TABLE|
    ensures Pass(t, segment, now, ran0, ran, effected, owned, already, |ROLLBACK_TABLE|)
  {
    PassHolds(t, segment, now, ran0, ran, effected, owned, already, index);
  }

  lemma PassRowsExtend(segment: Segment, now: Segment, later: Segment, effected: set<StepId>, owned: set<StepId>,
                       already: set<RollbackId>, index: nat)
    requires index < |ROLLBACK_TABLE| && segment.rows <= now.rows
    requires PassRows(now.rows, |segment.rows|, effected, owned, already, index)
    requires RolledForward(now, later, ROLLBACK_TABLE[index])
    requires Entitled(ROLLBACK_TABLE[index], effected, owned, already) || OnlyAmbiguous(later.rows, |now.rows|)
    ensures segment.rows <= later.rows
    ensures PassRows(later.rows, |segment.rows|, effected, owned, already, index + 1)
  {
    TableIndexOf(index);
    forall p | |segment.rows| <= p < |later.rows|
      ensures ActionRow(later.rows[p]) && TableIndex(ActionOf(later.rows[p])) < index + 1
      ensures p >= |now.rows| ==> TableIndex(ActionOf(later.rows[p])) == index
      ensures !later.rows[p].RollbackRetainedAmbiguous? ==> Entitled(ActionOf(later.rows[p]), effected, owned, already)
    {
      assert p < |now.rows| ==> later.rows[p] == now.rows[p];
    }
  }

  /** Working off a table position takes the pass to the next one. */
  lemma PassAdvances(t: nat, segment: Segment, so: Segment, now: Segment, ran0: set<(nat, RollbackId)>,
                     before: set<(nat, RollbackId)>, ran: set<(nat, RollbackId)>,
                     effected: set<StepId>, owned: set<StepId>, already: set<RollbackId>, index: nat)
    requires index < |ROLLBACK_TABLE| && Pass(t, segment, so, ran0, before, effected, owned, already, index)
    requires ROLLBACK_TABLE[index] !in already && Sources(ROLLBACK_TABLE[index]) * effected != {}
    requires RolledForward(so, now, ROLLBACK_TABLE[index])
    requires Sources(ROLLBACK_TABLE[index]) * effected <= owned || OnlyAmbiguous(now.rows, |so.rows|)
    requires || ran == before
             || (ran == before + {(t, ROLLBACK_TABLE[index])} && Sources(ROLLBACK_TABLE[index]) * effected <= owned)
    ensures Pass(t, segment, now, ran0, ran, effected, owned, already, index + 1)
  {
    PassHolds(t, segment, so, ran0, before, effected, owned, already, index);
    TableIndexOf(index);
    PassRowsExtend(segment, so, now, effected, owned, already, index);
    PassHolds(t, segment, now, ran0, ran, effected, owned, already, index + 1);
  }

  lemma FailuresAdd(rows: seq<Event>, so: seq<Event>, now: seq<Event>, failures: seq<Failure>, more: seq<Failure>)
    requires rows <= so <= now
    requires FailuresExplained(so, |rows|, failures) && FailuresExplained(now, |so|, more)
    ensures FailuresExplained(now, |rows|, failures + more)
  {
    forall p | |rows| <= p < |now| && now[p].RollbackFailed?
      ensures Backend(now[p].action) in failures + more
    {
      if p < |so| {
        assert so[p] == now[p];
      }
    }
  }

  lemma PassNotYet(t: nat, segment: Segment, so: Segment, ran0: set<(nat, RollbackId)>, ran: set<(nat, RollbackId)>,
                   effected: set<StepId>, owned: set<StepId>, already: set<RollbackId>, index: nat)
    requires index < |ROLLBACK_TABLE| && Pass(t, segment, so, ran0, ran, effected, owned, already, index)
    requires ROLLBACK_TABLE[index] !in ViewOf(segment.rows).rolledBack
    ensures ROLLBACK_TABLE[index] !in ViewOf(so.rows).rolledBack
    ensures PossiblyEffected(ViewOf(so.rows)) == PossiblyEffected(ViewOf(segment.rows))
  {
    PassHolds(t, segment, so, ran0, ran, effected, owned, already, index);
    TableIndexOf(index);
  }

  lemma PassSkips(t: nat, segment: Segment, so: Segment, ran0: set<(nat, RollbackId)>, ran: set<(nat, RollbackId)>,
                  effected: set<StepId>, owned: set<StepId>, already: set<RollbackId>, index: nat)
    requires Pass(t, segment, so, ran0, ran, effected, owned, already, index)
    ensures Pass(t, segment, so, ran0, ran, effected, owned, already, index + 1)
  {
    PassHolds(t, segment, so, ran0, ran, effected, owned, already, index);
    PassHolds(t, segment, so, ran0, ran, effected, owned, already, index + 1);
  }

  // ---------------------------------------------------------------- the rows of one rollback

  /** What a rollback adds to the rows of a transaction: the completion of the unit in flight, if there is
      one, up to `from`; then actions in table order, each started or finished only when every possibly
      affected source step has its receipt, up to `to`; then perhaps the conclusion. */
  ghost predicate RollbackShape(before: seq<Event>, now: seq<Event>, from: nat, to: nat) {
    && before <= now && |before| <= from <= |before| + 1 && from <= to <= |now| <= to + 1
    && (from > |before| ==> now[|before|].OperationComplete?)
    && (to < |now| ==> now[to].RecoveryComplete? || now[to].RecoveryFailed?)
    && PassFrom(now[..from], now[..to])
  }

  /** One pass over the table behind `rows`, on what those rows own; sealed like `Pass`. */
  ghost predicate PassFrom(rows: seq<Event>, now: seq<Event>) {
    forall base :: base == rows ==> PassBehind(base, now)
  }

  ghost predicate PassBehind(rows: seq<Event>, now: seq<Event>) {
    PassRows(now, |rows|, PossiblyEffected(ViewOf(rows)), PossiblyEffected(ViewOf(rows)), ViewOf(rows).rolledBack,
             |ROLLBACK_TABLE|)
  }

  ghost predicate RolledBackFrom(before: seq<Event>, now: seq<Event>) {
    exists from: nat, to: nat :: RollbackShape(before, now, from, to)
  }

  /** A pass and perhaps its conclusion. */
  ghost predicate PassAndConclusion(middle: seq<Event>, now: seq<Event>) {
    exists to: nat :: RollbackShape(middle, now, |middle|, to)
  }

  lemma NothingAdded(rows: seq<Event>)
    ensures RolledBackFrom(rows, rows)
  {
    assert rows[..|rows|] == rows;
    assert RollbackShape(rows, rows, |rows|, |rows|);
  }

  lemma PassThenConclusion(middle: seq<Event>, passed: seq<Event>, now: seq<Event>)
    requires middle <= passed && PassFrom(middle, passed)
    requires now == passed
          || (passed <= now && |now| == |passed| + 1 && (now[|passed|].RecoveryComplete? || now[|passed|].RecoveryFailed?))
    ensures PassAndConclusion(middle, now)
  {
    assert now[..|middle|] == middle && now[..|passed|] == passed;
    assert RollbackShape(middle, now, |middle|, |passed|);
  }

  lemma CompletionThenPass(before: seq<Event>, middle: seq<Event>, now: seq<Event>)
    requires middle == before || (before <= middle && |middle| == |before| + 1 && middle[|before|].OperationComplete?)
    requires PassAndConclusion(middle, now)
    ensures RolledBackFrom(before, now)
  {
    var to: nat :| RollbackShape(middle, now, |middle|, to);
    assert RollbackShape(before, now, |middle|, to);
  }

  /** Only the completion of the unit in flight was added. */
  lemma CompletionOnly(before: seq<Event>, now: seq<Event>)
    requires now == before || (before <= now && |now| == |before| + 1 && now[|before|].OperationComplete?)
    ensures RolledBackFrom(before, now)
  {
    NothingAdded(now);
    assert now[..|now|] == now;
    assert RollbackShape(now, now, |now|, |now|);
    CompletionThenPass(before, now, now);
  }

  /** The rows of a transaction over its whole life: what the executor wrote, then rollbacks. */
  ghost predicate Phased(rows: seq<Event>)
    decreases |rows|
  {
    NoRollback(rows) || exists mid: nat :: mid < |rows| && Phased(rows[..mid]) && RolledBackFrom(rows[..mid], rows)
  }

  lemma PhasedExtends(before: seq<Event>, now: seq<Event>)
    requires Phased(before) && RolledBackFrom(before, now)
    ensures Phased(now)
  {
    assert before <= now && now[..|before|] == before;
    if |now| == |before| {
      assert now == before;
    }
  }

  ghost predicate AllPhased(segments: seq<Segment>) {
    forall i :: 0 <= i < |segments| ==> Phased(segments[i].rows)
  }

  /** The last transaction of a run that started one: its own rows and perhaps one rollback. */
  ghost predicate OneRollback(rows: seq<Event>) {
    exists base :: NoRollback(base) && RolledBackFrom(base, rows)
  }

  lemma NoRollbackYet(rows: seq<Event>)
    requires NoRollback(rows)
    ensures OneRollback(rows)
  {
    NothingAdded(rows);
  }

  /** What the outcome of a recovery says about the journal before and after it. */
  ghost predicate RecoveryReport(before: seq<Segment>, now: seq<Segment>, outcome: Outcome) {
    && |now| == |before|
    && (outcome.Clean? <==> before == [])
    && (outcome.RolledBack? ==> now != [] && LastEvent(now[|now| - 1]).RecoveryComplete?)
    && (outcome.AlreadyComplete? ==> now != [] && LastEvent(now[|now| - 1]).PlanComplete?)
    && (outcome.RecoveryFailures? ==> outcome.failures != [] && now != [] && LastEvent(now[|now| - 1]).RecoveryFailed?)
    && (before != [] ==> RolledBackFrom(before[|now| - 1].rows, now[|now| - 1].rows))
    && (before != [] && NothingInFlight(ViewOf(before[|now| - 1].rows))
        ==> Unfinished(ViewOf(now[|now| - 1].rows)) <= Unfinished(ViewOf(before[|now| - 1].rows)))
  }

  /** An outcome that leaves the journal alone. */
  lemma UntouchedReport(segments: seq<Segment>, outcome: Outcome)
    requires outcome.Clean? <==> segments == []
    requires !outcome.RecoveryFailures?
    requires outcome.RolledBack? ==> segments != [] && LastEvent(segments[|segments| - 1]).RecoveryComplete?
    requires outcome.AlreadyComplete? ==> segments != [] && LastEvent(segments[|segments| - 1]).PlanComplete?
    ensures RecoveryReport(segments, segments, outcome)
  {
    if segments != [] {
      NothingAdded(segments[|segments| - 1].rows);
    }
  }

  predicate PlanApplied(segments: seq<Segment>) {
    segments != [] && LastEvent(segments[|segments| - 1]).PlanComplete?
  }

  predicate AppliedAs(segments: seq<Segment>, binding: Binding) {
    && PlanApplied(segments)
    && segments[|segments| - 1].binding.plan == binding.plan && segments[|segments| - 1].binding.bundle == binding.bundle
  }

  predicate EndsRecovered(segments: seq<Segment>) {
    segments != [] && LastEvent(segments[|segments| - 1]).RecoveryComplete?
  }

  predicate LeftOpen(segments: seq<Segment>) {
    segments != [] && !Terminal(LastEvent(segments[|segments| - 1]))
  }

  /** A new transaction may start: there is none yet, or the last one was recovered. */
  predicate Startable(segments: seq<Segment>) {
    segments == [] || EndsRecovered(segments)
  }

  /** The last transaction is an applied plan, and every planned unit is on the host exactly when it has
      an effect. */
  ghost predicate Installed(config: Config, d: Durable, transaction: nat, binding: Binding)
    requires Inv(config, d)
  {
    var segments := SegmentsOf(config, d);
    && |segments| == transaction > 0
    && LastEvent(segments[transaction - 1]).PlanComplete? && segments[transaction - 1].binding == binding
    && forall u :: Planned(config, transaction, u) ==> ((transaction, u) in d.host <==> config.effects(transaction, u))
  }

  /** At most one transaction was added: the executor's rows and perhaps one rollback. */
  ghost predicate StartedAtMost(before: seq<Segment>, now: seq<Segment>) {
    |now| == |before| || (|now| == |before| + 1 && OneRollback(now[|before|].rows))
  }

  /** What the outcome of an execution says about the journal it found and the state it leaves: an applied
      plan is never touched, an unfinished transaction is recovered and nothing started, and a completed
      execution is a new, applied transaction. */
  ghost predicate ExecutionReport(config: Config, before: seq<Segment>, d: Durable, binding: Binding, outcome: Outcome)
    requires Inv(config, d)
  {
    && (outcome.Complete? ==> Startable(before) && Installed(config, d, |before| + 1, binding))
    && (outcome.AlreadyComplete? <==> AppliedAs(before, binding))
    && (outcome.CompletedPlanForbidden? <==> PlanApplied(before) && !AppliedAs(before, binding))
    && (LeftOpen(before) ==>
          && (outcome in {RecoveryRequired, BindingRefused, JournalRaised, Stopped} || outcome.RecoveryFailures?)
          && (outcome.BindingRefused? <==> RefusedBinding(before, binding, true))
          && |SegmentsOf(config, d)| == |before|
          && RolledBackFrom(before[|before| - 1].rows, SegmentsOf(config, d)[|before| - 1].rows))
    && (Startable(before) ==> StartedAtMost(before, SegmentsOf(config, d)))
    && (outcome.RecoveryRequired? ==> LeftOpen(before) && EndsRecovered(SegmentsOf(config, d)) && EffectsUndone(config, d))
  }

  /** The last transaction belongs to another plan, bundle or (where that is checked) bundle file. */
  predicate RefusedBinding(segments: seq<Segment>, binding: Binding, checkFile: bool) {
    && segments != []
    && var last := segments[|segments| - 1].binding;
    && (|| last.plan != binding.plan || last.bundle != binding.bundle
        || (checkFile && last.bundleFile != binding.bundleFile))
  }

  /** Some call failed; refusals and stops are no failures. */
  /** Recovery refuses exactly the transactions of another plan or bundle, and on request of another bundle
      file; a completed plan is taken for this one by plan and bundle alone. */
  lemma RefusedIsOther(segments: seq<Segment>, binding: Binding)
    requires segments != []
    ensures var other := segments[|segments| - 1].binding;
      && (RefusedBinding(segments, binding, true) <==> other != binding)
      && (RefusedBinding(segments, binding, false) <==> other.(bundleFile := binding.bundleFile) != binding)
      && (AppliedAs(segments, binding) <==>
            LastEvent(segments[|segments| - 1]).PlanComplete? && other.(bundleFile := binding.bundleFile) == binding)
  {
  }

  /** The conclusion of the rollback could not be appended. */
  predicate EndsUnrecorded(failures: seq<Failure>) {
    failures != [] && failures[|failures| - 1].TerminalJournal?
  }

  predicate Failing(outcome: Outcome) {
    outcome.JournalRaised? || outcome.RecoveryFailures? || outcome.TransactionFailed?
  }

  function RecoveryOutcome(signal: Signal, failures: seq<Failure>): Outcome {
    match signal
    case Halted => Stopped
    case Raised => JournalRaised
    case Went => if failures == [] then RolledBack else RecoveryFailures(failures)
  }

  /** An outcome of a recovery that worked on the last segment. */
  lemma WorkedReport(before: seq<Segment>, after: seq<Segment>, segment: Segment, now: Segment, outcome: Outcome)
    requires |after| == |before| > 0 && before[|before| - 1] == segment && after[|after| - 1] == now
    requires !outcome.Clean? && !outcome.AlreadyComplete?
    requires outcome.RolledBack? ==> LastEvent(now).RecoveryComplete?
    requires outcome.RecoveryFailures? ==> outcome.failures != [] && LastEvent(now).RecoveryFailed?
    requires RolledBackFrom(segment.rows, now.rows)
    requires NothingInFlight(ViewOf(segment.rows)) ==> Unfinished(ViewOf(now.rows)) <= Unfinished(ViewOf(segment.rows))
    ensures RecoveryReport(before, after, outcome)
  {
  }

  class Installer {
    const config: Config
    const codec: TransitionJournal.Codec
    /** The journal file, and the payloads it holds. */
    var raw: seq<byte>
    ghost var journal: seq<Payload>
    var host: set<(nat, Unit)>
    var ran: set<(nat, RollbackId)>
    var env: Env

    constructor (config: Config, codec: TransitionJournal.Codec)
      ensures this.config == config && this.codec == codec && raw == [] && host == {} && ran == {}
      ensures Inv(config, State()) && AllPhased(SegmentsOf(config, State()))
      ensures TransitionJournal.Canonical(codec) ==> Filed()
    {
      this.config, this.codec := config, codec;
      raw, journal, host, ran, env := [], [], {}, {}, Env(Binding("", "", ""), [], []);
      EmptyOnFile(codec);
    }

    ghost function State(): Durable
      reads this
    {
      Durable(journal, host, ran)
    }

    /** The journal file holds the payloads of the journal, and the refusals of the run have their reasons. */
    ghost predicate Filed()
      reads this
    {
      OnFile(codec, raw, journal) && AllExplained(config, codec, journal, env.own, env.refusals)
    }

    method Draw() returns (fate: Option<Fate>)
      modifies this`env
      ensures env == old(env).(fates := env.fates)
      ensures old(env).fates == [] ==> fate.None? && env.fates == []
      ensures old(env).fates != [] ==> fate == Some(old(env).fates[0]) && env.fates == old(env).fates[1..]
    {
      if env.fates == [] {
        return None;
      }
      fate := Some(env.fates[0]);
      env := env.(fates := env.fates[1..]);
    }

    /** A host call that only reads. */
    method Consult() returns (signal: Signal)
      modifies this`env
      ensures Calls(old(env), env, signal, 1, true) && env.refusals == old(env).refusals
    {
      var fate := Draw();
      match fate {
        case None =>
          signal := Halted;
        case Some(Fate(Done, _)) =>
          signal := Went;
        case _ =>
          signal := Raised;
      }
    }

    /** Append one event to the file.  It lands unless the process stops before the last byte, the write
        fails, or the caps leave no room. */
    method Append(transaction: nat, binding: Binding, event: Event) returns (signal: Signal)
      requires Filed() && Writable(config, journal, env.own, |journal|, Payload(transaction, binding, event))
      modifies this`raw, this`journal, this`env
      ensures Filed() && Calls(old(env), env, signal, 1, true)
      ensures journal == old(journal) || journal == old(journal) + [Payload(transaction, binding, event)]
      ensures signal.Went? ==> journal == old(journal) + [Payload(transaction, binding, event)]
      ensures signal.Halted? ==> journal == old(journal)
      ensures env.refusals != old(env).refusals ==>
                signal.Raised? && !TransitionJournal.Room(codec, old(journal), Payload(transaction, binding, event))
    {
      var fate := Draw();
      if fate.None? {
        return Halted;
      }
      if fate.value.answer == Lost {
        return Raised;
      }
      signal := Write(Payload(transaction, binding, event), fate.value.counts);
      if signal.Went? && fate.value.answer == Late {
        signal := Raised;
      }
    }

    /** The append itself, on the bytes. */
    method Write(payload: Payload, counts: seq<nat>) returns (signal: Signal)
      requires Filed() && Writable(config, journal, env.own, |journal|, payload)
      modifies this`raw, this`journal, this`env
      ensures Filed() && env.own == old(env).own && env.fates == if signal.Halted? then [] else old(env).fates
      ensures Finishes(counts) ==> !signal.Halted?
      ensures Finishes(counts) && env.refusals == old(env).refusals ==> signal.Went?
      ensures journal == if signal.Went? then old(journal) + [payload] else old(journal)
      ensures env.refusals == old(env).refusals
           || (env.refusals == old(env).refusals + [Roomless(payload)] && signal.Raised?
               && !TransitionJournal.Room(codec, old(journal), payload))
    {
      var after, outcome, cut := TransitionJournal.AppendTo(codec, raw, payload, counts);
      AppendOnFile(codec, raw, journal, payload, counts, after, outcome, cut);
      raw := after;
      match outcome {
        case Refused(error) =>
          signal := Raised;
          if !error.ZeroWrite? {
            assert journal[..|journal|] == journal;
            assert Lacking(config, codec, journal, env.own, |journal|, payload);
            env := env.(refusals := env.refusals + [Roomless(payload)]);
          }
        case Interrupted =>
          signal := Halted;
          env := env.(fates := []);
        case Appended =>
          signal := Went;
          ExplainedGrows(config, codec, journal, journal + [payload], env.own, env.refusals);
          journal := journal + [payload];
      }
    }

    /** Append an event that keeps the open transaction sound. */
    method Emit(transaction: nat, ghost segment: Segment, binding: Binding, event: Event)
      returns (signal: Signal, ghost now: Segment)
      requires Open(config, State(), transaction, segment) && binding == segment.binding
      requires !event.TransactionStart? && Extendable(config, State(), transaction, segment, event)
      requires Writes(config, transaction, event)
      requires Filed()
      modifies this`raw, this`journal, this`env
      ensures Filed()
      ensures Calls(old(env), env, signal, 1, true)
      ensures Inv(config, State()) && old(journal) <= journal
      ensures now == segment || now == segment.(rows := segment.rows + [event])
      ensures signal.Went? ==> now == segment.(rows := segment.rows + [event])
      ensures signal.Halted? ==> now == segment
      ensures SegmentsOf(config, State()) == old(SegmentsOf(config, State()))[transaction - 1 := now]
      ensures now == segment || !Terminal(event) ==> Open(config, State(), transaction, now)
    {
      ghost var before := State();
      ExtendOpen(config, before, transaction, segment, event);
      OpenIsRooted(config, before, transaction, segment);
      signal := Append(transaction, binding, event);
      now := if journal == before.journal then segment else segment.(rows := segment.rows + [event]);
    }

    // -------------------------------------------------------------- execution

    method ApplyOperation(transaction: nat, ghost segment: Segment, unit: Unit)
      returns (signal: Signal, receipt: Option<Receipt>)
      requires Open(config, State(), transaction, segment) && InFlight(ViewOf(segment.rows), unit)
      requires (transaction, unit) !in host
      modifies this`host, this`env
      ensures Calls(old(env), env, signal, 1, true)
      ensures env.refusals == old(env).refusals
      ensures Open(config, State(), transaction, segment)
      ensures SegmentsOf(config, State()) == old(SegmentsOf(config, State()))
      ensures host == old(host) || host == old(host) + {(transaction, unit)}
      ensures signal.Went? ==>
                && ((transaction, unit) in host <==> config.effects(transaction, unit))
                && receipt == if (transaction, unit) in host then Some(OperationReceipt(unit)) else None
    {
      EffectOfInFlight(config, State(), transaction, segment, unit);
      receipt := None;
      var fate := Draw();
      match fate {
        case None =>
          signal := Halted;
        case Some(Fate(Lost, _)) =>
          signal := Raised;
        case Some(Fate(Late, _)) =>
          if config.effects(transaction, unit) {
            host := host + {(transaction, unit)};
          }
          signal := Raised;
        case Some(Fate(Done, _)) =>
          if config.effects(transaction, unit) {
            host := host + {(transaction, unit)};
            receipt := Some(OperationReceipt(unit));
          }
          signal := Went;
      }
    }

    method StartUnit(transaction: nat, ghost segment: Segment, binding: Binding, i: nat, b: nat, k: nat)
      returns (signal: Signal, ghost now: Segment)
      requires Valid(config) && InStep(config, State(), transaction, segment, i, b, k) && binding == segment.binding && NoRollback(segment.rows)
      requires b < OperationCount(INSTALL_STEPS[i]) && k < |config.units(transaction, INSTALL_STEPS[i], b)|
      requires Filed()
      modifies this`raw, this`journal, this`env
      ensures Filed()
      ensures Calls(old(env), env, signal, 1, true)
      ensures Open(config, State(), transaction, now) && now.binding == binding && old(journal) <= journal
      ensures NoRollback(now.rows) && ran == old(ran)
      ensures signal.Went? ==> UnitStarted(config, State(), transaction, now, i, b, k)
    {
      UnitMayStart(config, State(), transaction, segment, i, b, k);
      signal, now := Emit(transaction, segment, binding, OperationStart(UnitAt(config, transaction, i, b, k)));
    }

    method RunUnit(transaction: nat, ghost segment: Segment, binding: Binding, i: nat, b: nat, k: nat)
      returns (signal: Signal, ghost now: Segment)
      requires Valid(config) && InStep(config, State(), transaction, segment, i, b, k) && binding == segment.binding && NoRollback(segment.rows)
      requires b < OperationCount(INSTALL_STEPS[i]) && k < |config.units(transaction, INSTALL_STEPS[i], b)|
      requires Filed()
      modifies this`raw, this`journal, this`host, this`env
      ensures Filed()
      ensures Calls(old(env), env, signal, 4, true)
      ensures Open(config, State(), transaction, now) && now.binding == binding && old(journal) <= journal
      ensures NoRollback(now.rows) && ran == old(ran)
      ensures signal.Went? ==> InStep(config, State(), transaction, now, i, b, k + 1)
    {
      now := segment;
      signal := Consult();
      if signal.Went? {
        signal, now := StartUnit(transaction, segment, binding, i, b, k);
      }
      if !signal.Went? {
        return signal, now;
      }
      signal, now := FinishUnit(transaction, now, binding, i, b, k);
    }

    method FinishUnit(transaction: nat, ghost segment: Segment, binding: Binding, i: nat, b: nat, k: nat)
      returns (signal: Signal, ghost now: Segment)
      requires UnitStarted(config, State(), transaction, segment, i, b, k)
      requires binding == segment.binding && NoRollback(segment.rows) && b < OperationCount(INSTALL_STEPS[i])
      requires Filed()
      modifies this`raw, this`journal, this`host, this`env
      ensures Filed()
      ensures Calls(old(env), env, signal, 2, true)
      ensures Open(config, State(), transaction, now) && now.binding == binding && old(journal) <= journal
      ensures NoRollback(now.rows) && ran == old(ran)
      ensures signal.Went? ==> InStep(config, State(), transaction, now, i, b, k + 1)
    {
      now := segment;
      var receipt;
      ghost var started := State();
      signal, receipt := ApplyOperation(transaction, segment, UnitAt(config, transaction, i, b, k));
      if signal.Went? {
        signal, now := CompleteUnit(transaction, segment, started, binding, i, b, k, receipt);
      }
    }

    /** Record the completion of an applied unit with the receipt of its call. */
    method CompleteUnit(transaction: nat, ghost segment: Segment, ghost started: Durable, binding: Binding, i: nat, b: nat,
                        k: nat, receipt: Option<Receipt>)
      returns (signal: Signal, ghost now: Segment)
      requires UnitStarted(config, started, transaction, segment, i, b, k) && b < OperationCount(INSTALL_STEPS[i])
      requires binding == segment.binding && NoRollback(segment.rows)
      requires Open(config, State(), transaction, segment) && ran == started.ran
      requires host == started.host || host == started.host + {(transaction, UnitAt(config, transaction, i, b, k))}
      requires var unit := UnitAt(config, transaction, i, b, k);
        && ((transaction, unit) in host <==> config.effects(transaction, unit))
        && receipt == if (transaction, unit) in host then Some(OperationReceipt(unit)) else None
      requires Filed()
      modifies this`raw, this`journal, this`env
      ensures Filed()
      ensures Calls(old(env), env, signal, 1, true)
      ensures Open(config, State(), transaction, now) && now.binding == binding && old(journal) <= journal
      ensures NoRollback(now.rows)
      ensures signal.Went? ==> InStep(config, State(), transaction, now, i, b, k + 1)
    {
      UnitMayComplete(config, started, State(), transaction, segment, i, b, k);
      signal, now := Emit(transaction, segment, binding,
                          OperationComplete(UnitAt(config, transaction, i, b, k), receipt));
    }

    /** All units of one base operation; an empty unit roster raises. */
    method RunOperation(transaction: nat, ghost segment: Segment, binding: Binding, i: nat, b: nat)
      returns (signal: Signal, ghost now: Segment)
      requires Valid(config) && InStep(config, State(), transaction, segment, i, b, 0) && binding == segment.binding && NoRollback(segment.rows)
      requires b < OperationCount(INSTALL_STEPS[i])
      requires Filed()
      modifies this`raw, this`journal, this`host, this`env
      ensures Filed()
      ensures Calls(old(env), env, signal, OperationCalls(config, transaction, INSTALL_STEPS[i], b), Staffed(config))
      ensures Open(config, State(), transaction, now) && now.binding == binding && old(journal) <= journal
      ensures NoRollback(now.rows) && ran == old(ran)
      ensures signal.Went? ==> InStep(config, State(), transaction, now, i, b + 1, 0)
    {
      now := segment;
      var units := config.units(transaction, INSTALL_STEPS[i], b);
      if units == [] {
        return Raised, now;
      }
      var k := 0;
      while k < |units|
        invariant k <= |units| && old(journal) <= journal && now.binding == binding && NoRollback(now.rows)
        invariant InStep(config, State(), transaction, now, i, b, k)
        invariant Filed() && Calls(old(env), env, Went, 4 * k, true)
      {
        signal, now := RunUnit(transaction, now, binding, i, b, k);
        if !signal.Went? {
          return signal, now;
        }
        k := k + 1;
      }
      NextBase(config, State(), transaction, now, i, b);
      return Went, now;
    }

    method RunOperations(transaction: nat, ghost segment: Segment, binding: Binding, i: nat)
      returns (signal: Signal, ghost now: Segment)
      requires Valid(config) && InStep(config, State(), transaction, segment, i, 0, 0)
      requires binding == segment.binding && NoRollback(segment.rows)
      requires Filed()
      modifies this`raw, this`journal, this`host, this`env
      ensures Filed()
      ensures Calls(old(env), env, signal, UnitCalls(config, transaction, INSTALL_STEPS[i], OperationCount(INSTALL_STEPS[i])), Staffed(config))
      ensures Open(config, State(), transaction, now) && now.binding == binding && old(journal) <= journal
      ensures NoRollback(now.rows)
      ensures signal.Went? ==> InStep(config, State(), transaction, now, i, OperationCount(INSTALL_STEPS[i]), 0)
    {
      now := segment;
      var b := 0;
      while b < OperationCount(INSTALL_STEPS[i])
        invariant b <= OperationCount(INSTALL_STEPS[i])
        invariant old(journal) <= journal && now.binding == binding && NoRollback(now.rows)
        invariant InStep(config, State(), transaction, now, i, b, 0)
        invariant Filed() && Calls(old(env), env, Went, UnitCalls(config, transaction, INSTALL_STEPS[i], b), true)
      {
        ghost var middle := env;
        signal, now := RunOperation(transaction, now, binding, i, b);
        OperationWithin(config, transaction, INSTALL_STEPS[i], b, OperationCount(INSTALL_STEPS[i]), old(env), middle, env,
                        signal, Staffed(config));
        if !signal.Went? {
          return signal, now;
        }
        b := b + 1;
      }
      return Went, now;
    }

    /** Complete the step with its ownership receipt. */
    method FinishStep(transaction: nat, ghost segment: Segment, binding: Binding, i: nat)
      returns (signal: Signal, ghost now: Segment)
      requires i < |INSTALL_STEPS| && InStep(config, State(), transaction, segment, i, OperationCount(INSTALL_STEPS[i]), 0)
      requires binding == segment.binding && NoRollback(segment.rows)
      requires Filed()
      modifies this`raw, this`journal, this`env
      ensures Filed()
      ensures Calls(old(env), env, signal, 1, true)
      ensures Open(config, State(), transaction, now) && now.binding == binding && old(journal) <= journal
      ensures NoRollback(now.rows)
      ensures signal.Went? ==> BetweenSteps(config, State(), transaction, now, i + 1)
    {
      var step := INSTALL_STEPS[i];
      StepMayComplete(config, State(), transaction, segment, i);
      signal, now := Emit(transaction, segment, binding, StepComplete(step, StepOwnership(step)));
    }

    method StartStep(transaction: nat, ghost segment: Segment, binding: Binding, i: nat)
      returns (signal: Signal, ghost now: Segment)
      requires BetweenSteps(config, State(), transaction, segment, i)
      requires i < |INSTALL_STEPS| && binding == segment.binding && NoRollback(segment.rows)
      requires Filed()
      modifies this`raw, this`journal, this`env
      ensures Filed()
      ensures Calls(old(env), env, signal, 1, true)
      ensures Open(config, State(), transaction, now) && now.binding == binding && old(journal) <= journal
      ensures NoRollback(now.rows)
      ensures signal.Went? ==> InStep(config, State(), transaction, now, i, 0, 0)
    {
      StepMayStart(config, State(), transaction, segment, i);
      signal, now := Emit(transaction, segment, binding, StepStart(INSTALL_STEPS[i]));
    }

    method RunStep(transaction: nat, ghost segment: Segment, binding: Binding, i: nat)
      returns (signal: Signal, ghost now: Segment)
      requires Valid(config) && BetweenSteps(config, State(), transaction, segment, i)
      requires i < |INSTALL_STEPS| && binding == segment.binding && NoRollback(segment.rows)
      requires Filed()
      modifies this`raw, this`journal, this`host, this`env
      ensures Filed()
      ensures Calls(old(env), env, signal, WholeStepCalls(config, transaction, INSTALL_STEPS[i]), Staffed(config))
      ensures Open(config, State(), transaction, now) && now.binding == binding && old(journal) <= journal
      ensures NoRollback(now.rows)
      ensures signal.Went? ==> BetweenSteps(config, State(), transaction, now, i + 1)
    {
      signal, now := StartStep(transaction, segment, binding, i);
      if signal.Went? {
        signal, now := RunOperations(transaction, now, binding, i);
      }
      if signal.Went? {
        signal := Consult();
      }
      if signal.Went? {
        signal, now := FinishStep(transaction, now, binding, i);
      }
    }

    /** One more step, as part of all the steps of a run that began in `begin`. */
    method RunNextStep(transaction: nat, ghost segment: Segment, binding: Binding, i: nat, ghost begin: Env)
      returns (signal: Signal, ghost now: Segment)
      requires Valid(config) && i < |INSTALL_STEPS| && BetweenSteps(config, State(), transaction, segment, i)
      requires binding == segment.binding && NoRollback(segment.rows)
      requires Filed() && Calls(begin, env, Went, StepCalls(config, transaction, i), true)
      modifies this`raw, this`journal, this`host, this`env
      ensures Filed()
      ensures Calls(begin, env, signal, AllStepCalls(config, transaction), Staffed(config))
      ensures signal.Went? ==> Calls(begin, env, Went, StepCalls(config, transaction, i + 1), true)
      ensures Open(config, State(), transaction, now) && now.binding == binding && old(journal) <= journal
      ensures NoRollback(now.rows)
      ensures signal.Went? ==> BetweenSteps(config, State(), transaction, now, i + 1)
    {
      ghost var middle := env;
      signal, now := RunStep(transaction, segment, binding, i);
      StepWithin(config, transaction, i, begin, middle, env, signal, Staffed(config));
    }

    method RunSteps(transaction: nat, ghost segment: Segment, binding: Binding)
      returns (signal: Signal, ghost now: Segment)
      requires Valid(config) && BetweenSteps(config, State(), transaction, segment, 0) && binding == segment.binding && NoRollback(segment.rows)
      requires Filed()
      modifies this`raw, this`journal, this`host, this`env
      ensures Filed()
      ensures Calls(old(env), env, signal, AllStepCalls(config, transaction), Staffed(config))
      ensures Open(config, State(), transaction, now) && now.binding == binding && old(journal) <= journal
      ensures NoRollback(now.rows) && ran == old(ran)
      ensures signal.Went? ==> BetweenSteps(config, State(), transaction, now, |INSTALL_STEPS|)
    {
      now := segment;
      var i := 0;
      while i < |INSTALL_STEPS|
        invariant i <= |INSTALL_STEPS| && old(journal) <= journal && now.binding == binding && NoRollback(now.rows)
        invariant BetweenSteps(config, State(), transaction, now, i)
        invariant Filed() && Calls(old(env), env, Went, StepCalls(config, transaction, i), true)
      {
        signal, now := RunNextStep(transaction, now, binding, i, old(env));
        if !signal.Went? {
          return signal, now;
        }
        i := i + 1;
      }
      return Went, now;
    }

    // -------------------------------------------------------------- recovery

    /** Collect what the rows record; of a sound transaction this never raises. */
    method ReadOwnership(transaction: nat, ghost segment: Segment, rows: seq<Event>)
      returns (v: View, inFlight: Option<Unit>)
      requires Open(config, State(), transaction, segment) && rows == segment.rows
      ensures v == ViewOf(rows)
      ensures inFlight.Some? ==> InFlight(v, inFlight.value)
      ensures inFlight.None? ==> Quiet(config, State(), transaction, segment)
    {
      assert SoundSegment(config, transaction, segment, host, ran);
      var collected := CollectView(rows);
      assert collected.Ok?;
      v := collected.value;
      var unmatched := Unmatched(v);
      assert unmatched.Ok?;
      inFlight := unmatched.value;
    }

    /** Record the completion of the unit in flight with what the host shows.  The reconciler is truthful:
        it answers with a receipt exactly when the effect is on the host. */
    method Reconcile(transaction: nat, ghost segment: Segment, binding: Binding, unit: Unit)
      returns (signal: Signal, event: Event, ghost now: Segment)
      requires Open(config, State(), transaction, segment) && binding == segment.binding
      requires InFlight(ViewOf(segment.rows), unit)
      requires Filed()
      modifies this`raw, this`journal, this`env
      ensures Filed()
      ensures Calls(old(env), env, signal, 1, true)
      ensures Open(config, State(), transaction, now) && now.binding == binding && old(journal) <= journal
      ensures event == Completion(State(), transaction, unit)
      ensures now == segment || now == Longer(segment, event)
      ensures signal.Went? ==> Quiet(config, State(), transaction, now) && ViewOf(now.rows) == AdvanceView(ViewOf(segment.rows), event)
    {
      event := OperationComplete(unit, if (transaction, unit) in host then Some(OperationReceipt(unit)) else None);
      InFlightMayComplete(config, State(), transaction, segment, unit);
      InFlightIsPlanned(config, State(), transaction, segment, unit);
      signal, now := Emit(transaction, segment, binding, event);
    }

    /** Rebuild the durable ownership of a transaction from its rows. */
    method RecoverOwnership(transaction: nat, ghost segment: Segment, rows: seq<Event>, binding: Binding)
      returns (signal: Signal, v: View, ghost now: Segment)
      requires Open(config, State(), transaction, segment) && rows == segment.rows && binding == segment.binding
      requires Filed()
      modifies this`raw, this`journal, this`env
      ensures Filed()
      ensures Calls(old(env), env, signal, 2, true)
      ensures Open(config, State(), transaction, now) && now.binding == binding && old(journal) <= journal
      ensures now == segment
           || (segment.rows <= now.rows && |now.rows| == |segment.rows| + 1 && LastEvent(now).OperationComplete?)
      ensures NothingInFlight(ViewOf(rows)) ==> now == segment
      ensures signal.Went? ==>
                && Quiet(config, State(), transaction, now) && v == ViewOf(now.rows)
                && (forall u :: (transaction, u) in host <==> u in v.done && v.done[u].Some?)
    {
      now, signal := segment, Went;
      var inFlight;
      v, inFlight := ReadOwnership(transaction, segment, rows);
      if inFlight.Some? {
        signal := Consult();
        if signal.Went? {
          var event;
          signal, event, now := Reconcile(transaction, segment, binding, inFlight.value);
          v := AdvanceView(v, event);
        }
      }
      if signal.Went? {
        OwnershipExact(config, State(), transaction, now);
      }
    }

    /** Append one row about a rollback action. */
    method RecordRow(transaction: nat, ghost segment: Segment, binding: Binding, event: Event)
      returns (signal: Signal, ghost now: Segment)
      requires Quiet(config, State(), transaction, segment) && binding == segment.binding && ActionRow(event)
      requires event.RollbackComplete? ==>
                 event.action !in ViewOf(segment.rows).rolledBack && (transaction, event.action) in ran
      requires Filed()
      modifies this`raw, this`journal, this`env
      ensures Filed()
      ensures Calls(old(env), env, signal, 1, true)
      ensures Quiet(config, State(), transaction, now) && now.binding == binding && old(journal) <= journal
      ensures RolledForward(segment, now, ActionOf(event))
      ensures event.RollbackRetainedAmbiguous? ==> OnlyAmbiguous(now.rows, |segment.rows|)
      ensures !event.RollbackComplete? ==> ViewOf(now.rows).rolledBack == ViewOf(segment.rows).rolledBack
      ensures now == segment || now == Longer(segment, event)
      ensures signal.Went? ==> now == Longer(segment, event)
      ensures now != segment && event.RollbackComplete? ==> event.action in ViewOf(now.rows).rolledBack
    {
      RollbackRowKeepsQuiet(config, State(), transaction, segment, event);
      signal, now := Emit(transaction, segment, binding, event);
    }

    /** One action of the rollback table that is not yet rolled back and has effected sources. */
    method RollbackOne(transaction: nat, ghost segment: Segment, binding: Binding, action: RollbackId,
                       effected: set<StepId>, owned: set<StepId>)
      returns (signal: Signal, failures: seq<Failure>, ghost now: Segment)
      requires Quiet(config, State(), transaction, segment) && binding == segment.binding
      requires action !in ViewOf(segment.rows).rolledBack && Sources(action) * effected != {}
      requires effected <= PossiblyEffected(ViewOf(segment.rows))
      requires Filed()
      modifies this`raw, this`journal, this`ran, this`env
      ensures Filed()
      ensures Calls(old(env), env, signal, 3, Sources(action) * effected <= owned)
      ensures Undisturbed(old(env), env) && Sources(action) * effected <= owned ==> failures == []
      ensures Quiet(config, State(), transaction, now) && now.binding == binding && old(journal) <= journal
      ensures RolledForward(segment, now, action)
      ensures ran == old(ran) || (ran == old(ran) + {(transaction, action)} && Sources(action) * effected <= owned)
      ensures Sources(action) * effected <= owned || OnlyAmbiguous(now.rows, |segment.rows|)
      ensures !(Sources(action) * effected <= owned) ==>
                && failures == [Ambiguous(action)] && ran == old(ran)
                && (signal.Went? ==> now.rows == segment.rows + [RollbackRetainedAmbiguous(action)])
      ensures Sources(action) * effected <= owned ==> ActionRecorded(segment.rows, now.rows, action, failures)
      ensures Backend(action) in failures ==> ran == old(ran)
      ensures FailuresExplained(now.rows, |segment.rows|, failures)
      ensures signal.Went? && failures == [] ==>
                && now.rows == segment.rows + [RollbackStart(action), RollbackComplete(action)]
                && (transaction, action) in ran && action in ViewOf(now.rows).rolledBack
    {
      failures := [];
      if !(Sources(action) * effected <= owned) {
        signal, now := RetainAmbiguous(transaction, segment, binding, action);
        return signal, [Ambiguous(action)], now;
      }
      signal, failures, now := StartAndRun(transaction, segment, binding, action);
    }

    /** Record the start of the action, whose failing append is only counted, and run it. */
    method StartAndRun(transaction: nat, ghost segment: Segment, binding: Binding, action: RollbackId)
      returns (signal: Signal, failures: seq<Failure>, ghost now: Segment)
      requires Quiet(config, State(), transaction, segment) && binding == segment.binding
      requires action !in ViewOf(segment.rows).rolledBack && Affected(ViewOf(segment.rows), action)
      requires Filed()
      modifies this`raw, this`journal, this`ran, this`env
      ensures Filed()
      ensures Calls(old(env), env, signal, 3, true)
      ensures Undisturbed(old(env), env) ==> failures == []
      ensures Quiet(config, State(), transaction, now) && now.binding == binding && old(journal) <= journal
      ensures RolledForward(segment, now, action)
      ensures ran == old(ran) || ran == old(ran) + {(transaction, action)}
      ensures ActionRecorded(segment.rows, now.rows, action, failures)
      ensures Backend(action) in failures ==> ran == old(ran)
      ensures signal.Went? && failures == [] ==>
                && now.rows == segment.rows + [RollbackStart(action), RollbackComplete(action)]
                && (transaction, action) in ran && action in ViewOf(now.rows).rolledBack
    {
      failures := [];
      signal, now := RecordRow(transaction, segment, binding, RollbackStart(action));
      if signal.Halted? {
        return;
      }
      if signal.Raised? {
        failures := [JournalStart(action)];
      }
      var more;
      ghost var started := now;
      signal, more, now := RunAndRecord(transaction, now, binding, action);
      RolledForwardTwice(segment, started, now, action);
      RecordedInTurn(segment, started, now, action, more);
      failures := failures + more;
    }

    method RetainAmbiguous(transaction: nat, ghost segment: Segment, binding: Binding, action: RollbackId)
      returns (signal: Signal, ghost now: Segment)
      requires Quiet(config, State(), transaction, segment) && binding == segment.binding
      requires Filed()
      modifies this`raw, this`journal, this`env
      ensures Filed()
      ensures Calls(old(env), env, signal, 1, true)
      ensures Quiet(config, State(), transaction, now) && now.binding == binding && old(journal) <= journal
      ensures RolledForward(segment, now, action) && OnlyAmbiguous(now.rows, |segment.rows|)
      ensures now == segment || now == Longer(segment, RollbackRetainedAmbiguous(action))
      ensures signal.Went? ==> now != segment
    {
      signal, now := RecordRow(transaction, segment, binding, RollbackRetainedAmbiguous(action));
    }

    /** Run the action, then record its outcome; a failing outcome append is only counted. */
    method RunAndRecord(transaction: nat, ghost segment: Segment, binding: Binding, action: RollbackId)
      returns (signal: Signal, failures: seq<Failure>, ghost now: Segment)
      requires Quiet(config, State(), transaction, segment) && binding == segment.binding
      requires action !in ViewOf(segment.rows).rolledBack && Affected(ViewOf(segment.rows), action)
      requires Filed()
      modifies this`raw, this`journal, this`ran, this`env
      ensures Filed()
      ensures Calls(old(env), env, signal, 2, true)
      ensures Undisturbed(old(env), env) ==> failures == []
      ensures Quiet(config, State(), transaction, now) && now.binding == binding && old(journal) <= journal
      ensures RolledForward(segment, now, action)
      ensures ran == old(ran) || ran == old(ran) + {(transaction, action)}
      ensures now == segment || now == Longer(segment, OutcomeRow(action, failures))
      ensures Backend(action) in failures ==> ran == old(ran)
      ensures signal.Went? && Backend(action) !in failures ==> (transaction, action) in ran
      ensures signal.Went? && failures == [] ==> now != segment && action in ViewOf(now.rows).rolledBack
      ensures forall failure :: failure in failures ==> failure in {Backend(action), JournalOutcome(action)}
      ensures !signal.Raised?
    {
      now, failures := segment, [];
      var succeeded;
      signal, succeeded := RunRollback(transaction, segment, action);
      if signal.Halted? {
        return;
      }
      if !succeeded {
        failures := [Backend(action)];
      }
      var outcome := if succeeded then RollbackComplete(action) else RollbackFailed(action);
      signal, now := RecordRow(transaction, segment, binding, outcome);
      if signal.Raised? {
        failures := failures + [JournalOutcome(action)];
        signal := Went;
      }
    }

    /** The backend call of a rollback action; only a success counts as having run. */
    method RunRollback(transaction: nat, ghost segment: Segment, action: RollbackId)
      returns (signal: Signal, succeeded: bool)
      requires Quiet(config, State(), transaction, segment) && Affected(ViewOf(segment.rows), action)
      modifies this`ran, this`env
      ensures Calls(old(env), env, signal, 1, true)
      ensures Undisturbed(old(env), env) && signal.Went? ==> succeeded
      ensures env.refusals == old(env).refusals
      ensures Quiet(config, State(), transaction, segment)
      ensures ran == if signal.Went? && succeeded then old(ran) + {(transaction, action)} else old(ran)
      ensures !signal.Raised?
    {
      QuietIsIdle(config, State(), transaction, segment);
      ActionRan(config, State(), transaction, segment, action);
      succeeded := false;
      var fate := Draw();
      if fate.None? {
        return Halted, succeeded;
      }
      if fate.value.answer == Done {
        ran := ran + {(transaction, action)};
        succeeded := true;
      }
      return Went, succeeded;
    }

    /** The table position `index` of a pass. */
    method RollbackAt(transaction: nat, ghost segment: Segment, ghost so: Segment, binding: Binding, ghost ran0: set<(nat, RollbackId)>,
                      effected: set<StepId>, owned: set<StepId>, already: set<RollbackId>, index: nat)
      returns (signal: Signal, failures: seq<Failure>, ghost now: Segment)
      requires index < |ROLLBACK_TABLE| && Quiet(config, State(), transaction, so) && binding == so.binding
      requires already == ViewOf(segment.rows).rolledBack && effected <= PossiblyEffected(ViewOf(segment.rows))
      requires Pass(transaction, segment, so, ran0, ran, effected, owned, already, index)
      requires Filed()
      modifies this`raw, this`journal, this`ran, this`env
      ensures Filed()
      ensures Calls(old(env), env, signal, 3, effected <= owned)
      ensures Undisturbed(old(env), env) && effected <= owned ==> failures == []
      ensures Quiet(config, State(), transaction, now) && now.binding == binding && old(journal) <= journal
      ensures Pass(transaction, segment, now, ran0, ran, effected, owned, already, index + 1)
      ensures old(ran) <= ran
      ensures so.rows <= now.rows && FailuresExplained(now.rows, |so.rows|, failures)
      ensures signal.Went? && failures == [] && Served(ViewOf(so.rows).rolledBack, effected, already, index)
          ==> Served(ViewOf(now.rows).rolledBack, effected, already, index + 1)
    {
      var action := ROLLBACK_TABLE[index];
      TableIndexOf(index);
      ghost var before := ran;
      now, failures, signal := so, [], Went;
      if action !in already && Sources(action) * effected != {} {
        PassNotYet(transaction, segment, so, ran0, ran, effected, owned, already, index);
        signal, failures, now := RollbackOne(transaction, so, binding, action, effected, owned);
        PassAdvances(transaction, segment, so, now, ran0, before, ran, effected, owned, already, index);
      } else {
        PassSkips(transaction, segment, so, ran0, ran, effected, owned, already, index);
      }
    }

    /** One pass over the rollback table. */
    method RollbackAttempts(transaction: nat, ghost segment: Segment, binding: Binding,
                            effected: set<StepId>, owned: set<StepId>, already: set<RollbackId>)
      returns (signal: Signal, failures: seq<Failure>, ghost now: Segment)
      requires Quiet(config, State(), transaction, segment) && binding == segment.binding
      requires already == ViewOf(segment.rows).rolledBack && effected <= PossiblyEffected(ViewOf(segment.rows))
      requires Filed()
      modifies this`raw, this`journal, this`ran, this`env
      ensures Filed()
      ensures Calls(old(env), env, signal, PASS_CALLS, effected <= owned)
      ensures Undisturbed(old(env), env) && effected <= owned ==> failures == []
      ensures Quiet(config, State(), transaction, now) && now.binding == binding && old(journal) <= journal
      ensures Pass(transaction, segment, now, old(ran), ran, effected, owned, already, |ROLLBACK_TABLE|)
      ensures segment.rows <= now.rows && FailuresExplained(now.rows, |segment.rows|, failures)
      ensures signal.Went? && failures == [] ==>
                Served(ViewOf(now.rows).rolledBack, effected, already, |ROLLBACK_TABLE|)
    {
      now, failures, signal := segment, [], Went;
      PassHolds(transaction, segment, segment, ran, ran, effected, owned, already, 0);
      var index := 0;
      while index < |ROLLBACK_TABLE| && signal.Went?
        invariant index <= |ROLLBACK_TABLE| && old(journal) <= journal && now.binding == binding
        invariant Filed() && Quiet(config, State(), transaction, now)
        invariant Pass(transaction, segment, now, old(ran), ran, effected, owned, already, index)
        invariant segment.rows <= now.rows && FailuresExplained(now.rows, |segment.rows|, failures)
        invariant signal.Went? && failures == [] ==> Served(ViewOf(now.rows).rolledBack, effected, already, index)
        invariant Calls(old(env), env, signal, 3 * index, effected <= owned)
        invariant Undisturbed(old(env), env) && effected <= owned ==> failures == []
      {
        var more;
        ghost var so := now;
        signal, more, now := RollbackAt(transaction, segment, now, binding, old(ran), effected, owned, already, index);
        FailuresAdd(segment.rows, so.rows, now.rows, failures, more);
        failures := failures + more;
        index := index + 1;
      }
      PassWidens(transaction, segment, now, old(ran), ran, effected, owned, already, index);
    }

    /** Close the recovery: complete when no action failed, failed otherwise. */
    method Conclude(transaction: nat, ghost segment: Segment, binding: Binding, failures: seq<Failure>)
      returns (signal: Signal, ghost now: Segment)
      requires Quiet(config, State(), transaction, segment) && binding == segment.binding
      requires failures == [] ==> Settled(transaction, ViewOf(segment.rows), ran)
      requires Filed()
      modifies this`raw, this`journal, this`env
      ensures Filed()
      ensures Calls(old(env), env, signal, 1, true)
      ensures Inv(config, State()) && old(journal) <= journal
      ensures |SegmentsOf(config, State())| == transaction && SegmentsOf(config, State())[transaction - 1] == now
      ensures segment.rows <= now.rows && ViewOf(now.rows) == ViewOf(segment.rows)
      ensures now == segment
           || (|now.rows| == |segment.rows| + 1 && (LastEvent(now).RecoveryComplete? || LastEvent(now).RecoveryFailed?))
      ensures signal.Went? ==> LastEvent(now) == if failures == [] then RecoveryComplete else RecoveryFailed
    {
      var event := if failures == [] then RecoveryComplete else RecoveryFailed;
      RecoveryMayEnd(config, State(), transaction, segment, event);
      signal, now := Emit(transaction, segment, binding, event);
    }

    /** Work off the table on what the rows own. */
    method PassOwned(transaction: nat, ghost segment: Segment, v: View, binding: Binding, already: set<RollbackId>)
      returns (signal: Signal, failures: seq<Failure>, ghost now: Segment)
      requires Quiet(config, State(), transaction, segment) && v == ViewOf(segment.rows) && binding == segment.binding
      requires already == v.rolledBack
      requires Filed()
      modifies this`raw, this`journal, this`ran, this`env
      ensures Filed()
      ensures Calls(old(env), env, signal, PASS_CALLS, true)
      ensures Undisturbed(old(env), env) ==> failures == []
      ensures Quiet(config, State(), transaction, now) && now.binding == binding && old(journal) <= journal
      ensures segment.rows <= now.rows && PassFrom(segment.rows, now.rows)
      ensures Unfinished(ViewOf(now.rows)) <= Unfinished(v)
      ensures FailuresExplained(now.rows, |segment.rows|, failures)
      ensures signal.Went? && failures == [] ==> Settled(transaction, ViewOf(now.rows), ran)
    {
      var effected := PossiblyEffected(v);
      signal, failures, now := RollbackAttempts(transaction, segment, binding, effected, effected, already);
      OwnedPassDone(transaction, segment, now, old(ran), ran, v);
      ServedIsSettled(config, State(), transaction, now, already);
    }

    /** Roll back what the rows own, and conclude; `passed` tells that the table was worked off. */
    method RollBackOwned(transaction: nat, ghost segment: Segment, v: View, binding: Binding, already: set<RollbackId>)
      returns (signal: Signal, failures: seq<Failure>, passed: bool, ghost now: Segment)
      requires Quiet(config, State(), transaction, segment) && v == ViewOf(segment.rows) && binding == segment.binding
      requires already == v.rolledBack
      requires Filed()
      modifies this`raw, this`journal, this`ran, this`env
      ensures Filed()
      ensures Calls(old(env), env, signal, PASS_CALLS + 1, true)
      ensures Undisturbed(old(env), env) ==> failures == []
      ensures Inv(config, State()) && old(journal) <= journal
      ensures |SegmentsOf(config, State())| == transaction && SegmentsOf(config, State())[transaction - 1] == now
      ensures segment.rows <= now.rows && Unfinished(ViewOf(now.rows)) <= Unfinished(v)
      ensures PassAndConclusion(segment.rows, now.rows)
      ensures signal.Went? ==> LastEvent(now) == if failures == [] then RecoveryComplete else RecoveryFailed
    {
      passed := false;
      signal, failures, now := PassOwned(transaction, segment, v, binding, already);
      ghost var middle := now;
      if signal.Went? {
        passed := true;
        signal, now := Conclude(transaction, now, binding, failures);
      }
      PassThenConclusion(segment.rows, middle.rows, now.rows);
    }

    /** Reconcile, roll back and conclude: what recovery and a failed execution have in common. */
    method RollBack(transaction: nat, ghost segment: Segment, rows: seq<Event>, binding: Binding, already: set<RollbackId>)
      returns (signal: Signal, failures: seq<Failure>, passed: bool, ghost now: Segment)
      requires Open(config, State(), transaction, segment) && rows == segment.rows && binding == segment.binding
      requires already == ViewOf(rows).rolledBack
      requires Filed()
      modifies this`raw, this`journal, this`ran, this`env
      ensures Filed()
      ensures Calls(old(env), env, signal, ROLLBACK_CALLS, true)
      ensures Undisturbed(old(env), env) ==> failures == []
      ensures Inv(config, State()) && old(journal) <= journal
      ensures |SegmentsOf(config, State())| == transaction && SegmentsOf(config, State())[transaction - 1] == now
      ensures RolledBackFrom(segment.rows, now.rows)
      ensures signal.Went? ==> LastEvent(now) == if failures == [] then RecoveryComplete else RecoveryFailed
      ensures NothingInFlight(ViewOf(rows)) ==> Unfinished(ViewOf(now.rows)) <= Unfinished(ViewOf(rows))
    {
      var v;
      failures, passed := [], false;
      signal, v, now := RecoverOwnership(transaction, segment, rows, binding);
      ViewOfCompletion(segment, now);
      CompletionOnly(segment.rows, now.rows);
      ghost var middle := now;
      if signal.Went? {
        signal, failures, passed, now := RollBackOwned(transaction, now, v, binding, already);
        CompletionThenPass(segment.rows, middle.rows, now.rows);
      }
    }

    /** Read the journal back, dropping a torn tail.  What this installer wrote is never refused, unless
        it has outgrown the record cap. */
    method ReadSegments() returns (result: Result<seq<Segment>, TransitionJournal.JournalError>)
      requires Inv(config, State()) && Filed()
      modifies this`raw, this`env
      ensures Filed()
      ensures result.Ok? <==> |journal| <= TransitionJournal.MAX_RECORDS
      ensures result.Ok? ==> result.value == SegmentsOf(config, State()) && env == old(env)
      ensures result.Err? ==> raw == old(raw) && env == old(env).(refusals := old(env).refusals + [Unreadable])
    {
      StoredJournalIsRead(config, State(), codec, raw);
      var read, after := TransitionJournal.ReadFrom(codec, raw, true);
      if read.Err? {
        assert Explained(config, codec, journal, env.own, Unreadable);
        env := env.(refusals := env.refusals + [Unreadable]);
        return Err(read.error);
      }
      ReadingOnFile(codec, raw, journal, read.value);
      raw := after;
      var segments := JournalSegments(TransitionJournal.PayloadsOf(codec, read.value));
      return Ok(segments.value);
    }

    /** Replay the journal and finish the rollback of an unfinished transaction. */
    method Recover(binding: Binding, checkFile: bool) returns (outcome: Outcome)
      requires Inv(config, State()) && Filed()
      modifies this`raw, this`journal, this`ran, this`env
      ensures Inv(config, State()) && Filed() && old(journal) <= journal && Passed(old(env), env)
      ensures Locked(old(journal)) ==> outcome.JournalRaised? && State() == old(State()) && env.refusals != old(env).refusals
      ensures !Locked(old(journal)) ==>
                RecoveryReport(old(SegmentsOf(config, State())), SegmentsOf(config, State()), outcome)
      ensures outcome.Clean? || outcome.BindingRefused? || outcome.AlreadyComplete? ==> State() == old(State())
      ensures !Locked(old(journal)) ==>
                (outcome.BindingRefused? <==> RefusedBinding(old(SegmentsOf(config, State())), binding, checkFile))
      ensures outcome.AlreadyComplete? ==> PlanApplied(old(SegmentsOf(config, State())))
      ensures outcome.RolledBack? ==> EffectsUndone(config, State())
      ensures AllAccounted(config, State())
      ensures !outcome.Complete? && !outcome.CompletedPlanForbidden? && !outcome.RecoveryRequired? && !outcome.TransactionFailed?
      ensures Undisturbed(old(env), env) && !outcome.BindingRefused? ==>
                outcome.Clean? || outcome.AlreadyComplete? || outcome.RolledBack? || outcome.Stopped?
      ensures outcome.Stopped? ==> env.fates == []
      ensures Suffices(old(env).fates, ROLLBACK_CALLS) ==> !outcome.Stopped?
    {
      var read := ReadSegments();
      if read.Err? {
        InvAccounts(config, State());
        return JournalRaised;
      }
      outcome := RecoverRead(read.value, binding, checkFile);
      if outcome.RolledBack? {
        RecoveredIsUndone(config, State());
      }
      InvAccounts(config, State());
    }

    /** Recovery behind the reading. */
    method RecoverRead(segments: seq<Segment>, binding: Binding, checkFile: bool) returns (outcome: Outcome)
      requires Inv(config, State()) && segments == SegmentsOf(config, State())
      requires Filed()
      modifies this`raw, this`journal, this`ran, this`env
      ensures Filed() && Passed(old(env), env)
      ensures Inv(config, State()) && old(journal) <= journal
      ensures RecoveryReport(segments, SegmentsOf(config, State()), outcome)
      ensures outcome.Clean? || outcome.BindingRefused? || outcome.AlreadyComplete? ==> journal == old(journal) && ran == old(ran)
      ensures outcome.BindingRefused? <==> RefusedBinding(segments, binding, checkFile)
      ensures outcome.AlreadyComplete? ==> PlanApplied(segments)
      ensures !outcome.Complete? && !outcome.CompletedPlanForbidden? && !outcome.RecoveryRequired? && !outcome.TransactionFailed?
      ensures Undisturbed(old(env), env) && !outcome.BindingRefused? ==>
                outcome.Clean? || outcome.AlreadyComplete? || outcome.RolledBack? || outcome.Stopped?
      ensures outcome.Stopped? ==> env.fates == []
      ensures Suffices(old(env).fates, ROLLBACK_CALLS) ==> !outcome.Stopped?
    {
      if segments == [] {
        UntouchedReport(segments, Clean);
        return Clean;
      }
      var last := segments[|segments| - 1];
      if RefusedBinding(segments, binding, checkFile) {
        UntouchedReport(segments, BindingRefused);
        return BindingRefused;
      }
      if LastEvent(last).PlanComplete? {
        UntouchedReport(segments, AlreadyComplete);
        return AlreadyComplete;
      }
      if LastEvent(last).RecoveryComplete? {
        UntouchedReport(segments, RolledBack);
        return RolledBack;
      }
      outcome := RecoverOpen(|segments|, last);
    }

    /** Recover the unfinished last transaction. */
    method RecoverOpen(transaction: nat, segment: Segment) returns (outcome: Outcome)
      requires Open(config, State(), transaction, segment)
      requires Filed()
      modifies this`raw, this`journal, this`ran, this`env
      ensures Filed()
      ensures Inv(config, State()) && old(journal) <= journal
      ensures outcome.RolledBack? || outcome.RecoveryFailures? || outcome.Stopped? || outcome.JournalRaised?
      ensures Undisturbed(old(env), env) ==> outcome.RolledBack? || outcome.Stopped?
      ensures Passed(old(env), env)
      ensures outcome.Stopped? ==> env.fates == []
      ensures Suffices(old(env).fates, ROLLBACK_CALLS) ==> !outcome.Stopped?
      ensures RecoveryReport(old(SegmentsOf(config, State())), SegmentsOf(config, State()), outcome)
    {
      ghost var before := SegmentsOf(config, State());
      var already := RolledBackActions(segment.rows);
      var signal, failures, passed;
      ghost var now;
      signal, failures, passed, now := RollBack(transaction, segment, segment.rows, segment.binding, already);
      outcome := RecoveryOutcome(signal, failures);
      WorkedReport(before, SegmentsOf(config, State()), segment, now, outcome);
    }

    method RolledBackActions(rows: seq<Event>) returns (actions: set<RollbackId>)
      ensures actions == ViewOf(rows).rolledBack
    {
      actions := {};
      var n := 0;
      while n < |rows|
        invariant n <= |rows|
        invariant actions == ViewTo(rows, n).rolledBack
      {
        if rows[n].RollbackComplete? {
          actions := actions + {rows[n].action};
        }
        n := n + 1;
      }
    }

    /** What an execution does with a transaction it finds unfinished: recover it, and start nothing. */
    method RecoverFirst(binding: Binding) returns (outcome: Outcome)
      requires Inv(config, State()) && LeftOpen(SegmentsOf(config, State())) && !Locked(journal)
      requires Filed()
      modifies this`raw, this`journal, this`ran, this`env
      ensures Filed() && Passed(old(env), env)
      ensures Inv(config, State()) && old(journal) <= journal
      ensures outcome in {RecoveryRequired, BindingRefused, JournalRaised, Stopped} || outcome.RecoveryFailures?
      ensures var before, now := old(SegmentsOf(config, State())), SegmentsOf(config, State());
              |now| == |before| && RolledBackFrom(before[|before| - 1].rows, now[|before| - 1].rows)
      ensures outcome.RecoveryRequired? ==> EndsRecovered(SegmentsOf(config, State())) && EffectsUndone(config, State())
      ensures outcome.BindingRefused? <==> RefusedBinding(old(SegmentsOf(config, State())), binding, true)
      ensures Undisturbed(old(env), env) && !outcome.BindingRefused? ==> outcome.RecoveryRequired? || outcome.Stopped?
      ensures outcome.Stopped? ==> env.fates == []
      ensures Suffices(old(env).fates, ROLLBACK_CALLS) ==> !outcome.Stopped?
    {
      var recovery := Recover(binding, true);
      outcome := if recovery.RolledBack? then RecoveryRequired else recovery;
    }

    /** One run of the installer over the durable state an earlier run left. */
    method Execute(binding: Binding) returns (outcome: Outcome)
      requires Valid(config) && Inv(config, State()) && Filed() && binding == env.own
      modifies this`raw, this`journal, this`host, this`ran, this`env
      ensures Inv(config, State()) && Filed() && old(journal) <= journal && Passed(old(env), env)
      ensures Locked(old(journal)) ==> outcome.JournalRaised? && State() == old(State()) && env.refusals != old(env).refusals
      ensures !Locked(old(journal)) ==>
                ExecutionReport(config, old(SegmentsOf(config, State())), State(), binding, outcome)
      ensures AllAccounted(config, State())
      ensures PlanApplied(old(SegmentsOf(config, State()))) ==> State() == old(State())
      ensures Undisturbed(old(env), env) && Staffed(config) ==>
                && !Failing(outcome)
                && (Startable(old(SegmentsOf(config, State()))) ==> outcome.Complete? || outcome.Stopped?)
      ensures outcome.Stopped? ==> env.fates == []
      ensures Suffices(old(env).fates, ExecutionCalls(config, |old(SegmentsOf(config, State()))| + 1)) ==> !outcome.Stopped?
    {
      var read := ReadSegments();
      if read.Err? {
        InvAccounts(config, State());
        return JournalRaised;
      }
      outcome := ExecuteRead(read.value, binding);
      InvAccounts(config, State());
    }

    /** Execution behind the reading. */
    method ExecuteRead(segments: seq<Segment>, binding: Binding) returns (outcome: Outcome)
      requires Valid(config) && Inv(config, State()) && segments == SegmentsOf(config, State()) && !Locked(journal)
      requires Filed() && binding == env.own
      modifies this`raw, this`journal, this`host, this`ran, this`env
      ensures Filed() && Passed(old(env), env)
      ensures Inv(config, State()) && old(journal) <= journal
      ensures ExecutionReport(config, segments, State(), binding, outcome)
      ensures PlanApplied(segments) ==> State() == old(State())
      ensures Undisturbed(old(env), env) && Staffed(config) ==>
                !Failing(outcome) && (Startable(segments) ==> outcome.Complete? || outcome.Stopped?)
      ensures outcome.Stopped? ==> env.fates == []
      ensures Suffices(old(env).fates, ExecutionCalls(config, |segments| + 1)) ==> !outcome.Stopped?
    {
      if PlanApplied(segments) {
        return if AppliedAs(segments, binding) then AlreadyComplete else CompletedPlanForbidden;
      }
      if LeftOpen(segments) {
        outcome := RecoverFirst(binding);
      } else {
        outcome := Transact(|segments| + 1, binding);
      }
    }

    /** A fresh transaction: all steps, or the failure path when one of them raises. */
    method Transact(transaction: nat, binding: Binding) returns (outcome: Outcome)
      requires Valid(config) && Inv(config, State()) && transaction == |SegmentsOf(config, State())| + 1
      requires var segments := SegmentsOf(config, State());
               segments != [] ==> LastEvent(segments[|segments| - 1]).RecoveryComplete?
      requires Filed() && binding == env.own
      modifies this`raw, this`journal, this`host, this`ran, this`env
      ensures Filed()
      ensures Inv(config, State()) && old(journal) <= journal
      ensures outcome.Complete? ==> Installed(config, State(), transaction, binding)
      ensures outcome in {Complete, JournalRaised, Stopped} || outcome.TransactionFailed?
      ensures Passed(old(env), env)
      ensures StartedAtMost(old(SegmentsOf(config, State())), SegmentsOf(config, State()))
      ensures Undisturbed(old(env), env) && Staffed(config) ==> outcome.Complete? || outcome.Stopped?
      ensures outcome.Stopped? ==> env.fates == []
      ensures Suffices(old(env).fates, ExecutionCalls(config, transaction)) ==> !outcome.Stopped?
    {
      StartTransaction(config, State(), binding);
      assert Unrolled(transaction, ran);
      SegmentsRooted(journal, |journal|);
      var signal := Append(transaction, binding, TransactionStart);
      NoRollbackYet([]);
      if !signal.Went? {
        return if signal.Halted? then Stopped else JournalRaised;
      }
      FreshTransaction(config, State(), transaction, Segment(binding, []));
      outcome := RunTransaction(transaction, Segment(binding, []), binding);
    }

    /** The steps of a started transaction, and the failure path. */
    method RunTransaction(transaction: nat, ghost start: Segment, binding: Binding) returns (outcome: Outcome)
      requires Valid(config) && BetweenSteps(config, State(), transaction, start, 0) && binding == start.binding
      requires NoRollback(start.rows)
      requires Filed()
      modifies this`raw, this`journal, this`host, this`ran, this`env
      ensures Filed()
      ensures Inv(config, State()) && old(journal) <= journal
      ensures outcome.Complete? ==> Installed(config, State(), transaction, binding)
      ensures outcome in {Complete, JournalRaised, Stopped} || outcome.TransactionFailed?
      ensures Passed(old(env), env)
      ensures |SegmentsOf(config, State())| == transaction && OneRollback(SegmentsOf(config, State())[transaction - 1].rows)
      ensures Undisturbed(old(env), env) && Staffed(config) ==> outcome.Complete? || outcome.Stopped?
      ensures outcome.Stopped? ==> env.fates == []
      ensures Suffices(old(env).fates, AllStepCalls(config, transaction) + ROLLBACK_CALLS) ==> !outcome.Stopped?
    {
      var signal;
      ghost var segment;
      signal, segment := RunSteps(transaction, start, binding);
      match signal {
        case Halted =>
          NoRollbackYet(segment.rows);
          outcome := Stopped;
        case Raised =>
          outcome := FailTransaction(transaction, segment, binding);
        case Went =>
          outcome := FinishPlan(transaction, segment, binding);
          NoRollbackYet(SegmentsOf(config, State())[transaction - 1].rows);
      }
    }

    method FinishPlan(transaction: nat, ghost segment: Segment, binding: Binding) returns (outcome: Outcome)
      requires BetweenSteps(config, State(), transaction, segment, |INSTALL_STEPS|) && binding == segment.binding
      requires NoRollback(segment.rows)
      requires Filed()
      modifies this`raw, this`journal, this`env
      ensures Filed()
      ensures Inv(config, State()) && old(journal) <= journal
      ensures outcome.Complete? ==> Installed(config, State(), transaction, binding)
      ensures outcome in {Complete, JournalRaised, Stopped}
      ensures Passed(old(env), env)
      ensures |SegmentsOf(config, State())| == transaction && NoRollback(SegmentsOf(config, State())[transaction - 1].rows)
      ensures Undisturbed(old(env), env) ==> outcome.Complete? || outcome.Stopped?
      ensures outcome.Stopped? ==> env.fates == []
      ensures Suffices(old(env).fates, 1) ==> !outcome.Stopped?
    {
      PlanMayComplete(config, State(), transaction, segment);
      var signal;
      ghost var now;
      signal, now := Emit(transaction, segment, binding, PlanComplete);
      match signal {
        case Halted => outcome := Stopped;
        case Raised => outcome := JournalRaised;
        case Went => outcome := Complete;
      }
    }

    /** The exception handler of an execution: read the journal back, reconcile and roll back. */
    method FailTransaction(transaction: nat, ghost segment: Segment, binding: Binding) returns (outcome: Outcome)
      requires Open(config, State(), transaction, segment) && NoRollback(segment.rows) && binding == segment.binding
      requires Filed()
      modifies this`raw, this`journal, this`ran, this`env
      ensures Filed()
      ensures Inv(config, State()) && old(journal) <= journal
      ensures outcome.TransactionFailed? || outcome.Stopped? || outcome.JournalRaised?
      ensures Passed(old(env), env)
      ensures |SegmentsOf(config, State())| == transaction
      ensures RolledBackFrom(segment.rows, SegmentsOf(config, State())[transaction - 1].rows)
      ensures Undisturbed(old(env), env) ==> outcome == TransactionFailed([]) || outcome.Stopped?
      ensures outcome.Stopped? ==> env.fates == []
      ensures Suffices(old(env).fates, ROLLBACK_CALLS) ==> !outcome.Stopped?
      ensures outcome.TransactionFailed? && !EndsUnrecorded(outcome.failures)
          ==> var now := SegmentsOf(config, State());
              |now| == transaction
              && LastEvent(now[transaction - 1]) == if outcome.failures == [] then RecoveryComplete else RecoveryFailed
    {
      var read := ReadSegments();
      if read.Err? {
        NothingAdded(segment.rows);
        return JournalRaised;
      }
      var rows := read.value[|read.value| - 1].rows;
      NothingRolledBack(rows, |rows|);
      var signal, failures, passed;
      ghost var now;
      signal, failures, passed, now := RollBack(transaction, segment, rows, binding, {});
      match signal {
        case Halted => outcome := Stopped;
        case Raised =>
          outcome := if passed then TransactionFailed(failures + [TerminalJournal]) else JournalRaised;
        case Went => outcome := TransactionFailed(failures);
      }
    }

    /** Any sequence of runs and recoveries over the file, each stopped at any call or inside any append.
        The file then holds the journal of a sound history, reads back as it while the record cap lasts,
        and accounts for every effect and every rollback action on the host.  A run whose calls all succeed
        fails only when the journal is crowded, and stops only when it has less fates than calls to make. */
    method Live(runs: seq<Run>) returns (outcomes: seq<Outcome>)
      requires Valid(config) && Inv(config, State()) && Filed() && AllPhased(SegmentsOf(config, State()))
      modifies this
      ensures Inv(config, State()) && Filed() && old(journal) <= journal
      ensures AllPhased(SegmentsOf(config, State()))
      ensures ReadBack(config, State(), codec, raw) && AllAccounted(config, State())
      ensures |outcomes| == |runs|
      ensures Staffed(config) ==>
                forall i :: 0 <= i < |runs| ==>
                  Fair(config, codec, journal, |SegmentsOf(config, State())|, runs[i], outcomes[i])
    {
      outcomes := [];
      while |outcomes| < |runs|
        invariant |outcomes| <= |runs|
        invariant Inv(config, State()) && Filed() && old(journal) <= journal
        invariant AllPhased(SegmentsOf(config, State()))
        invariant Staffed(config) ==>
                    AllFair(config, codec, journal, |SegmentsOf(config, State())|, runs, outcomes)
      {
        ghost var before := State();
        var outcome := Rerun(runs[|outcomes|]);
        GrownSegments(config, before, State());
        FairGrows(config, codec, before.journal, journal, |SegmentsOf(config, before)|, |SegmentsOf(config, State())|, runs,
                  outcomes);
        outcomes := outcomes + [outcome];
      }
      StoredJournalIsRead(config, State(), codec, raw);
      InvAccounts(config, State());
    }

    /** One run over what the earlier ones left. */
    method Rerun(run: Run) returns (outcome: Outcome)
      requires Valid(config) && Inv(config, State()) && Filed() && AllPhased(SegmentsOf(config, State()))
      modifies this
      ensures Inv(config, State()) && Filed() && old(journal) <= journal
      ensures AllPhased(SegmentsOf(config, State()))
      ensures Staffed(config) ==>
                Fair(config, codec, journal, |SegmentsOf(config, State())|, run, outcome)
    {
      ghost var before := State();
      Begin(run.binding, run.fates);
      match run {
        case Executing(binding, _) =>
          outcome := Execute(binding);
          ExecutionKeepsPhases(config, before, State(), binding, outcome);
        case Recovering(binding, _) =>
          outcome := Recover(binding, false);
          RecoveryKeepsPhases(config, before, State(), outcome);
      }
      GrownSegments(config, before, State());
      assert ExecutionCalls(config, 1) >= ROLLBACK_CALLS;
      if env.refusals != [] {
        RefusedIsCrowded(config, codec, journal, env.own, env.refusals);
      }
    }

    /** A process starts, with no refusals so far. */
    method Begin(binding: Binding, fates: seq<Fate>)
      requires Filed()
      modifies this`env
      ensures Filed() && env == Env(binding, fates, [])
    {
      env := Env(binding, fates, []);
    }

    /** One execution, from its start on. */
    method ExecuteAs(binding: Binding, fates: seq<Fate>) returns (outcome: Outcome)
      requires Valid(config) && Staffed(config) && Inv(config, State()) && Filed()
      modifies this
      ensures Inv(config, State()) && Filed() && old(journal) <= journal
      ensures Suffices(fates, ExecutionCalls(config, |old(SegmentsOf(config, State()))| + 1))
              && !Crowded(config, codec, journal, binding) ==>
                Achieved(config, old(SegmentsOf(config, State())), State(), binding, outcome)
    {
      Begin(binding, fates);
      outcome := Execute(binding);
      if env.refusals != [] {
        RefusedIsCrowded(config, codec, journal, binding, env.refusals);
      }
    }

    /** Whatever earlier runs have left, one execution or two, the first of which then recovers, install the
        plan: their calls must succeed, the journal must not be crowded, and what is left must be neither
        an applied plan nor an unfinished transaction of another one. */
    method Install(binding: Binding, first: seq<Fate>, second: seq<Fate>) returns (outcome: Outcome)
      requires Valid(config) && Staffed(config) && Inv(config, State()) && Filed()
      modifies this
      ensures Inv(config, State()) && Filed() && old(journal) <= journal
      ensures var before := old(SegmentsOf(config, State()));
        var calls := ExecutionCalls(config, |before| + 1);
        && Suffices(first, calls) && Suffices(second, calls) && !Crowded(config, codec, journal, binding)
        && !PlanApplied(before) && !(LeftOpen(before) && RefusedBinding(before, binding, true)) ==>
          outcome == Complete && Installed(config, State(), |before| + 1, binding)
    {
      outcome := ExecuteAs(binding, first);
      if outcome.RecoveryRequired? {
        ghost var middle := journal;
        outcome := ExecuteAs(binding, second);
        CrowdedStays(config, codec, middle, journal, binding);
      }
    }
  }

  /** What an undisturbed execution with enough fates achieves. */
  ghost predicate Achieved(config: Config, before: seq<Segment>, d: Durable, binding: Binding, outcome: Outcome)
    requires Inv(config, d)
  {
    && (Startable(before) ==> outcome == Complete && Installed(config, d, |before| + 1, binding))
    && (LeftOpen(before) && !RefusedBinding(before, binding, true) ==>
          outcome == RecoveryRequired && EndsRecovered(SegmentsOf(config, d)) && |SegmentsOf(config, d)| == |before|)
  }

  /** A run whose calls all succeed fails only in a crowded journal; with enough fates it is not stopped
      either.  `most` bounds the transactions it may have found. */
  ghost predicate Fair(config: Config, codec: TransitionJournal.Codec, journal: seq<Payload>, most: nat, run: Run,
                       outcome: Outcome)
  {
    Smooth(run.fates) && !Crowded(config, codec, journal, run.binding) ==>
      && !Failing(outcome)
      && ((forall t :: 1 <= t <= most + 1 ==> |run.fates| >= ExecutionCalls(config, t)) ==> !outcome.Stopped?)
  }

  ghost predicate AllFair(config: Config, codec: TransitionJournal.Codec, journal: seq<Payload>, most: nat, runs: seq<Run>,
                          outcomes: seq<Outcome>)
    requires |outcomes| <= |runs|
  {
    forall i :: 0 <= i < |outcomes| ==> Fair(config, codec, journal, most, runs[i], outcomes[i])
  }

  lemma CrowdedStays(config: Config, codec: TransitionJournal.Codec, journal: seq<Payload>, more: seq<Payload>, own: Binding)
    requires journal <= more
    ensures Crowded(config, codec, journal, own) ==> Crowded(config, codec, more, own)
  {
    if Crowded(config, codec, journal, own) {
      CrowdedGrows(config, codec, journal, more, own);
    }
  }

  lemma FairGrows(config: Config, codec: TransitionJournal.Codec, journal: seq<Payload>, more: seq<Payload>, few: nat,
                  most: nat, runs: seq<Run>, outcomes: seq<Outcome>)
    requires journal <= more && few <= most && |outcomes| <= |runs|
    ensures AllFair(config, codec, journal, few, runs, outcomes) ==> AllFair(config, codec, more, most, runs, outcomes)
  {
    if AllFair(config, codec, journal, few, runs, outcomes) {
      forall i | 0 <= i < |outcomes|
        ensures Fair(config, codec, more, most, runs[i], outcomes[i])
      {
        assert Fair(config, codec, journal, few, runs[i], outcomes[i]);
        CrowdedStays(config, codec, journal, more, runs[i].binding);
      }
    }
  }

  lemma GrownSegments(config: Config, d: Durable, now: Durable)
    requires Inv(config, d) && Inv(config, now) && d.journal <= now.journal
    ensures var earlier, later := SegmentsOf(config, d), SegmentsOf(config, now);
      && |earlier| <= |later|
      && (forall i :: 0 <= i < |earlier| - 1 ==> later[i] == earlier[i])
      && (earlier != [] && Terminal(LastEvent(earlier[|earlier| - 1])) ==> later[|earlier| - 1] == earlier[|earlier| - 1])
  {
    SegmentsGrow(now.journal, |d.journal|, |now.journal|);
    SegmentsPrefix(d.journal, now.journal, |d.journal|);
  }

  lemma PhasesKept(earlier: seq<Segment>, later: seq<Segment>)
    requires AllPhased(earlier) && |earlier| <= |later| <= |earlier| + 1
    requires forall i :: 0 <= i < |earlier| - 1 ==> later[i] == earlier[i]
    requires earlier != [] ==> RolledBackFrom(earlier[|earlier| - 1].rows, later[|earlier| - 1].rows)
    requires |later| > |earlier| ==> OneRollback(later[|earlier|].rows)
    ensures AllPhased(later)
  {
    if earlier != [] {
      PhasedExtends(earlier[|earlier| - 1].rows, later[|earlier| - 1].rows);
    }
    if |later| > |earlier| {
      var base :| NoRollback(base) && RolledBackFrom(base, later[|earlier|].rows);
      PhasedExtends(base, later[|earlier|].rows);
    }
  }

  lemma RecoveryKeepsPhases(config: Config, d: Durable, now: Durable, outcome: Outcome)
    requires Inv(config, d) && Inv(config, now) && d.journal <= now.journal && AllPhased(SegmentsOf(config, d))
    requires now == d || RecoveryReport(SegmentsOf(config, d), SegmentsOf(config, now), outcome)
    ensures AllPhased(SegmentsOf(config, now))
  {
    GrownSegments(config, d, now);
    if now != d {
      PhasesKept(SegmentsOf(config, d), SegmentsOf(config, now));
    }
  }

  /** How the rows of a journal grow over one execution that touched it. */
  lemma ExecutionShapes(config: Config, earlier: seq<Segment>, now: Durable, binding: Binding, outcome: Outcome)
    requires Inv(config, now) && ExecutionReport(config, earlier, now, binding, outcome) && !PlanApplied(earlier)
    ensures LeftOpen(earlier) ==>
              && |SegmentsOf(config, now)| == |earlier|
              && RolledBackFrom(earlier[|earlier| - 1].rows, SegmentsOf(config, now)[|earlier| - 1].rows)
    ensures !LeftOpen(earlier) ==> StartedAtMost(earlier, SegmentsOf(config, now))
  {
  }

  lemma ExecutionKeepsPhases(config: Config, d: Durable, now: Durable, binding: Binding, outcome: Outcome)
    requires Inv(config, d) && Inv(config, now) && d.journal <= now.journal && AllPhased(SegmentsOf(config, d))
    requires now == d || ExecutionReport(config, SegmentsOf(config, d), now, binding, outcome)
    requires PlanApplied(SegmentsOf(config, d)) ==> now == d
    ensures AllPhased(SegmentsOf(config, now))
  {
    var earlier, later := SegmentsOf(config, d), SegmentsOf(config, now);
    if now != d {
      GrownSegments(config, d, now);
      ExecutionShapes(config, earlier, now, binding, outcome);
      if earlier != [] && !LeftOpen(earlier) {
        NothingAdded(earlier[|earlier| - 1].rows);
      }
      PhasesKept(earlier, later);
    }
  }

  /** The record cap has been passed: no reader takes the journal any more. */
  predicate Locked(journal: seq<Payload>) {
    |journal| > TransitionJournal.MAX_RECORDS
  }

  /** Every rollback action that an effect of the last transaction calls for has run. */
  ghost predicate EffectsUndone(config: Config, d: Durable)
    requires Inv(config, d)
  {
    Undone(|SegmentsOf(config, d)|, d.host, d.ran)
  }

  lemma RecoveredIsUndone(config: Config, d: Durable)
    requires Inv(config, d) && EndsRecovered(SegmentsOf(config, d))
    ensures EffectsUndone(config, d)
  {
    InvAccounts(config, d);
  }

  datatype Run = Executing(binding: Binding, fates: seq<Fate>) | Recovering(binding: Binding, fates: seq<Fate>)

  lemma FreshTransaction(config: Config, d: Durable, t: nat, segment: Segment)
    requires Open(config, d, t, segment) && segment.rows == [] && Unrolled(t, d.ran)
    ensures BetweenSteps(config, d, t, segment, 0)
  {
  }

  lemma PlanMayComplete(config: Config, d: Durable, t: nat, segment: Segment)
    requires BetweenSteps(config, d, t, segment, |INSTALL_STEPS|)
    ensures Extendable(config, d, t, segment, PlanComplete)
    ensures forall u :: Planned(config, t, u) ==> ((t, u) in d.host <==> config.effects(t, u))
  {
    assert SoundSegment(config, t, segment, d.host, d.ran);
    forall u | Planned(config, t, u)
      ensures u in ViewOf(segment.rows).done && ((t, u) in d.host <==> config.effects(t, u))
    {
      assert StepIndex(u.step) < |INSTALL_STEPS|;
    }
    PlanCompleteSound(config, t, OrderOf(segment), ViewOf(segment.rows), LastEvent(segment), d.host, d.ran);
  }

  lemma {:induction false} NothingRolledBack(rows: seq<Event>, n: nat)
    requires n <= |rows| && NoRollback(rows)
    ensures ViewTo(rows, n).rolledBack == {}
  {
    if n > 0 {
      NothingRolledBack(rows, n - 1);
    }
  }

  function UnitAt(config: Config, t: nat, i: nat, b: nat, k: nat): Unit
    requires i < |INSTALL_STEPS| && k < |config.units(t, INSTALL_STEPS[i], b)|
  {
    Unit(INSTALL_STEPS[i], Operation(b, config.units(t, INSTALL_STEPS[i], b)[k]))
  }

  /** Unit `k` is started and nothing else is in flight; its effect may or may not be there yet. */
  ghost predicate UnitStarted(config: Config, d: Durable, t: nat, segment: Segment, i: nat, b: nat, k: nat) {
    && i < |INSTALL_STEPS| && k < |config.units(t, INSTALL_STEPS[i], b)|
    && Open(config, d, t, segment)
    && OrderTo(segment.rows, |segment.rows|).Some?
    && var o := OrderOf(segment);
    && o.stepIndex == i && o.activeStep == Some(INSTALL_STEPS[i]) && !o.rollbackStarted
    && Unrolled(t, d.ran)
    && o.activeOperation == Some(UnitAt(config, t, i, b, k).operation) && o.operationIndex == b
    && (forall op :: op in o.seen ==> Before(config, t, INSTALL_STEPS[i], op, b, k + 1))
    && InFlight(ViewOf(segment.rows), UnitAt(config, t, i, b, k))
    && (t, UnitAt(config, t, i, b, k)) !in d.host
    && CoveredBefore(config, t, ViewOf(segment.rows), d.host, i, b, k)
  }

  lemma UnitMayStart(config: Config, d: Durable, t: nat, segment: Segment, i: nat, b: nat, k: nat)
    requires Valid(config) && InStep(config, d, t, segment, i, b, k)
    requires b < OperationCount(INSTALL_STEPS[i]) && k < |config.units(t, INSTALL_STEPS[i], b)|
    ensures var event := OperationStart(UnitAt(config, t, i, b, k));
            && Extendable(config, d, t, segment, event)
            && UnitStarted(config, After(d, t, segment, event), t, segment.(rows := segment.rows + [event]), i, b, k)
  {
    StartExtends(config, d, t, segment, i, b, k);
    ExtendKeepsOpen(config, d, t, segment, OperationStart(UnitAt(config, t, i, b, k)));
    BeforeGrows(config, t, INSTALL_STEPS[i], b, k);
  }

  lemma StartExtends(config: Config, d: Durable, t: nat, segment: Segment, i: nat, b: nat, k: nat)
    requires Valid(config) && InStep(config, d, t, segment, i, b, k)
    requires b < OperationCount(INSTALL_STEPS[i]) && k < |config.units(t, INSTALL_STEPS[i], b)|
    ensures Extendable(config, d, t, segment, OperationStart(UnitAt(config, t, i, b, k)))
    ensures UnitAt(config, t, i, b, k) !in ViewOf(segment.rows).starts
    ensures UnitAt(config, t, i, b, k) !in ViewOf(segment.rows).done && (t, UnitAt(config, t, i, b, k)) !in d.host
  {
    var unit, o := UnitAt(config, t, i, b, k), OrderOf(segment);
    assert SoundSegment(config, t, segment, d.host, d.ran);
    UnitIsNew(config, t, INSTALL_STEPS[i], o.seen, b, k);
    OperationStartSound(config, t, o, ViewOf(segment.rows), LastEvent(segment), unit, d.host, d.ran);
  }

  lemma StepMayStart(config: Config, d: Durable, t: nat, segment: Segment, i: nat)
    requires BetweenSteps(config, d, t, segment, i) && i < |INSTALL_STEPS|
    ensures var event := StepStart(INSTALL_STEPS[i]);
            && Extendable(config, d, t, segment, event)
            && InStep(config, After(d, t, segment, event), t, Longer(segment, event), i, 0, 0)
  {
    assert SoundSegment(config, t, segment, d.host, d.ran);
    StepStartSound(config, t, OrderOf(segment), ViewOf(segment.rows), LastEvent(segment), d.host, d.ran);
    ExtendKeepsOpen(config, d, t, segment, StepStart(INSTALL_STEPS[i]));
    assert forall op: Operation :: !Before(config, t, INSTALL_STEPS[i], op, 0, 0);
  }

  lemma StepMayComplete(config: Config, d: Durable, t: nat, segment: Segment, i: nat)
    requires i < |INSTALL_STEPS| && InStep(config, d, t, segment, i, OperationCount(INSTALL_STEPS[i]), 0)
    ensures var event := StepComplete(INSTALL_STEPS[i], StepOwnership(INSTALL_STEPS[i]));
            && Extendable(config, d, t, segment, event)
            && BetweenSteps(config, After(d, t, segment, event), t, Longer(segment, event), i + 1)
  {
    StepIsCovered(config, d, t, segment, i);
    StepCompletionExtends(config, d, t, segment, i);
    ExtendKeepsOpen(config, d, t, segment, StepComplete(INSTALL_STEPS[i], StepOwnership(INSTALL_STEPS[i])));
  }

  lemma StepIsCovered(config: Config, d: Durable, t: nat, segment: Segment, i: nat)
    requires i < |INSTALL_STEPS| && InStep(config, d, t, segment, i, OperationCount(INSTALL_STEPS[i]), 0)
    ensures CoveredBefore(config, t, ViewOf(segment.rows), d.host, i + 1, 0, 0)
    ensures forall u :: Planned(config, t, u) && u.step == INSTALL_STEPS[i] ==> u in ViewOf(segment.rows).done
  {
    StepIndexOf(i);
    StepCovered(config, t, ViewOf(segment.rows), d.host, i);
  }

  lemma StepCompletionExtends(config: Config, d: Durable, t: nat, segment: Segment, i: nat)
    requires i < |INSTALL_STEPS| && InStep(config, d, t, segment, i, OperationCount(INSTALL_STEPS[i]), 0)
    requires forall u :: Planned(config, t, u) && u.step == INSTALL_STEPS[i] ==> u in ViewOf(segment.rows).done
    ensures Extendable(config, d, t, segment, StepComplete(INSTALL_STEPS[i], StepOwnership(INSTALL_STEPS[i])))
  {
    assert SoundSegment(config, t, segment, d.host, d.ran);
    StepCompleteSound(config, t, OrderOf(segment), ViewOf(segment.rows), LastEvent(segment), INSTALL_STEPS[i],
                      StepOwnership(INSTALL_STEPS[i]), d.host, d.ran);
  }

  lemma BeforeGrows(config: Config, t: nat, step: StepId, b: nat, k: nat)
    requires k < |config.units(t, step, b)|
    ensures Before(config, t, step, Operation(b, config.units(t, step, b)[k]), b, k + 1)
    ensures forall op :: Before(config, t, step, op, b, k) ==> Before(config, t, step, op, b, k + 1)
    ensures forall op :: Before(config, t, step, op, b, k + 1) && op != Operation(b, config.units(t, step, b)[k])
                     ==> Before(config, t, step, op, b, k)
  {
    var units := config.units(t, step, b);
    assert units[..k + 1] == units[..k] + [units[k]];
  }

  function Completion(d: Durable, t: nat, unit: Unit): Event {
    OperationComplete(unit, if (t, unit) in d.host then Some(OperationReceipt(unit)) else None)
  }

  lemma CompletionExtends(config: Config, d: Durable, t: nat, segment: Segment, unit: Unit)
    requires Open(config, d, t, segment) && InFlight(ViewOf(segment.rows), unit)
    ensures Extendable(config, d, t, segment, Completion(d, t, unit))
    ensures AdvanceOrder(OrderOf(segment), Completion(d, t, unit)) == Some(OrderOf(segment).(activeOperation := None))
  {
    assert SoundSegment(config, t, segment, d.host, d.ran);
    OperationCompleteSound(config, t, OrderOf(segment), ViewOf(segment.rows), LastEvent(segment), unit, d.host, d.ran);
  }

  /** The unit in flight may be completed with what the host shows, by the executor or by recovery. */
  lemma InFlightMayComplete(config: Config, d: Durable, t: nat, segment: Segment, unit: Unit)
    requires Open(config, d, t, segment) && InFlight(ViewOf(segment.rows), unit)
    ensures var event := Completion(d, t, unit);
            && Extendable(config, d, t, segment, event)
            && Extended(config, d, t, segment, event)
            && OrderOf(Longer(segment, event)) == OrderOf(segment).(activeOperation := None)
  {
    CompletionExtends(config, d, t, segment, unit);
    ExtendKeepsOpen(config, d, t, segment, Completion(d, t, unit));
  }

  function Longer(segment: Segment, event: Event): Segment {
    segment.(rows := segment.rows + [event])
  }

  ghost predicate Extended(config: Config, d: Durable, t: nat, segment: Segment, event: Event) {
    && Open(config, After(d, t, segment, event), t, Longer(segment, event))
    && OrderTo(segment.rows, |segment.rows|).Some?
    && AdvanceOrder(OrderOf(segment), event).Some?
    && OrderTo(Longer(segment, event).rows, |Longer(segment, event).rows|) == AdvanceOrder(OrderOf(segment), event)
    && ViewOf(Longer(segment, event).rows) == AdvanceView(ViewOf(segment.rows), event)
  }

  lemma StaysOpen(config: Config, d: Durable, t: nat, segment: Segment, event: Event)
    requires Open(config, d, t, segment) && !Terminal(event) && !event.TransactionStart?
    requires Extendable(config, d, t, segment, event)
    ensures Open(config, After(d, t, segment, event), t, Longer(segment, event))
  {
    ExtendOpen(config, d, t, segment, event);
    assert LastEvent(Longer(segment, event)) == event;
  }

  lemma ExtendKeepsOpen(config: Config, d: Durable, t: nat, segment: Segment, event: Event)
    requires Open(config, d, t, segment) && !Terminal(event) && !event.TransactionStart?
    requires Extendable(config, d, t, segment, event)
    ensures Extended(config, d, t, segment, event)
  {
    StaysOpen(config, d, t, segment, event);
    OrderExtends(segment.rows, event);
    ViewExtends(segment.rows, event);
  }

  lemma UnitMayComplete(config: Config, started: Durable, d: Durable, t: nat, segment: Segment, i: nat, b: nat, k: nat)
    requires UnitStarted(config, started, t, segment, i, b, k) && Open(config, d, t, segment) && d.ran == started.ran
    requires d.host == started.host || d.host == started.host + {(t, UnitAt(config, t, i, b, k))}
    requires (t, UnitAt(config, t, i, b, k)) in d.host <==> config.effects(t, UnitAt(config, t, i, b, k))
    ensures var event := Completion(d, t, UnitAt(config, t, i, b, k));
            && Extendable(config, d, t, segment, event)
            && InStep(config, After(d, t, segment, event), t, segment.(rows := segment.rows + [event]), i, b, k + 1)
  {
    var unit, v := UnitAt(config, t, i, b, k), ViewOf(segment.rows);
    InFlightMayComplete(config, d, t, segment, unit);
    UnitCovered(config, t, v, AdvanceView(v, Completion(d, t, unit)), started.host, d.host, i, b, k);
  }

  /** Only rows about `action` were added, and they left the receipts alone. */
  ghost predicate RolledForward(segment: Segment, now: Segment, action: RollbackId) {
    && segment.rows <= now.rows
    && (forall p :: |segment.rows| <= p < |now.rows| ==> ActionRow(now.rows[p]) && ActionOf(now.rows[p]) == action)
    && PossiblyEffected(ViewOf(now.rows)) == PossiblyEffected(ViewOf(segment.rows))
    && ViewOf(segment.rows).rolledBack <= ViewOf(now.rows).rolledBack <= ViewOf(segment.rows).rolledBack + {action}
  }

  lemma RolledForwardTwice(segment: Segment, middle: Segment, now: Segment, action: RollbackId)
    requires middle == segment || RolledForward(segment, middle, action)
    requires RolledForward(middle, now, action)
    ensures RolledForward(segment, now, action)
  {
    forall p | |segment.rows| <= p < |now.rows|
      ensures ActionRow(now.rows[p]) && ActionOf(now.rows[p]) == action
    {
      assert p < |middle.rows| ==> now.rows[p] == middle.rows[p];
    }
  }

  ghost predicate OnlyAmbiguous(rows: seq<Event>, from: nat) {
    forall p :: from <= p < |rows| ==> rows[p].RollbackRetainedAmbiguous?
  }

  lemma RollbackRowKeepsQuiet(config: Config, d: Durable, t: nat, segment: Segment, event: Event)
    requires Quiet(config, d, t, segment) && RollbackEvent(event) && !event.RecoveryComplete?
    requires event.RollbackComplete? ==> event.action !in ViewOf(segment.rows).rolledBack && (t, event.action) in d.ran
    ensures Extendable(config, d, t, segment, event)
    ensures Quiet(config, After(d, t, segment, event), t, Longer(segment, event))
    ensures ActionRow(event) ==> RolledForward(segment, Longer(segment, event), ActionOf(event))
    ensures !event.RollbackComplete? ==> ViewOf(Longer(segment, event).rows).rolledBack == ViewOf(segment.rows).rolledBack
  {
    assert SoundSegment(config, t, segment, d.host, d.ran);
    RollbackEventSound(config, t, OrderOf(segment), ViewOf(segment.rows), LastEvent(segment), event, d.host, d.ran);
    ExtendKeepsOpen(config, d, t, segment, event);
    assert PossiblyEffected(AdvanceView(ViewOf(segment.rows), event)) == PossiblyEffected(ViewOf(segment.rows));
  }

  lemma InFlightIsPlanned(config: Config, d: Durable, t: nat, segment: Segment, unit: Unit)
    requires Open(config, d, t, segment) && InFlight(ViewOf(segment.rows), unit)
    ensures Planned(config, t, unit)
  {
    assert SoundSegment(config, t, segment, d.host, d.ran);
  }

  lemma QuietIsIdle(config: Config, d: Durable, t: nat, segment: Segment)
    requires Quiet(config, d, t, segment)
    ensures NothingInFlight(ViewOf(segment.rows))
  {
    assert SoundSegment(config, t, segment, d.host, d.ran);
  }

  /** With nothing in flight the recorded receipts are exactly the owned effects. */
  lemma OwnershipExact(config: Config, d: Durable, t: nat, segment: Segment)
    requires Quiet(config, d, t, segment)
    ensures forall u :: (t, u) in d.host <==> u in ViewOf(segment.rows).done && ViewOf(segment.rows).done[u].Some?
  {
    assert SoundSegment(config, t, segment, d.host, d.ran);
    forall u | (t, u) in d.host
      ensures u in ViewOf(segment.rows).done
    {
      assert !InFlight(ViewOf(segment.rows), u);
    }
  }

  /** What a finished pass over owned steps has added, and what it leaves to do. */
  lemma OwnedPassDone(t: nat, segment: Segment, now: Segment, ran0: set<(nat, RollbackId)>, ran: set<(nat, RollbackId)>, v: View)
    requires v == ViewOf(segment.rows)
    requires Pass(t, segment, now, ran0, ran, PossiblyEffected(v), PossiblyEffected(v), v.rolledBack, |ROLLBACK_TABLE|)
    ensures segment.rows <= now.rows && PassFrom(segment.rows, now.rows)
    ensures Unfinished(ViewOf(now.rows)) <= Unfinished(v)
    ensures v.rolledBack <= ViewOf(now.rows).rolledBack && PossiblyEffected(ViewOf(now.rows)) == PossiblyEffected(v)
  {
    PassHolds(t, segment, now, ran0, ran, PossiblyEffected(v), PossiblyEffected(v), v.rolledBack, |ROLLBACK_TABLE|);
    PassShrinks(v, ViewOf(now.rows));
  }

  lemma PassShrinks(before: View, now: View)
    requires PassView(before, now, |ROLLBACK_TABLE|)
    ensures Unfinished(now) <= Unfinished(before)
  {
  }

  lemma RecoveryMayEnd(config: Config, d: Durable, t: nat, segment: Segment, event: Event)
    requires Quiet(config, d, t, segment) && (event.RecoveryComplete? || event.RecoveryFailed?)
    requires event.RecoveryComplete? ==> Settled(t, ViewOf(segment.rows), d.ran)
    ensures Extendable(config, d, t, segment, event)
    ensures ViewOf(Longer(segment, event).rows) == ViewOf(segment.rows)
  {
    assert SoundSegment(config, t, segment, d.host, d.ran);
    RollbackEventSound(config, t, OrderOf(segment), ViewOf(segment.rows), LastEvent(segment), event, d.host, d.ran);
    OrderExtends(segment.rows, event);
    ViewExtends(segment.rows, event);
  }

  lemma ViewOfCompletion(segment: Segment, now: Segment)
    requires now == segment
          || (segment.rows <= now.rows && |now.rows| == |segment.rows| + 1 && LastEvent(now).OperationComplete?)
    ensures ViewOf(now.rows).rolledBack == ViewOf(segment.rows).rolledBack
  {
    if now != segment {
      assert now.rows == segment.rows + [LastEvent(now)];
      ViewLocal(segment.rows, LastEvent(now), |segment.rows|);
    }
  }

  lemma ServedIsSettled(config: Config, d: Durable, t: nat, segment: Segment, already: set<RollbackId>)
    requires Quiet(config, d, t, segment) && already <= ViewOf(segment.rows).rolledBack
    ensures Served(ViewOf(segment.rows).rolledBack, PossiblyEffected(ViewOf(segment.rows)), already, |ROLLBACK_TABLE|)
        ==> Settled(t, ViewOf(segment.rows), d.ran)
  {
    assert SoundSegment(config, t, segment, d.host, d.ran);
  }

  lemma UnitIsNew(config: Config, t: nat, step: StepId, seen: set<Operation>, b: nat, k: nat)
    requires Valid(config) && k < |config.units(t, step, b)|
    requires forall op :: op in seen ==> Before(config, t, step, op, b, k)
    ensures Operation(b, config.units(t, step, b)[k]) !in seen
  {
  }

  lemma UnitCovered(config: Config, t: nat, v: View, v': View, host: set<(nat, Unit)>, host': set<(nat, Unit)>,
                    i: nat, b: nat, k: nat)
    requires i < |INSTALL_STEPS| && k < |config.units(t, INSTALL_STEPS[i], b)|
    requires CoveredBefore(config, t, v, host, i, b, k)
    requires var unit := Unit(INSTALL_STEPS[i], Operation(b, config.units(t, INSTALL_STEPS[i], b)[k]));
             && v'.done.Keys == v.done.Keys + {unit}
             && (host' == host || host' == host + {(t, unit)})
             && unit !in v.done
             && ((t, unit) in host' <==> config.effects(t, unit))
    ensures CoveredBefore(config, t, v', host', i, b, k + 1)
  {
    StepIndexOf(i);
    BeforeGrows(config, t, INSTALL_STEPS[i], b, k);
  }
}
