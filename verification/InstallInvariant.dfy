/** What holds of the journal and the host at every point where the installer may be stopped. */
module InstallInvariant {
  import opened Wrappers
  import opened InstallEvents
  import opened InstallJournal

  /** For each transaction, `units` is the backend's unit roster for its bundle, and `effects` tells the
      units that leave an owned effect on the host from the read-only and the already-satisfied ones.  A
      transaction applies a unit at most once, so this also covers a host on which what one transaction
      did is in place in the next. */
  datatype Config = Config(units: (nat, StepId, nat) -> seq<string>, effects: (nat, Unit) -> bool)

  ghost predicate Valid(config: Config) {
    forall t, s, b, i, j :: 0 <= i < j < |config.units(t, s, b)| ==> config.units(t, s, b)[i] != config.units(t, s, b)[j]
  }

  /** Everything that survives a stop: the journal, and the host as far as this program changes it. */
  datatype Durable = Durable(
    journal: seq<Payload>,
    host: set<(nat, Unit)>,
    ran: set<(nat, RollbackId)>)

  lemma StepIndexOf(i: nat)
    requires i < |INSTALL_STEPS|
    ensures StepIndex(INSTALL_STEPS[i]) == i
  {
  }

  ghost predicate Planned(config: Config, t: nat, unit: Unit) {
    && unit.operation.base < OperationCount(unit.step)
    && unit.operation.suffix in config.units(t, unit.step, unit.operation.base)
  }

  /** The unit that was started and not yet completed. */
  ghost predicate InFlight(v: View, unit: Unit) {
    unit in v.starts && unit !in v.done
  }

  ghost predicate NothingInFlight(v: View) {
    forall u :: !InFlight(v, u)
  }

  /** Every started unit so far, and the order state, agree on at most one unit in flight. */
  ghost predicate StartsMatchOrder(o: Order, v: View) {
    && -1 <= o.stepIndex < |INSTALL_STEPS|
    && (o.activeStep.Some? ==> 0 <= o.stepIndex && o.activeStep.value == INSTALL_STEPS[o.stepIndex])
    && (o.rollbackStarted ==> o.activeStep.None? && o.activeOperation.None?)
    && (o.activeOperation.Some? ==>
          o.activeStep.Some? && InFlight(v, Unit(o.activeStep.value, o.activeOperation.value)))
    && (forall i, j :: 0 <= i < j < |v.starts| ==> v.starts[i] != v.starts[j])
    && (forall u :: u in v.starts ==>
          StepIndex(u.step) <= o.stepIndex && (StepIndex(u.step) == o.stepIndex ==> u.operation in o.seen))
    && (forall u :: InFlight(v, u) ==> o.activeStep == Some(u.step) && o.activeOperation == Some(u.operation))
    && (forall u :: u in v.done ==> u in v.starts)
  }

  /** Receipts in the journal are exactly the effects on the host, up to the unit in flight. */
  ghost predicate ReceiptsMatchHost(transaction: nat, v: View, host: set<(nat, Unit)>) {
    && (forall u :: u in v.done ==>
          v.done[u] == if (transaction, u) in host then Some(OperationReceipt(u)) else None)
    && (forall u :: (transaction, u) in host ==> u in v.starts)
  }

  /** Completed actions have run, and an action that has run was called for by a receipt at a time when
      nothing was in flight. */
  ghost predicate ActionsMatchHost(transaction: nat, v: View, ran: set<(nat, RollbackId)>) {
    && (forall a :: a in v.rolledBack ==> (transaction, a) in ran)
    && (forall a :: (transaction, a) in ran ==> Affected(v, a))
    && (!Unrolled(transaction, ran) ==> NothingInFlight(v))
  }

  /** No rollback action of the transaction has run. */
  ghost predicate Unrolled(transaction: nat, ran: set<(nat, RollbackId)>) {
    forall a :: (transaction, a) !in ran
  }

  ghost predicate OnlyPlanned(config: Config, transaction: nat, v: View) {
    forall u :: u in v.starts ==> Planned(config, transaction, u)
  }

  ghost predicate Settled(transaction: nat, v: View, ran: set<(nat, RollbackId)>) {
    && NothingInFlight(v)
    && (forall a :: Affected(v, a) ==> a in v.rolledBack && (transaction, a) in ran)
  }

  ghost predicate Applied(config: Config, t: nat, v: View) {
    forall u :: Planned(config, t, u) ==> u in v.done
  }

  /** A completed step finished all its planned units. */
  ghost predicate Whole(config: Config, t: nat, v: View) {
    forall u :: Planned(config, t, u) && u.step in v.completed ==> u in v.done
  }

  /** The invariant of one transaction, on its folded rows and its last event. */
  ghost predicate Sound(config: Config, transaction: nat, o: Order, v: View, last: Event,
                        host: set<(nat, Unit)>, ran: set<(nat, RollbackId)>)
  {
    && !v.duplicate && !v.repeatedRollback
    && StartsMatchOrder(o, v)
    && OnlyPlanned(config, transaction, v)
    && Whole(config, transaction, v)
    && ReceiptsMatchHost(transaction, v, host)
    && ActionsMatchHost(transaction, v, ran)
    && (last.RecoveryComplete? ==> Settled(transaction, v, ran))
    && (last.PlanComplete? ==> Applied(config, transaction, v))
  }

  ghost predicate SoundSegment(config: Config, transaction: nat, segment: Segment,
                               host: set<(nat, Unit)>, ran: set<(nat, RollbackId)>)
  {
    && OrderTo(segment.rows, |segment.rows|).Some?
    && Sound(config, transaction, OrderTo(segment.rows, |segment.rows|).value, ViewOf(segment.rows),
             LastEvent(segment), host, ran)
    && RightReceipts(segment.rows)
  }

  ghost predicate RightReceipts(rows: seq<Event>) {
    forall event {:trigger RightReceipt(event)} :: event in rows ==> RightReceipt(event)
  }

  ghost predicate Inv(config: Config, d: Durable) {
    && SegmentsTo(d.journal, |d.journal|).Ok?
    && var segments := SegmentsTo(d.journal, |d.journal|).value;
    && AllSound(config, segments, d.host, d.ran)
    && (forall t, u :: (t, u) in d.host ==> 1 <= t <= |segments|)
    && (forall t, a :: (t, a) in d.ran ==> 1 <= t <= |segments|)
  }

  ghost function SegmentsOf(config: Config, d: Durable): seq<Segment>
    requires Inv(config, d)
  {
    SegmentsTo(d.journal, |d.journal|).value
  }

  /** The transaction being written: the last segment, not yet terminated. */
  ghost predicate Open(config: Config, d: Durable, transaction: nat, segment: Segment) {
    && Inv(config, d)
    && 1 <= transaction == |SegmentsOf(config, d)|
    && segment == SegmentsOf(config, d)[transaction - 1]
    && !Terminal(LastEvent(segment))
  }

  // ---------------------------------------------------------------- consequences

  /** The journal is never refused by the reader: the writer does not lock itself out. */
  lemma AlwaysReadable(config: Config, d: Durable)
    requires Inv(config, d)
    ensures Parsed(d.journal) == Ok(SegmentsOf(config, d))
  {
    var segments := SegmentsOf(config, d);
    forall i | 0 <= i < |segments|
      ensures OrderValid(segments[i].rows)
    {
      assert SoundSegment(config, i + 1, segments[i], d.host, d.ran);
    }
  }

  /** An effect is accounted for: its unit has its completion row with a receipt, or it is in flight. */
  ghost predicate Journalled(rows: seq<Event>, unit: Unit) {
    || (exists i :: 0 <= i < |rows| && rows[i] == OperationComplete(unit, Some(OperationReceipt(unit))))
    || ((exists i :: 0 <= i < |rows| && rows[i] == OperationStart(unit)) && InFlight(ViewOf(rows), unit))
  }

  /** Conversely, every receipt of a completed operation in the journal is an effect on the host. */
  lemma ReceiptsAreEffects(config: Config, d: Durable, t: nat, i: nat)
    requires Inv(config, d) && 1 <= t <= |SegmentsOf(config, d)| && i < |SegmentsOf(config, d)[t - 1].rows|
    requires var row := SegmentsOf(config, d)[t - 1].rows[i]; row.OperationComplete? && row.owned.Some?
    ensures (t, SegmentsOf(config, d)[t - 1].rows[i].unit) in d.host
  {
    var segment := SegmentsOf(config, d)[t - 1];
    var rows, unit := segment.rows, segment.rows[i].unit;
    assert SoundSegment(config, t, segment, d.host, d.ran);
    ViewMeaning(rows, |rows|, unit);
    var j :| 0 <= j < |rows| && rows[j] == OperationComplete(unit, ViewOf(rows).done[unit]);
    if i < j {
      FlagsMeaning(rows, |rows|, i, j);
    } else if j < i {
      FlagsMeaning(rows, |rows|, j, i);
    }
  }

  /** No unit is completed twice and no rollback action is completed twice within one transaction. */
  lemma CompletionsAreUnique(config: Config, d: Durable, t: nat, i: nat, j: nat)
    requires Inv(config, d) && 1 <= t <= |SegmentsOf(config, d)|
    requires i < j < |SegmentsOf(config, d)[t - 1].rows|
    ensures var rows := SegmentsOf(config, d)[t - 1].rows;
      && (rows[i].OperationComplete? && rows[j].OperationComplete? ==> rows[i].unit != rows[j].unit)
      && (rows[i].RollbackComplete? && rows[j].RollbackComplete? ==> rows[i].action != rows[j].action)
  {
    var segment := SegmentsOf(config, d)[t - 1];
    assert SoundSegment(config, t, segment, d.host, d.ran);
    FlagsMeaning(segment.rows, |segment.rows|, i, j);
  }

  /** What the order check alone does not give: in every journal the installer writes, a plan is declared
      complete only when every planned unit has its completion, with a receipt exactly for its effects. */
  lemma PlanCompleteIsApplied(config: Config, d: Durable, t: nat, unit: Unit)
    requires Inv(config, d) && 1 <= t <= |SegmentsOf(config, d)|
    requires LastEvent(SegmentsOf(config, d)[t - 1]).PlanComplete? && Planned(config, t, unit)
    ensures Recorded(SegmentsOf(config, d)[t - 1].rows, unit, (t, unit) in d.host)
  {
    var segment := SegmentsOf(config, d)[t - 1];
    assert SoundSegment(config, t, segment, d.host, d.ran);
    ViewMeaning(segment.rows, |segment.rows|, unit);
  }

  /** A unit has its completion row, with its receipt or without. */
  ghost predicate Recorded(rows: seq<Event>, unit: Unit, owned: bool) {
    exists i :: 0 <= i < |rows| && rows[i] == OperationComplete(unit, if owned then Some(OperationReceipt(unit)) else None)
  }

  /** Likewise a completed step: the executor never skips an operation of it. */
  lemma StepCompleteIsWhole(config: Config, d: Durable, t: nat, i: nat, unit: Unit)
    requires Inv(config, d) && 1 <= t <= |SegmentsOf(config, d)| && i < |SegmentsOf(config, d)[t - 1].rows|
    requires SegmentsOf(config, d)[t - 1].rows[i].StepComplete? && SegmentsOf(config, d)[t - 1].rows[i].step == unit.step
    requires Planned(config, t, unit)
    ensures Recorded(SegmentsOf(config, d)[t - 1].rows, unit, (t, unit) in d.host)
  {
    var segment := SegmentsOf(config, d)[t - 1];
    assert SoundSegment(config, t, segment, d.host, d.ran);
    CompletedMeaning(segment.rows, |segment.rows|, i);
    ViewMeaning(segment.rows, |segment.rows|, unit);
  }

  /** A completed step carries its ownership receipt exactly when some rollback action would undo it. */
  lemma StepCompleteIsOwned(config: Config, d: Durable, t: nat, i: nat)
    requires Inv(config, d) && 1 <= t <= |SegmentsOf(config, d)| && i < |SegmentsOf(config, d)[t - 1].rows|
    requires SegmentsOf(config, d)[t - 1].rows[i].StepComplete?
    ensures var row := SegmentsOf(config, d)[t - 1].rows[i];
            row.stepOwned == if exists action :: Undoes(action, row.step) then Some(StepReceipt(row.step)) else None
  {
    var segment := SegmentsOf(config, d)[t - 1];
    assert SoundSegment(config, t, segment, d.host, d.ran);
    assert RightReceipt(segment.rows[i]);
    OwnershipIff(segment.rows[i].step);
  }

  lemma {:induction false} CompletedMeaning(rows: seq<Event>, n: nat, i: nat)
    requires i < n <= |rows| && rows[i].StepComplete?
    ensures rows[i].step in ViewTo(rows, n).completed
  {
    if i < n - 1 {
      CompletedMeaning(rows, n - 1, i);
    }
  }

  ghost predicate AtMostOneInFlight(v: View) {
    forall left, right :: InFlight(v, left) && InFlight(v, right) ==> left == right
  }

  /** Every rollback action that an effect of the transaction calls for has run. */
  ghost predicate Undone(t: nat, host: set<(nat, Unit)>, ran: set<(nat, RollbackId)>) {
    forall unit, action :: (t, unit) in host && unit.step in Sources(action) ==> (t, action) in ran
  }

  ghost predicate Receipted(rows: seq<Event>, unit: Unit) {
    exists i :: 0 <= i < |rows| && rows[i] == OperationComplete(unit, Some(OperationReceipt(unit)))
  }

  /** A row that gives an ownership receipt to a source step of the action. */
  predicate CallsFor(event: Event, action: RollbackId) {
    match event
    case StepComplete(step, receipt) => receipt.Some? && step in Sources(action)
    case OperationComplete(unit, receipt) => receipt.Some? && unit.step in Sources(action)
    case _ => false
  }

  /** An action may run: a receipt calls for it, and every effect there is has its receipt. */
  ghost predicate Warranted(t: nat, rows: seq<Event>, host: set<(nat, Unit)>, action: RollbackId) {
    && (exists i :: 0 <= i < |rows| && CallsFor(rows[i], action))
    && (forall unit :: (t, unit) in host ==> Receipted(rows, unit))
  }

  /** Every action that a receipt calls for has its completion row. */
  ghost predicate AllRecorded(rows: seq<Event>) {
    forall i, action :: 0 <= i < |rows| && CallsFor(rows[i], action) ==> RollbackComplete(action) in rows
  }

  /** What the journal says about a transaction is true of the host: every effect is journalled, at most
      one unit is in flight, no rollback action has run without its warrant, and a recovery that is
      reported complete has undone every effect and recorded every action that was called for. */
  ghost predicate Accounted(t: nat, segment: Segment, host: set<(nat, Unit)>, ran: set<(nat, RollbackId)>) {
    && (forall unit :: (t, unit) in host ==> Journalled(segment.rows, unit))
    && AtMostOneInFlight(ViewOf(segment.rows))
    && (forall action :: (t, action) in ran ==> Warranted(t, segment.rows, host, action))
    && (LastEvent(segment).RecoveryComplete? ==> Undone(t, host, ran) && AllRecorded(segment.rows))
  }

  ghost predicate AllAccounted(config: Config, d: Durable)
    requires Inv(config, d)
  {
    && (forall t, unit :: (t, unit) in d.host ==> 1 <= t <= |SegmentsOf(config, d)|)
    && (forall i :: 0 <= i < |SegmentsOf(config, d)| ==> Accounted(i + 1, SegmentsOf(config, d)[i], d.host, d.ran))
  }

  lemma SegmentAccounts(config: Config, t: nat, segment: Segment, host: set<(nat, Unit)>, ran: set<(nat, RollbackId)>)
    requires SoundSegment(config, t, segment, host, ran)
    ensures Accounted(t, segment, host, ran)
  {
    forall unit | (t, unit) in host
      ensures Journalled(segment.rows, unit)
    {
      ViewMeaning(segment.rows, |segment.rows|, unit);
    }
    forall action | (t, action) in ran
      ensures Warranted(t, segment.rows, host, action)
    {
      ActionWarranted(config, t, segment, host, ran, action);
    }
    if LastEvent(segment).RecoveryComplete? {
      SettledIsUndone(config, t, segment, host, ran);
      SettledIsRecorded(config, t, segment, host, ran);
    }
  }

  lemma ActionWarranted(config: Config, t: nat, segment: Segment, host: set<(nat, Unit)>, ran: set<(nat, RollbackId)>,
                        action: RollbackId)
    requires SoundSegment(config, t, segment, host, ran) && (t, action) in ran
    ensures Warranted(t, segment.rows, host, action)
  {
    var v := ViewOf(segment.rows);
    AffectedMeaning(segment.rows, action);
    assert NothingInFlight(v);
    forall unit | (t, unit) in host
      ensures Receipted(segment.rows, unit)
    {
      assert !InFlight(v, unit);
      ViewMeaning(segment.rows, |segment.rows|, unit);
    }
  }

  lemma AffectedMeaning(rows: seq<Event>, action: RollbackId)
    requires Affected(ViewOf(rows), action)
    ensures exists i :: 0 <= i < |rows| && CallsFor(rows[i], action)
  {
    var v := ViewOf(rows);
    var step :| step in Sources(action) * PossiblyEffected(v);
    if step in v.stepReceipts {
      StepReceiptMeaning(rows, |rows|, step);
    } else {
      var unit :| unit in v.done && v.done[unit].Some? && unit.step == step;
      ViewMeaning(rows, |rows|, unit);
    }
  }

  lemma {:induction false} StepReceiptMeaning(rows: seq<Event>, n: nat, step: StepId)
    requires n <= |rows| && step in ViewTo(rows, n).stepReceipts
    ensures exists i :: 0 <= i < n && rows[i].StepComplete? && rows[i].step == step && rows[i].stepOwned.Some?
  {
    if step in ViewTo(rows, n - 1).stepReceipts {
      StepReceiptMeaning(rows, n - 1, step);
    } else {
      assert rows[n - 1].StepComplete? && rows[n - 1].step == step;
    }
  }

  lemma SettledIsUndone(config: Config, t: nat, segment: Segment, host: set<(nat, Unit)>, ran: set<(nat, RollbackId)>)
    requires SoundSegment(config, t, segment, host, ran) && LastEvent(segment).RecoveryComplete?
    ensures Undone(t, host, ran)
  {
    var v := ViewOf(segment.rows);
    forall unit, action | (t, unit) in host && unit.step in Sources(action)
      ensures (t, action) in ran
    {
      assert !InFlight(v, unit);
      assert unit.step in Sources(action) * PossiblyEffected(v);
    }
  }

  lemma SettledIsRecorded(config: Config, t: nat, segment: Segment, host: set<(nat, Unit)>, ran: set<(nat, RollbackId)>)
    requires SoundSegment(config, t, segment, host, ran) && LastEvent(segment).RecoveryComplete?
    ensures AllRecorded(segment.rows)
  {
    forall i, action | 0 <= i < |segment.rows| && CallsFor(segment.rows[i], action)
      ensures RollbackComplete(action) in segment.rows
    {
      CallsForIsAffected(segment.rows, i, action);
      RolledBackMeaning(segment.rows, |segment.rows|, action);
    }
  }

  /** A receipt in the rows calls for its actions in the view. */
  lemma CallsForIsAffected(rows: seq<Event>, i: nat, action: RollbackId)
    requires i < |rows| && CallsFor(rows[i], action) && !ViewOf(rows).duplicate
    ensures Affected(ViewOf(rows), action)
  {
    var v := ViewOf(rows);
    if rows[i].StepComplete? {
      ReceiptStays(rows, |rows|, i);
      assert rows[i].step in Sources(action) * PossiblyEffected(v);
    } else {
      CompletionStays(rows, |rows|, i);
      assert rows[i].unit.step in Sources(action) * PossiblyEffected(v);
    }
  }

  lemma {:induction false} ReceiptStays(rows: seq<Event>, n: nat, i: nat)
    requires i < n <= |rows| && rows[i].StepComplete? && rows[i].stepOwned.Some?
    ensures rows[i].step in ViewTo(rows, n).stepReceipts
  {
    if i < n - 1 {
      ReceiptStays(rows, n - 1, i);
    }
  }

  lemma {:induction false} CompletionStays(rows: seq<Event>, n: nat, i: nat)
    requires i < n <= |rows| && rows[i].OperationComplete? && !ViewTo(rows, n).duplicate
    ensures rows[i].unit in ViewTo(rows, n).done && ViewTo(rows, n).done[rows[i].unit] == rows[i].owned
  {
    if i < n - 1 {
      CompletionStays(rows, n - 1, i);
    }
  }

  lemma TransactionAccounts(config: Config, d: Durable, i: nat)
    requires Inv(config, d) && i < |SegmentsOf(config, d)|
    ensures Accounted(i + 1, SegmentsOf(config, d)[i], d.host, d.ran)
  {
    assert SoundSegment(config, i + 1, SegmentsOf(config, d)[i], d.host, d.ran);
    SegmentAccounts(config, i + 1, SegmentsOf(config, d)[i], d.host, d.ran);
  }

  /** At every stop the journal accounts for the host. */
  lemma InvAccounts(config: Config, d: Durable)
    requires Inv(config, d)
    ensures AllAccounted(config, d)
  {
    forall i | 0 <= i < |SegmentsOf(config, d)|
      ensures Accounted(i + 1, SegmentsOf(config, d)[i], d.host, d.ran)
    {
      TransactionAccounts(config, d, i);
    }
  }

  /** No transaction follows an applied plan, and every transaction before the last was recovered. */
  lemma {:induction false} EarlierSegmentsRecovered(payloads: seq<Payload>, n: nat, i: nat)
    requires n <= |payloads| && SegmentsTo(payloads, n).Ok?
    requires i + 1 < |SegmentsTo(payloads, n).value|
    ensures LastEvent(SegmentsTo(payloads, n).value[i]).RecoveryComplete?
  {
    if n > 0 && i + 1 < |SegmentsTo(payloads, n - 1).value| {
      EarlierSegmentsRecovered(payloads, n - 1, i);
    }
  }

  // ---------------------------------------------------------------- extending the last segment

  lemma OrderExtends(rows: seq<Event>, event: Event)
    requires OrderTo(rows, |rows|).Some?
    ensures OrderTo(rows + [event], |rows + [event]|) == AdvanceOrder(OrderTo(rows, |rows|).value, event)
  {
    OrderLocal(rows, event, |rows|);
    assert (rows + [event])[|rows|] == event;
  }

  lemma ViewExtends(rows: seq<Event>, event: Event)
    ensures ViewOf(rows + [event]) == AdvanceView(ViewOf(rows), event)
  {
    ViewLocal(rows, event, |rows|);
    assert (rows + [event])[|rows|] == event;
  }

  ghost function After(d: Durable, transaction: nat, segment: Segment, event: Event): Durable {
    d.(journal := d.journal + [Payload(transaction, segment.binding, event)])
  }

  lemma JournalExtends(config: Config, d: Durable, transaction: nat, segment: Segment, event: Event)
    requires Open(config, d, transaction, segment) && !event.TransactionStart?
    ensures var journal := After(d, transaction, segment, event).journal;
            SegmentsTo(journal, |journal|)
            == Ok(SegmentsOf(config, d)[transaction - 1 := segment.(rows := segment.rows + [event])])
  {
    SegmentsLocal(d.journal, Payload(transaction, segment.binding, event), |d.journal|);
  }

  ghost predicate AllSound(config: Config, segments: seq<Segment>, host: set<(nat, Unit)>, ran: set<(nat, RollbackId)>) {
    forall t: nat, segment :: 1 <= t <= |segments| && segment == segments[t - 1] ==> SoundSegment(config, t, segment, host, ran)
  }

  lemma SoundUpdate(config: Config, segments: seq<Segment>, t: nat, segment: Segment,
                    host: set<(nat, Unit)>, ran: set<(nat, RollbackId)>)
    requires AllSound(config, segments, host, ran) && 1 <= t <= |segments|
    requires SoundSegment(config, t, segment, host, ran)
    ensures AllSound(config, segments[t - 1 := segment], host, ran)
  {
  }

  lemma SoundAppend(config: Config, segments: seq<Segment>, binding: Binding,
                    host: set<(nat, Unit)>, ran: set<(nat, RollbackId)>)
    requires AllSound(config, segments, host, ran)
    requires forall t, u :: (t, u) in host ==> t <= |segments|
    requires forall t, a :: (t, a) in ran ==> t <= |segments|
    ensures AllSound(config, segments + [Segment(binding, [])], host, ran)
  {
    var more := segments + [Segment(binding, [])];
    forall i | 0 <= i < |more|
      ensures SoundSegment(config, i + 1, more[i], host, ran)
    {
      assert i < |segments| ==> SoundSegment(config, i + 1, segments[i], host, ran);
    }
  }

  /** What an event must keep true of the open segment. */
  ghost predicate Extendable(config: Config, d: Durable, transaction: nat, segment: Segment, event: Event) {
    && OrderTo(segment.rows, |segment.rows|).Some?
    && AdvanceOrder(OrderTo(segment.rows, |segment.rows|).value, event).Some?
    && Sound(config, transaction, AdvanceOrder(OrderTo(segment.rows, |segment.rows|).value, event).value,
             AdvanceView(ViewOf(segment.rows), event), event, d.host, d.ran)
    && RightReceipt(event)
  }

  lemma ReceiptsExtend(rows: seq<Event>, event: Event)
    requires RightReceipts(rows) && RightReceipt(event)
    ensures RightReceipts(rows + [event])
  {
  }

  /** Appending an event to the open segment keeps the invariant when that one segment stays sound. */
  lemma ExtendOpen(config: Config, d: Durable, transaction: nat, segment: Segment, event: Event)
    requires Open(config, d, transaction, segment) && !event.TransactionStart?
    requires Extendable(config, d, transaction, segment, event)
    ensures Inv(config, After(d, transaction, segment, event))
    ensures SegmentsOf(config, After(d, transaction, segment, event))
         == SegmentsOf(config, d)[transaction - 1 := segment.(rows := segment.rows + [event])]
  {
    JournalExtends(config, d, transaction, segment, event);
    OrderExtends(segment.rows, event);
    ViewExtends(segment.rows, event);
    assert SoundSegment(config, transaction, segment, d.host, d.ran);
    ReceiptsExtend(segment.rows, event);
    SoundUpdate(config, SegmentsOf(config, d), transaction, segment.(rows := segment.rows + [event]), d.host, d.ran);
  }

  lemma StartTransaction(config: Config, d: Durable, binding: Binding)
    requires Inv(config, d)
    requires var segments := SegmentsOf(config, d);
             segments != [] ==> LastEvent(segments[|segments| - 1]).RecoveryComplete?
    ensures var t := |SegmentsOf(config, d)| + 1;
            var d' := d.(journal := d.journal + [Payload(t, binding, TransactionStart)]);
            && Open(config, d', t, Segment(binding, []))
            && SegmentsOf(config, d') == SegmentsOf(config, d) + [Segment(binding, [])]
  {
    var segments := SegmentsOf(config, d);
    var payload := Payload(|segments| + 1, binding, TransactionStart);
    var d' := d.(journal := d.journal + [payload]);
    SegmentsLocal(d.journal, payload, |d.journal|);
    var segments' := SegmentsTo(d'.journal, |d'.journal|).value;
    assert segments' == segments + [Segment(binding, [])];
    SoundAppend(config, segments, binding, d.host, d.ran);
  }

  /** An effect of the unit in flight may appear at any time. */
  lemma EffectOfInFlight(config: Config, d: Durable, transaction: nat, segment: Segment, unit: Unit)
    requires Open(config, d, transaction, segment) && InFlight(ViewOf(segment.rows), unit)
    ensures Open(config, d.(host := d.host + {(transaction, unit)}), transaction, segment)
    ensures SegmentsOf(config, d.(host := d.host + {(transaction, unit)})) == SegmentsOf(config, d)
  {
    EffectKeepsAll(config, SegmentsOf(config, d), transaction, unit, d.host, d.ran);
  }

  lemma EffectKeepsAll(config: Config, segments: seq<Segment>, transaction: nat, unit: Unit,
                       host: set<(nat, Unit)>, ran: set<(nat, RollbackId)>)
    requires AllSound(config, segments, host, ran) && 1 <= transaction <= |segments|
    requires InFlight(ViewOf(segments[transaction - 1].rows), unit)
    ensures AllSound(config, segments, host + {(transaction, unit)}, ran)
  {
    forall t: nat, segment | 1 <= t <= |segments| && segment == segments[t - 1]
      ensures SoundSegment(config, t, segment, host + {(transaction, unit)}, ran)
    {
      EffectKeepsSegment(config, t, segment, transaction, unit, host, ran);
    }
  }

  lemma EffectKeepsSegment(config: Config, t: nat, segment: Segment, transaction: nat, unit: Unit,
                           host: set<(nat, Unit)>, ran: set<(nat, RollbackId)>)
    requires SoundSegment(config, t, segment, host, ran)
    requires t == transaction ==> InFlight(ViewOf(segment.rows), unit)
    ensures SoundSegment(config, t, segment, host + {(transaction, unit)}, ran)
  {
  }

  lemma ActionRan(config: Config, d: Durable, transaction: nat, segment: Segment, action: RollbackId)
    requires Open(config, d, transaction, segment)
    requires Affected(ViewOf(segment.rows), action) && NothingInFlight(ViewOf(segment.rows))
    ensures Open(config, d.(ran := d.ran + {(transaction, action)}), transaction, segment)
    ensures SegmentsOf(config, d.(ran := d.ran + {(transaction, action)})) == SegmentsOf(config, d)
  {
    ActionKeepsAll(config, SegmentsOf(config, d), transaction, action, d.host, d.ran);
  }

  lemma ActionKeepsAll(config: Config, segments: seq<Segment>, transaction: nat, action: RollbackId,
                       host: set<(nat, Unit)>, ran: set<(nat, RollbackId)>)
    requires AllSound(config, segments, host, ran) && 1 <= transaction <= |segments|
    requires Affected(ViewOf(segments[transaction - 1].rows), action)
    requires NothingInFlight(ViewOf(segments[transaction - 1].rows))
    ensures AllSound(config, segments, host, ran + {(transaction, action)})
  {
    forall t: nat, segment | 1 <= t <= |segments| && segment == segments[t - 1]
      ensures SoundSegment(config, t, segment, host, ran + {(transaction, action)})
    {
      ActionKeepsSegment(config, t, segment, transaction, action, host, ran);
    }
  }

  lemma ActionKeepsSegment(config: Config, t: nat, segment: Segment, transaction: nat, action: RollbackId,
                           host: set<(nat, Unit)>, ran: set<(nat, RollbackId)>)
    requires SoundSegment(config, t, segment, host, ran)
    requires t == transaction ==> Affected(ViewOf(segment.rows), action) && NothingInFlight(ViewOf(segment.rows))
    ensures SoundSegment(config, t, segment, host, ran + {(transaction, action)})
  {
  }
}
