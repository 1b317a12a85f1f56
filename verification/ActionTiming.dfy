/** When windows open and batches leave, over whole runs. */
module ActionTiming {
  import opened Options
  import opened ActionPlan
  import opened ActionLog
  import opened ActionWindow
  import opened ActionRuns

  ghost function DeadlineOf<S, V>(w: WindowLog<S, V>): int {
    w.openedAt + WINDOW_DURATION
  }

  /** Something survives, and everything was admitted before the deadline. */
  ghost predicate SoundWindow<S, V>(w: WindowLog<S, V>) {
    && Survivors(w.log) != []
    && forall i :: 0 <= i < |w.log| && w.log[i].Admitted? ==>
                     w.log[i].input.step.admittedAt < DeadlineOf(w)
  }

  /** The batch is a sound window's plan, and a deadline batch is not early. */
  ghost predicate SoundBatch<S, V>(b: ActionBatch<S, V>, w: WindowLog<S, V>) {
    && SoundWindow(w) && b == BatchOf(w, b.releasedAt, b.cause)
    && (b.cause.Deadline? ==> b.releasedAt >= DeadlineOf(w))
  }

  /** What a host can rely on in every released batch. */
  ghost predicate BatchPromises<S, V>(b: ActionBatch<S, V>) {
    && b.actions != [] && Normal(b.actions) && OneClickPerScope(Flatten(b.actions))
    && b.deadline == b.openedAt + 1_000_000_000
    && (b.cause.Deadline? ==> b.releasedAt >= b.deadline)
    && 0 < b.retainedActionCount == |Flatten(b.actions)| <= b.admittedActionCount
    && forall x :: x in Flatten(b.actions) ==> x.step.admittedAt < b.deadline
  }

  ghost predicate TimedWorld<S, V>(w: World<S, V>) {
    && (w.queue.open.Some? ==> SoundWindow(w.queue.open.value))
    && forall i :: 0 <= i < |w.released| ==> BatchPromises(w.released[i])
  }

  lemma {:induction false} SoundBatchPromises<S, V>(b: ActionBatch<S, V>, w: WindowLog<S, V>)
    requires SoundBatch(b, w)
    ensures BatchPromises(b)
  {
    hide Survivors, Normal, OneClickPerScope, Flatten, Group;
    GroupIsNormal(Survivors(w.log));
    EmptyPlan(Survivors(w.log));
    SurvivorsOneClick(w.log);
    SurvivorsBounded(w.log);
    forall x | x in Survivors(w.log) ensures x.step.admittedAt < DeadlineOf(w) {
      SurvivorAdmitted(w.log, x);
      var i :| 0 <= i < |w.log| && w.log[i] == Admitted(x) && !Killed(x, w.log[i + 1..]);
    }
  }

  lemma {:induction false} CloseTimed<S, V>(w: World<S, V>, now: int, cause: ActionBatchCause)
    requires TimedWorld(w) && (cause.Deadline? ==> w.queue.open.None? || Due(w.queue, now))
    ensures TimedWorld(Close(w, now, cause))
  {
    hide Survivors, Group, SoundWindow, BatchPromises;
    if w.queue.open.Some? {
      SoundBatchPromises(BatchOf(w.queue.open.value, now, cause), w.queue.open.value);
    }
  }

  lemma {:induction false} JoinTimed<S, V>(w: World<S, V>, scope: S, kind: Kind, value: V, now: int)
    requires TimedWorld(w) && !Due(w.queue, now)
    ensures TimedWorld(Join(w, scope, kind, value, now))
  {
    hide Survivors, Group, BatchPromises, Lost, Supersessions;
    var x := InputFor(w.queue, scope, kind, value, now);
    var into := WindowFor(w.queue, now);
    SurvivorsSnoc(into.log, Admitted(x));
    assert SoundWindow(Logged(into, Admitted(x)));
  }

  lemma {:induction false} StepTimed<S, V>(w: World<S, V>, op: Op<S, V>)
    requires TimedWorld(w)
    ensures TimedWorld(Step(w, op))
  {
    hide Survivors, Group, BatchPromises, Lost, Sequences;
    match op
    case PushOp(scope, kind, value, now) =>
      if Due(w.queue, now) { CloseTimed(w, now, Deadline); }
      JoinTimed(Rotate(w, now), scope, kind, value, now);
    case TakeDueOp(now) =>
      if Due(w.queue, now) { CloseTimed(w, now, Deadline); }
    case FlushOp(barrier, now) => CloseTimed(w, now, Barrier(barrier));
    case CancelOp(scope) =>
    case ClearOp =>
  }

  /** Over any run, with any clock: no open window is empty, and every released batch keeps its
      promises, deadline batches never leaving early. */
  lemma {:induction false} RunTimed<S, V>(ops: seq<Op<S, V>>)
    ensures TimedWorld(Run(ops))
  {
    hide Step, BatchPromises, SoundWindow;
    if ops != [] {
      RunTimed(ops[..|ops| - 1]);
      StepTimed(Run(ops[..|ops| - 1]), ops[|ops| - 1]);
    }
  }

  // ----- Monotone clocks ------------------------------------------------------------------

  ghost function TimeOf<S, V>(op: Op<S, V>): Option<int> {
    match op
    case PushOp(_, _, _, now) => Some(now)
    case TakeDueOp(now) => Some(now)
    case FlushOp(_, now) => Some(now)
    case _ => None
  }

  /** No operation carries a time later than `clock`, and times never run backwards. */
  ghost predicate ClockRises<S, V>(ops: seq<Op<S, V>>, clock: int) {
    && (forall i :: 0 <= i < |ops| && TimeOf(ops[i]).Some? ==> TimeOf(ops[i]).value <= clock)
    && (forall i, j :: 0 <= i < j < |ops| && TimeOf(ops[i]).Some? && TimeOf(ops[j]).Some? ==>
                         TimeOf(ops[i]).value <= TimeOf(ops[j]).value)
  }

  ghost predicate WithinWindow<S, V>(w: WindowLog<S, V>, clock: int) {
    && w.openedAt <= clock
    && forall i :: 0 <= i < |w.log| && w.log[i].Admitted? ==>
                     w.openedAt <= w.log[i].input.step.admittedAt <= clock
  }

  ghost predicate WithinBatch<S, V>(b: ActionBatch<S, V>) {
    && b.openedAt <= b.releasedAt
    && forall x :: x in Flatten(b.actions) ==> b.openedAt <= x.step.admittedAt <= b.releasedAt
  }

  /** Windows lie one after the other on the clock. */
  ghost predicate SuccessiveWorld<S, V>(w: World<S, V>, clock: int) {
    && (forall i :: 0 <= i < |w.released| ==>
          WithinBatch(w.released[i]) && w.released[i].releasedAt <= clock)
    && (forall i :: 0 < i < |w.released| ==> w.released[i - 1].releasedAt <= w.released[i].openedAt)
    && (w.queue.open.Some? ==>
          && WithinWindow(w.queue.open.value, clock)
          && (w.released != [] ==>
                w.released[|w.released| - 1].releasedAt <= w.queue.open.value.openedAt))
  }

  lemma {:induction false} CloseSuccessive<S, V>(w: World<S, V>, now: int, cause: ActionBatchCause)
    requires SuccessiveWorld(w, now)
    ensures SuccessiveWorld(Close(w, now, cause), now)
  {
    hide Survivors, Group, Flatten;
    if w.queue.open.Some? {
      var v := w.queue.open.value;
      GroupIsNormal(Survivors(v.log));
      forall x | x in Survivors(v.log) ensures v.openedAt <= x.step.admittedAt <= now {
        SurvivorAdmitted(v.log, x);
        var i :| 0 <= i < |v.log| && v.log[i] == Admitted(x) && !Killed(x, v.log[i + 1..]);
      }
      assert WithinBatch(BatchOf(v, now, cause));
    }
  }

  lemma {:induction false} StepSuccessive<S, V>(w: World<S, V>, op: Op<S, V>, clock: int)
    requires SuccessiveWorld(w, clock) && (TimeOf(op).Some? ==> TimeOf(op).value == clock)
    ensures SuccessiveWorld(Step(w, op), clock)
  {
    hide Survivors, Group, Flatten, Lost, Sequences, WithinBatch, Supersessions;
    match op
    case PushOp(_, _, _, now) => CloseSuccessive(w, now, Deadline);
    case TakeDueOp(now) => CloseSuccessive(w, now, Deadline);
    case FlushOp(barrier, now) => CloseSuccessive(w, now, Barrier(barrier));
    case CancelOp(_) =>
    case ClearOp =>
  }

  /** Under a monotone clock inputs lie within their windows, and no window opens before the
      batch released last. */
  lemma {:induction false} RunSuccessive<S, V>(ops: seq<Op<S, V>>, clock: int)
    requires ClockRises(ops, clock)
    ensures SuccessiveWorld(Run(ops), clock)
  {
    hide Step, WithinBatch;
    if ops != [] {
      var front, op := ops[..|ops| - 1], ops[|ops| - 1];
      var now := if TimeOf(op).Some? then TimeOf(op).value else clock;
      RunSuccessive(front, now);
      StepSuccessive(Run(front), op, now);
    }
  }
}
