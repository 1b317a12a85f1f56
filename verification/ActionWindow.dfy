/** The one-shot action window: a pending window that compacts its plan in place, and the queue
    that opens, rotates, flushes and cancels it. */
module ActionWindow {
  import opened Options
  import opened ActionPlan
  import opened ActionLog

  /** One second, in the nanoseconds of an instant. */
  const WINDOW_DURATION: int := 1_000_000_000

  datatype ActionCompaction = Added | AppendedToScrollRun | ReplacedClick

  ghost predicate HasClick<S, V>(xs: seq<Input<S, V>>, scope: S) {
    exists i :: 0 <= i < |xs| && xs[i].kind.Clicking? && xs[i].scope == scope
  }

  ghost predicate EndsInScroll<S, V>(xs: seq<Input<S, V>>, scope: S) {
    xs != [] && xs[|xs| - 1].kind.Scrolling? && xs[|xs| - 1].scope == scope
  }

  /** How an input is compacted, in terms of the inputs that have survived so far. */
  ghost function CompactionOf<S, V>(xs: seq<Input<S, V>>, x: Input<S, V>): ActionCompaction {
    match x.kind
    case Scrolling => if EndsInScroll(xs, x.scope) then AppendedToScrollRun else Added
    case Clicking => if HasClick(xs, x.scope) then ReplacedClick else Added
    case Ordering => Added
  }

  // ----- What an event does to a compacted plan -------------------------------------------

  lemma {:induction false} JoinsMeans<S, V>(xs: seq<Input<S, V>>, scope: S)
    ensures Joins(Group(xs), scope) <==> EndsInScroll(xs, scope)
  {
    if xs != [] {
      var front, x := xs[..|xs| - 1], xs[|xs| - 1];
      assert xs == front + [x];
      GroupSnoc(front, x);
    }
  }

  lemma {:induction false} PlainAdmitted<S, V>(log: seq<Event<S, V>>, x: Input<S, V>)
    requires !x.kind.Clicking?
    ensures Survivors(log + [Admitted(x)]) == Survivors(log) + [x]
    ensures Group(Survivors(log + [Admitted(x)])) == Extend(Group(Survivors(log)), Unit(x))
  {
    hide Survivors, Group, Extend, Unit;
    SurvivorsSnoc(log, Admitted(x));
    KeepAll(Survivors(log), Admitted(x));
    GroupSnoc(Survivors(log), x);
  }

  /** The killed units of a plan that holds one click per scope, found by their position. */
  lemma {:induction false} ClickAdmitted<S, V>(log: seq<Event<S, V>>, x: Input<S, V>)
    requires x.kind.Clicking?
    ensures var plan, e := Group(Survivors(log)), Admitted(x);
            && Flatten(plan) == Survivors(log) && NonEmptyRuns(Retain(plan, e))
            && OneClickPerScope(Flatten(plan))
            && Survivors(log + [e]) == Flatten(Retain(plan, e)) + [x]
            && Group(Survivors(log + [e])) ==
                 Group(Flatten(Retain(plan, e))) + [Click(x.scope, x.step)]
  {
    hide Survivors, Group, Retain, Flatten, Keep;
    var plan, e := Group(Survivors(log)), Admitted(x);
    GroupIsNormal(Survivors(log));
    SurvivorsOneClick(log);
    SurvivorsSnoc(log, e);
    RetainFlattens(plan, e);
    RetainRuns(plan, e);
    GroupSnoc(Keep(Survivors(log), e), x);
  }

  lemma {:induction false} ScopeCanceled<S, V>(log: seq<Event<S, V>>, scope: S)
    ensures var plan, e := Group(Survivors(log)), Canceled(scope);
            && Flatten(plan) == Survivors(log) && NonEmptyRuns(Retain(plan, e))
            && Survivors(log + [e]) == Flatten(Retain(plan, e))
  {
    hide Survivors, Group, Retain, Flatten, Keep;
    var plan, e := Group(Survivors(log)), Canceled(scope);
    GroupIsNormal(Survivors(log));
    SurvivorsSnoc(log, e);
    RetainFlattens(plan, e);
    RetainRuns(plan, e);
  }

  lemma {:induction false} ClickUnitMeans<S, V>(plan: seq<PlannedAction<S, V>>, scope: S)
    ensures HasClick(Flatten(plan), scope) <==>
            exists i :: 0 <= i < |plan| && plan[i].Click? && plan[i].scope == scope
  {
    if plan != [] {
      var front, a := plan[..|plan| - 1], plan[|plan| - 1];
      ClickUnitMeans(front, scope);
      var xs, ys := Flatten(front), InputsOf(a);
      assert Flatten(plan) == xs + ys;
      ClickSplit(xs, ys, scope);
      if i :| 0 <= i < |plan| && plan[i].Click? && plan[i].scope == scope {
        assert i < |front| ==> front[i] == plan[i];
        assert i == |front| ==> ys[0].kind.Clicking?;
      }
      if HasClick(xs, scope) {
        var i :| 0 <= i < |front| && front[i].Click? && front[i].scope == scope;
        assert plan[i] == front[i];
      }
    }
  }

  lemma {:induction false} ClickSplit<S, V>(xs: seq<Input<S, V>>, ys: seq<Input<S, V>>, scope: S)
    ensures HasClick(xs + ys, scope) <==> HasClick(xs, scope) || HasClick(ys, scope)
  {
    var all := xs + ys;
    if HasClick(xs, scope) {
      var i :| 0 <= i < |xs| && xs[i].kind.Clicking? && xs[i].scope == scope;
      assert all[i] == xs[i];
    }
    if HasClick(ys, scope) {
      var i :| 0 <= i < |ys| && ys[i].kind.Clicking? && ys[i].scope == scope;
      assert all[|xs| + i] == ys[i];
    }
  }

  lemma {:induction false} ClickEvicted<S, V>(plan: seq<PlannedAction<S, V>>, k: nat, x: Input<S, V>)
    requires OneClickPerScope(Flatten(plan)) && k < |plan| && x.kind.Clicking?
    requires plan[k].Click? && plan[k].scope == x.scope
    requires forall i :: 0 <= i < k ==> !(plan[i].Click? && plan[i].scope == x.scope)
    ensures Retain(plan, Admitted(x)) == plan[..k] + plan[k + 1..]
    ensures |Flatten(Retain(plan, Admitted(x)))| == |Flatten(plan)| - 1
    ensures HasClick(Flatten(plan), x.scope)
  {
    hide OneClickPerScope, Flatten, KillsUnit, Retain, HasClick;
    OnlyKilledUnit(plan, k, x);
    RetainAllButOne(plan, k, Admitted(x));
    OneClickFewer(plan, k);
    ClickUnitMeans(plan, x.scope);
  }

  lemma {:induction false} NothingEvicted<S, V>(plan: seq<PlannedAction<S, V>>, x: Input<S, V>)
    requires x.kind.Clicking?
    requires forall i :: 0 <= i < |plan| ==> !(plan[i].Click? && plan[i].scope == x.scope)
    ensures Retain(plan, Admitted(x)) == plan && !HasClick(Flatten(plan), x.scope)
  {
    RetainAll(plan, Admitted(x));
    ClickUnitMeans(plan, x.scope);
  }

  // ----- The pending window ---------------------------------------------------------------

  datatype ActionBarrier = Screenshot | Screencast | Explicit

  datatype ActionBatchCause = Deadline | Barrier(barrier: ActionBarrier)

  /** What is handed to the host when a window closes. */
  datatype ActionBatch<S, V> = ActionBatch(
    id: nat,
    openedAt: int,
    deadline: int,
    releasedAt: int,
    cause: ActionBatchCause,
    admittedActionCount: nat,
    retainedActionCount: nat,
    actions: seq<PlannedAction<S, V>>)

  /** A window as its log: everything else about it follows. */
  datatype WindowLog<S, V> = WindowLog(id: nat, openedAt: int, log: seq<Event<S, V>>)

  ghost function BatchOf<S, V>(w: WindowLog<S, V>, releasedAt: int, cause: ActionBatchCause)
    : ActionBatch<S, V>
  {
    ActionBatch(w.id, w.openedAt, w.openedAt + WINDOW_DURATION, releasedAt, cause,
                Admits(w.log), |Survivors(w.log)|, Group(Survivors(w.log)))
  }

  class PendingWindow<S(==), V> {
    const id: nat
    const openedAt: int
    const deadline: int
    var admittedActionCount: nat
    var retainedActionCount: nat
    var actions: seq<PlannedAction<S, V>>
    ghost var log: seq<Event<S, V>>

    /** The plan is the grouping of the log's survivors, and the counters count them. */
    ghost predicate Valid()
      reads this
    {
      && deadline == openedAt + WINDOW_DURATION
      && actions == Group(Survivors(log))
      && retainedActionCount == |Survivors(log)|
      && admittedActionCount == Admits(log)
    }

    ghost function Abstract(): WindowLog<S, V>
      reads this
    {
      WindowLog(id, openedAt, log)
    }

    constructor (id: nat, openedAt: int)
      ensures Valid() && Abstract() == WindowLog(id, openedAt, [])
      ensures actions == [] && retainedActionCount == 0
    {
      this.id := id;
      this.openedAt := openedAt;
      this.deadline := openedAt + WINDOW_DURATION;
      admittedActionCount := 0;
      retainedActionCount := 0;
      actions := [];
      log := [];
    }

    /** Merges adjacent runs of one scope, in place. */
    method NormalizeScrollRuns()
      requires NonEmptyRuns(actions)
      modifies this`actions
      ensures actions == Group(Flatten(old(actions)))
    {
      hide Group, Flatten, InputsOf;
      GroupEmpty<S, V>();
      var drained := actions;
      var normalized: seq<PlannedAction<S, V>> := [];
      for i := 0 to |drained|
        invariant Normal(normalized) && Flatten(normalized) == Flatten(drained[..i])
      {
        var action, n := drained[i], |normalized|;
        assert drained[..i + 1] == drained[..i] + [action];
        FlattenSnoc(drained[..i], action);
        ExtendFlattens(normalized, action);
        ExtendNormal(normalized, action);
        if action.Scroll? && n > 0 && normalized[n - 1].Scroll? && normalized[n - 1].scope == action.scope {
          var merged := Scroll(action.scope, normalized[n - 1].run + action.run);
          normalized := normalized[..n - 1] + [merged];
        } else {
          normalized := normalized + [action];
        }
      }
      assert drained[..|drained|] == drained;
      NormalIsGroup(normalized);
      actions := normalized;
    }

    /** The position of the retained click of a scope, if there is one. */
    method FindClick(scope: S) returns (index: int)
      ensures -1 <= index < |actions|
      ensures index >= 0 ==> actions[index].Click? && actions[index].scope == scope
      ensures index >= 0 ==> forall i :: 0 <= i < index ==> !(actions[i].Click? && actions[i].scope == scope)
      ensures index < 0 ==> forall i :: 0 <= i < |actions| ==> !(actions[i].Click? && actions[i].scope == scope)
    {
      index := 0;
      while index < |actions|
        invariant 0 <= index <= |actions|
        invariant forall i :: 0 <= i < index ==> !(actions[i].Click? && actions[i].scope == scope)
      {
        if actions[index].Click? && actions[index].scope == scope {
          return;
        }
        index := index + 1;
      }
      index := -1;
    }

    /** Splits the plan into the units to keep and the sequences of the others. */
    method Partition(scope: S) returns (kept: seq<PlannedAction<S, V>>, removed: seq<nat>)
      ensures kept == Retain(actions, Canceled(scope))
      ensures removed == Sequences(Lost(Flatten(actions), Canceled(scope)))
    {
      hide Retain, Flatten, Lost, Sequences, InputsOf;
      ghost var e: Event<S, V> := Canceled(scope);
      PartitionStart<S, V>(e);
      kept, removed := [], [];
      for i := 0 to |actions|
        invariant kept == Retain(actions[..i], e)
        invariant removed == Sequences(Lost(Flatten(actions[..i]), e))
      {
        var action := actions[i];
        RetainNext(actions, i, e);
        if action.scope != scope {
          kept := kept + [action];
        } else {
          SequencesConcat(Lost(Flatten(actions[..i]), e), InputsOf(action));
          var sequences := UnitSequences(action);
          removed := removed + sequences;
        }
      }
      assert actions[..|actions|] == actions;
    }

    method CountRetained() returns (n: nat)
      ensures n == |Flatten(actions)|
    {
      hide Flatten, InputsOf;
      GroupEmpty<S, V>();
      n := 0;
      for i := 0 to |actions|
        invariant n == |Flatten(actions[..i])|
      {
        assert actions[..i + 1] == actions[..i] + [actions[i]];
        FlattenSnoc(actions[..i], actions[i]);
        n := n + actions[i].RetainedActionCount();
      }
      assert actions[..|actions|] == actions;
    }

    method AdmitScroll(ghost x: Input<S, V>, scope: S, step: Scheduled<V>) returns (c: ActionCompaction)
      requires Valid() && x == Input(scope, Scrolling, step)
      modifies this
      ensures Valid() && log == old(log) + [Admitted(x)]
      ensures c == CompactionOf(Survivors(old(log)), x)
      ensures retainedActionCount == old(retainedActionCount) + 1
      ensures if c == AppendedToScrollRun then |actions| == |old(actions)|
              else c == Added && |actions| == |old(actions)| + 1
    {
      hide Survivors, Group, Admits;
      PlainAdmitted(log, x);
      JoinsMeans(Survivors(log), scope);
      AdmitsSnoc(log, Admitted(x));
      admittedActionCount := admittedActionCount + 1;
      retainedActionCount := retainedActionCount + 1;
      var n := |actions|;
      if n > 0 && actions[n - 1].Scroll? && actions[n - 1].scope == scope {
        actions := actions[..n - 1] + [Scroll(scope, actions[n - 1].run + [step])];
        c := AppendedToScrollRun;
      } else {
        actions := actions + [Scroll(scope, [step])];
        c := Added;
      }
      log := log + [Admitted(x)];
    }

    method AdmitOrdered(ghost x: Input<S, V>, scope: S, step: Scheduled<V>) returns (c: ActionCompaction)
      requires Valid() && x == Input(scope, Ordering, step)
      modifies this
      ensures Valid() && log == old(log) + [Admitted(x)]
      ensures c == CompactionOf(Survivors(old(log)), x)
      ensures c == Added && |actions| == |old(actions)| + 1
      ensures retainedActionCount == old(retainedActionCount) + 1
    {
      hide Survivors, Group, Admits;
      PlainAdmitted(log, x);
      AdmitsSnoc(log, Admitted(x));
      admittedActionCount := admittedActionCount + 1;
      retainedActionCount := retainedActionCount + 1;
      actions := actions + [Ordered(scope, step)];
      log := log + [Admitted(x)];
      c := Added;
    }

    /** Drops the retained click of the scope, if any, and re-merges the runs around it. */
    method EvictClick(scope: S, ghost x: Input<S, V>) returns (evicted: bool)
      requires actions == Group(Survivors(log)) && x.kind.Clicking? && x.scope == scope
      modifies this`actions
      ensures actions == Group(Flatten(Retain(old(actions), Admitted(x))))
      ensures evicted <==> HasClick(Survivors(log), scope)
      ensures |Flatten(Retain(old(actions), Admitted(x)))| == |Survivors(log)| - if evicted then 1 else 0
      ensures !evicted ==> actions == old(actions)
    {
      hide Survivors, Group, Retain, Flatten, HasClick, OneClickPerScope, Normal, KillsUnit, NonEmptyRuns;
      ghost var plan := actions;
      var index := FindClick(scope);
      ClickAdmitted(log, x);
      if index >= 0 {
        ClickEvicted(plan, index, x);
        actions := actions[..index] + actions[index + 1..];
        NormalizeScrollRuns();
        evicted := true;
      } else {
        NothingEvicted(plan, x);
        GroupIsNormal(Survivors(log));
        evicted := false;
      }
    }

    method AdmitClick(ghost x: Input<S, V>, scope: S, step: Scheduled<V>) returns (c: ActionCompaction)
      requires Valid() && x == Input(scope, Clicking, step)
      modifies this
      ensures Valid() && log == old(log) + [Admitted(x)]
      ensures c == CompactionOf(Survivors(old(log)), x)
      ensures if c == ReplacedClick then retainedActionCount == old(retainedActionCount)
              else && c == Added && |actions| == |old(actions)| + 1
                   && retainedActionCount == old(retainedActionCount) + 1
    {
      hide Survivors, Group, Retain, Flatten, HasClick, Admits;
      ClickAdmitted(log, x);
      AdmitsSnoc(log, Admitted(x));
      admittedActionCount := admittedActionCount + 1;
      var evicted := EvictClick(scope, x);
      if !evicted {
        retainedActionCount := retainedActionCount + 1;
      }
      actions := actions + [Click(scope, step)];
      log := log + [Admitted(x)];
      c := if evicted then ReplacedClick else Added;
    }

    /** Admits one input, compacting the plan as it goes. */
    method Admit(scope: S, kind: Kind, value: V, sequence: nat, admittedAt: int)
      returns (c: ActionCompaction)
      requires Valid()
      modifies this
      ensures Valid()
      ensures log == old(log) + [Admitted(Input(scope, kind, Scheduled(sequence, admittedAt, value)))]
      ensures c == CompactionOf(Survivors(old(log)), Input(scope, kind, Scheduled(sequence, admittedAt, value)))
      ensures c == AppendedToScrollRun <==> kind.Scrolling? && |actions| == |old(actions)|
      ensures c == Added <==>
                |actions| == |old(actions)| + 1 && retainedActionCount == old(retainedActionCount) + 1
      ensures c == ReplacedClick <==> retainedActionCount == old(retainedActionCount)
    {
      var step := Scheduled(sequence, admittedAt, value);
      ghost var x := Input(scope, kind, step);
      match kind
      case Scrolling => c := AdmitScroll(x, scope, step);
      case Clicking => c := AdmitClick(x, scope, step);
      case Ordering => c := AdmitOrdered(x, scope, step);
    }

    /** Drops every unit of the scope and returns the sequences of its inputs in order. */
    method RemoveScope(scope: S) returns (removed: seq<nat>)
      requires Valid()
      modifies this
      ensures Valid() && log == old(log) + [Canceled(scope)]
      ensures admittedActionCount == old(admittedActionCount)
      ensures removed == Sequences(Lost(Survivors(old(log)), Canceled(scope)))
    {
      hide Survivors, Group, Retain, Flatten, Lost, Sequences;
      ghost var e: Event<S, V> := Canceled(scope);
      ScopeCanceled(log, scope);
      AdmitsSnoc(log, e);
      var kept;
      kept, removed := Partition(scope);
      actions := kept;
      retainedActionCount := CountRetained();
      NormalizeScrollRuns();
      log := log + [e];
    }
  }

  // ----- The queue ------------------------------------------------------------------------

  const MAX_ID: nat := 0xffff_ffff_ffff_ffff

  datatype AdmissionState = Opened | Joined | Rotated

  datatype ActionAdmission<S, V> = ActionAdmission(
    state: AdmissionState,
    batchId: nat,
    sequence: nat,
    deadline: int,
    compaction: ActionCompaction,
    readyBatch: Option<ActionBatch<S, V>>)

  /** The queue as a value: the next identities and the log of the open window. */
  datatype QueueState<S, V> = QueueState(
    nextBatchId: nat,
    nextSequence: nat,
    open: Option<WindowLog<S, V>>)

  ghost predicate Due<S, V>(q: QueueState<S, V>, now: int) {
    q.open.Some? && now >= q.open.value.openedAt + WINDOW_DURATION
  }

  ghost predicate NeedsWindow<S, V>(q: QueueState<S, V>, now: int) {
    q.open.None? || Due(q, now)
  }

  /** The window that an input arriving at `now` goes into. */
  ghost function WindowFor<S, V>(q: QueueState<S, V>, now: int): WindowLog<S, V> {
    if NeedsWindow(q, now) then WindowLog(q.nextBatchId, now, []) else q.open.value
  }

  ghost function InputFor<S, V>(q: QueueState<S, V>, scope: S, kind: Kind, value: V, now: int)
    : Input<S, V>
  {
    Input(scope, kind, Scheduled(q.nextSequence, now, value))
  }

  ghost function Logged<S, V>(w: WindowLog<S, V>, e: Event<S, V>): WindowLog<S, V> {
    w.(log := w.log + [e])
  }

  ghost function AfterPush<S, V>(q: QueueState<S, V>, scope: S, kind: Kind, value: V, now: int)
    : QueueState<S, V>
  {
    QueueState(
      if NeedsWindow(q, now) then q.nextBatchId + 1 else q.nextBatchId,
      q.nextSequence + 1,
      Some(Logged(WindowFor(q, now), Admitted(InputFor(q, scope, kind, value, now)))))
  }

  ghost function Released<S, V>(q: QueueState<S, V>, now: int, cause: ActionBatchCause)
    : Option<ActionBatch<S, V>>
  {
    if q.open.Some? then Some(BatchOf(q.open.value, now, cause)) else None
  }

  ghost function AfterCancel<S, V>(q: QueueState<S, V>, scope: S): QueueState<S, V> {
    if q.open.None? then
      q
    else
      var w := Logged(q.open.value, Canceled(scope));
      q.(open := if Survivors(w.log) == [] then None else Some(w))
  }

  class ActionWindow<S(==), V> {
    /** The latest instant that the platform's clock can represent. */
    ghost const lastInstant: int

    var nextBatchId: nat
    var nextSequence: nat
    var open: PendingWindow?<S, V>

    ghost predicate Valid()
      reads this, open
    {
      open != null ==> open.Valid()
    }

    ghost function State(): QueueState<S, V>
      reads this, open
    {
      QueueState(nextBatchId, nextSequence, if open == null then None else Some(open.Abstract()))
    }

    constructor (ghost lastInstant: int)
      ensures Valid() && State() == QueueState(1, 1, None) && this.lastInstant == lastInstant
    {
      this.lastInstant := lastInstant;
      nextBatchId := 1;
      nextSequence := 1;
      open := null;
    }

    /** Takes the open window and closes it into a batch. */
    method Release(now: int, cause: ActionBatchCause) returns (batch: ActionBatch<S, V>)
      requires Valid() && open != null
      modifies this`open
      ensures Valid() && State() == old(State()).(open := None)
      ensures batch == BatchOf(old(State()).open.value, now, cause)
      ensures batch.id == old(open.id) && batch.actions == old(open.actions)
      ensures batch.openedAt == old(open.openedAt) && batch.deadline == old(open.openedAt) + 1_000_000_000
      ensures batch.releasedAt == now && batch.cause == cause
      ensures batch.admittedActionCount == old(open.admittedActionCount)
      ensures batch.retainedActionCount == old(open.retainedActionCount)
    {
      batch := ActionBatch(open.id, open.openedAt, open.deadline, now, cause,
                           open.admittedActionCount, open.retainedActionCount, open.actions);
      open := null;
    }

    method OpenWindow(openedAt: int)
      requires Valid() && nextBatchId < MAX_ID && openedAt + WINDOW_DURATION <= lastInstant
      modifies this`open, this`nextBatchId
      ensures Valid() && open != null && fresh(open)
      ensures State() == QueueState(old(nextBatchId) + 1, old(nextSequence),
                                    Some(WindowLog(old(nextBatchId), openedAt, [])))
      ensures open.actions == [] && open.retainedActionCount == 0
      ensures open.deadline == openedAt + 1_000_000_000
    {
      open := new PendingWindow(nextBatchId, openedAt);
      nextBatchId := nextBatchId + 1;
    }

    /** Admits an input; the ready batch, if any, is an older window that is due. */
    method Push(scope: S, kind: Kind, value: V, now: int) returns (r: ActionAdmission<S, V>)
      requires Valid() && nextSequence < MAX_ID
      requires NeedsWindow(State(), now) ==>
                 nextBatchId < MAX_ID && now + WINDOW_DURATION <= lastInstant
      modifies this, open
      ensures Valid() && open != null && (open == old(open) || fresh(open))
      ensures State() == AfterPush(old(State()), scope, kind, value, now)
      ensures r.readyBatch == if Due(old(State()), now) then Released(old(State()), now, Deadline) else None
      ensures r.state == (if Due(old(State()), now) then Rotated
                          else if old(State()).open.Some? then Joined else Opened)
      ensures r.batchId == State().open.value.id && r.sequence == old(nextSequence)
      ensures r.deadline == State().open.value.openedAt + WINDOW_DURATION
      ensures r.compaction == CompactionOf(Survivors(WindowFor(old(State()), now).log),
                                           InputFor(old(State()), scope, kind, value, now))
      ensures var units := old(if NeedsWindow(State(), now) then 0 else |open.actions|);
              var retained := old(if NeedsWindow(State(), now) then 0 else open.retainedActionCount);
              && (r.compaction == AppendedToScrollRun <==> kind.Scrolling? && |open.actions| == units)
              && (r.compaction == Added <==>
                    |open.actions| == units + 1 && open.retainedActionCount == retained + 1)
              && (r.compaction == ReplacedClick <==> open.retainedActionCount == retained)
      ensures r.readyBatch.Some? ==> r.readyBatch.value.cause == Deadline && r.readyBatch.value.releasedAt == now
    {
      hide Survivors, Group, CompactionOf, Admits, BatchOf;
      var ready := None;
      if open != null && now >= open.deadline {
        var batch := Release(now, Deadline);
        ready := Some(batch);
      }
      var state := if ready.Some? then Rotated else if open != null then Joined else Opened;
      if open == null {
        OpenWindow(now);
      }
      var sequence := nextSequence;
      nextSequence := nextSequence + 1;
      var compaction := open.Admit(scope, kind, value, sequence, now);
      r := ActionAdmission(state, open.id, sequence, open.deadline, compaction, ready);
    }

    /** The timer wake: closes the window if its second has passed, and does nothing otherwise. */
    method TakeDue(now: int) returns (r: Option<ActionBatch<S, V>>)
      requires Valid()
      modifies this`open
      ensures Valid() && (open == old(open) || open == null)
      ensures r == if Due(old(State()), now) then Released(old(State()), now, Deadline) else None
      ensures State() == if Due(old(State()), now) then old(State()).(open := None) else old(State())
      ensures r.Some? ==> r.value.cause == Deadline && r.value.releasedAt == now
    {
      if open != null && now >= open.deadline {
        var batch := Release(now, Deadline);
        r := Some(batch);
      } else {
        r := None;
      }
    }

    /** Closes the window at once so that a read sees its effects. */
    method Flush(barrier: ActionBarrier, now: int) returns (r: Option<ActionBatch<S, V>>)
      requires Valid()
      modifies this`open
      ensures Valid() && State() == old(State()).(open := None)
      ensures r == Released(old(State()), now, Barrier(barrier))
      ensures r.Some? ==> r.value.cause == Barrier(barrier) && r.value.releasedAt == now
    {
      if open == null {
        r := None;
      } else {
        var batch := Release(now, Barrier(barrier));
        r := Some(batch);
      }
    }

    /** Removes one scope from the window, naming what was removed in the order it would have run. */
    method CancelScope(scope: S) returns (removed: seq<nat>)
      requires Valid()
      modifies this, open
      ensures Valid() && (open == old(open) || open == null)
      ensures State() == AfterCancel(old(State()), scope)
      ensures removed == if old(State()).open.None? then []
                         else Sequences(Lost(Survivors(old(State()).open.value.log), Canceled(scope)))
    {
      hide Survivors, Group, Lost;
      if open == null {
        return [];
      }
      removed := open.RemoveScope(scope);
      EmptyPlan(Survivors(open.log));
      if open.actions == [] {
        open := null;
      }
    }

    /** Forgets the open window, reporting only how much was lost with it. */
    method Clear() returns (dropped: nat)
      requires Valid()
      modifies this`open
      ensures Valid() && State() == old(State()).(open := None)
      ensures dropped == if old(State()).open.None? then 0
                         else |Survivors(old(State()).open.value.log)|
    {
      dropped := if open == null then 0 else open.retainedActionCount;
      open := null;
    }
  }

  lemma {:induction false} EmptyPlan<S, V>(xs: seq<Input<S, V>>)
    ensures Group(xs) == [] <==> xs == []
  {
    GroupIsNormal(xs);
  }

  method UnitSequences<S, V>(a: PlannedAction<S, V>) returns (r: seq<nat>)
    ensures r == Sequences(InputsOf(a))
  {
    match a
    case Scroll(_, run) =>
      r := [];
      for i := 0 to |run|
        invariant r == Sequences(InputsOf(a))[..i]
      {
        r := r + [run[i].sequence];
      }
    case Click(_, click) => r := [click.sequence];
    case Ordered(_, action) => r := [action.sequence];
  }

  lemma {:induction false} SequencesConcat<S, V>(xs: seq<Input<S, V>>, ys: seq<Input<S, V>>)
    ensures Sequences(xs + ys) == Sequences(xs) + Sequences(ys)
  {
  }

  lemma {:induction false} PartitionStart<S, V>(e: Event<S, V>)
    ensures Retain<S, V>([], e) == [] && Sequences(Lost(Flatten<S, V>([]), e)) == []
  {
  }

  lemma {:induction false} AdmitsSnoc<S, V>(log: seq<Event<S, V>>, e: Event<S, V>)
    ensures Admits(log + [e]) == Admits(log) + if e.Admitted? then 1 else 0
  {
    assert (log + [e])[..|log|] == log;
  }

  lemma {:induction false} OneClickFewer<S, V>(plan: seq<PlannedAction<S, V>>, k: nat)
    requires k < |plan| && plan[k].Click?
    ensures |Flatten(plan[..k] + plan[k + 1..])| == |Flatten(plan)| - 1
  {
    hide Flatten;
    assert plan == plan[..k] + [plan[k]] + plan[k + 1..];
    FlattenConcat(plan[..k] + [plan[k]], plan[k + 1..]);
    FlattenSnoc(plan[..k], plan[k]);
    FlattenConcat(plan[..k], plan[k + 1..]);
  }
}
