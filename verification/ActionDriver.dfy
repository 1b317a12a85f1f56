/** A client that drives the queue object through a list of operations and keeps what it hands
    out. Its contract carries the theorems about runs over to the object. */
module ActionDriver {
  import opened Options
  import opened ActionPlan
  import opened ActionLog
  import opened ActionRuns
  import W = ActionWindow

  /** A click evicts at most the one click of its scope, and nothing else evicts anything. */
  lemma {:induction false} LostCount<S, V>(xs: seq<Input<S, V>>, x: Input<S, V>)
    requires OneClickPerScope(xs)
    ensures |Lost(xs, Admitted(x))| ==
            if x.kind.Clicking? && W.HasClick(xs, x.scope) then 1 else 0
  {
    if xs != [] {
      var front, y := xs[..|xs| - 1], xs[|xs| - 1];
      assert xs == front + [y];
      LostCount(front, x);
      W.ClickSplit(front, [y], x.scope);
      if W.HasClick(front, x.scope) {
        var i :| 0 <= i < |front| && front[i].kind.Clicking? && front[i].scope == x.scope;
        assert xs[i] == front[i];
      }
      assert W.HasClick([y], x.scope) <==> y.kind.Clicking? && y.scope == x.scope by {
        assert [y][0] == y;
      }
    }
  }

  /** What one operation hands out. */
  datatype Effect<S, V> = Effect(
    admissions: seq<Admission<S, V>>,
    released: seq<W.ActionBatch<S, V>>,
    replaced: nat,
    canceled: seq<seq<nat>>,
    dropped: nat)

  /** The effect accounts for the difference between two worlds. */
  ghost predicate Accounts<S, V>(w: World<S, V>, e: Effect<S, V>, u: World<S, V>) {
    && u.admissions == w.admissions + e.admissions
    && u.released == w.released + e.released
    && |u.superseded| == |w.superseded| + e.replaced
    && u.canceled == w.canceled + e.canceled
    && |u.dropped| == |w.dropped| + e.dropped
  }

  function BatchList<S, V>(r: Option<W.ActionBatch<S, V>>): seq<W.ActionBatch<S, V>> {
    if r.Some? then [r.value] else []
  }

  lemma {:induction false} PushAccounts<S, V>(
    w: World<S, V>, scope: S, kind: Kind, value: V, now: int, e: Effect<S, V>)
    requires var x := W.InputFor(w.queue, scope, kind, value, now);
             var into := W.WindowFor(w.queue, now);
             && e.admissions == [Admission(x, into.id)]
             && e.released == BatchList(if W.Due(w.queue, now) then W.Released(w.queue, now, W.Deadline) else None)
             && e.replaced == (if W.CompactionOf(Survivors(into.log), x) == W.ReplacedClick then 1 else 0)
             && e.canceled == [] && e.dropped == 0
    ensures var u := Step(w, PushOp(scope, kind, value, now));
            u.queue == W.AfterPush(w.queue, scope, kind, value, now) && Accounts(w, e, u)
  {
    hide Survivors, Group, Lost;
    var x := W.InputFor(w.queue, scope, kind, value, now);
    var into := W.WindowFor(w.queue, now);
    SurvivorsOneClick(into.log);
    LostCount(Survivors(into.log), x);
    assert W.WindowFor(Rotate(w, now).queue, now) == into;
    if W.Due(w.queue, now) {
      RotateThenJoin(w.queue, scope, kind, value, now);
    }
  }

  /** Calls the method of one operation. */
  method Perform<S(==), V>(q: W.ActionWindow<S, V>, op: Op<S, V>, ghost w: World<S, V>)
    returns (e: Effect<S, V>)
    requires q.Valid() && q.State() == w.queue
    requires q.nextSequence < W.MAX_ID && q.nextBatchId < W.MAX_ID
    requires op.PushOp? ==> op.now + W.WINDOW_DURATION <= q.lastInstant
    modifies q, q.open
    ensures q.Valid() && (q.open == old(q.open) || q.open == null || fresh(q.open))
    ensures q.State() == Step(w, op).queue && Accounts(w, e, Step(w, op))
  {
    hide Survivors, Group, Lost, Sequences, W.CompactionOf;
    match op {
      case PushOp(scope, kind, value, now) =>
        var r := q.Push(scope, kind, value, now);
        var x := Input(scope, kind, Scheduled(r.sequence, now, value));
        e := Effect([Admission(x, r.batchId)], BatchList(r.readyBatch),
                    if r.compaction == W.ReplacedClick then 1 else 0, [], 0);
        PushAccounts(w, scope, kind, value, now, e);
      case TakeDueOp(now) =>
        var r := q.TakeDue(now);
        e := Effect([], BatchList(r), 0, [], 0);
      case FlushOp(barrier, now) =>
        var r := q.Flush(barrier, now);
        e := Effect([], BatchList(r), 0, [], 0);
      case CancelOp(scope) =>
        NothingKept<S, V>(Canceled(scope));
        NoSequences<S, V>();
        var removed := q.CancelScope(scope);
        e := Effect([], [], 0, [removed], 0);
      case ClearOp =>
        var n := q.Clear();
        SequencesLength(Pending(w.queue));
        e := Effect([], [], 0, [], n);
    }
  }

  lemma {:induction false} SequencesLength<S, V>(xs: seq<Input<S, V>>)
    ensures |Sequences(xs)| == |xs|
  {
  }

  /** Identities grow by at most one per operation. */
  lemma {:induction false} IdsBounded<S, V>(ops: seq<Op<S, V>>)
    ensures 1 <= Run(ops).queue.nextSequence <= |ops| + 1
    ensures 1 <= Run(ops).queue.nextBatchId <= |ops| + 1
  {
    hide Survivors, Group, Lost;
    if ops != [] {
      IdsBounded(ops[..|ops| - 1]);
    }
  }

  /** Drives a fresh queue through any list of operations: the object ends in the state of the
      run, and what it handed out on the way is what the run says. */
  method Execute<S(==), V>(ops: seq<Op<S, V>>, ghost lastInstant: int)
    returns (q: W.ActionWindow<S, V>, admissions: seq<Admission<S, V>>,
             released: seq<W.ActionBatch<S, V>>, replaced: nat, canceled: seq<seq<nat>>, dropped: nat)
    requires |ops| < W.MAX_ID
    requires forall i :: 0 <= i < |ops| && ops[i].PushOp? ==>
                           ops[i].now + W.WINDOW_DURATION <= lastInstant
    ensures q.Valid() && q.State() == Run(ops).queue
    ensures admissions == Run(ops).admissions && released == Run(ops).released
    ensures replaced == |Run(ops).superseded|
    ensures canceled == Run(ops).canceled && dropped == |Run(ops).dropped|
  {
    hide Step;
    q := new W.ActionWindow(lastInstant);
    admissions, released, replaced, canceled, dropped := [], [], 0, [], 0;
    for i := 0 to |ops|
      invariant q.Valid() && fresh(q) && q.lastInstant == lastInstant && (q.open != null ==> fresh(q.open))
      invariant q.State() == Run(ops[..i]).queue
      invariant admissions == Run(ops[..i]).admissions && released == Run(ops[..i]).released
      invariant replaced == |Run(ops[..i]).superseded|
      invariant canceled == Run(ops[..i]).canceled && dropped == |Run(ops[..i]).dropped|
    {
      ghost var w := Run(ops[..i]);
      IdsBounded(ops[..i]);
      assert ops[..i + 1][..i] == ops[..i];
      var e := Perform(q, ops[i], w);
      admissions, released, replaced := admissions + e.admissions, released + e.released, replaced + e.replaced;
      canceled, dropped := canceled + e.canceled, dropped + e.dropped;
    }
    assert ops[..|ops|] == ops;
  }
}
