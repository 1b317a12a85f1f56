/** Whole runs of the action window: where every sequence number ends up, in which order batches
    leave, and when. */
module ActionRuns {
  import opened Options
  import opened ActionPlan
  import opened ActionLog
  import opened ActionWindow

  datatype Op<S, V> =
    | PushOp(scope: S, kind: Kind, value: V, now: int)
    | TakeDueOp(now: int)
    | FlushOp(barrier: ActionBarrier, now: int)
    | CancelOp(scope: S)
    | ClearOp

  /** A click that gave way to a later click of its scope in the same window. */
  datatype Supersession<S, V> = Supersession(older: Input<S, V>, newer: Input<S, V>, batchId: nat)

  /** An input and the window it was admitted to. */
  datatype Admission<S, V> = Admission(input: Input<S, V>, batchId: nat)

  /** The queue together with everything that has entered and left it. */
  datatype World<S, V> = World(
    queue: QueueState<S, V>,
    admissions: seq<Admission<S, V>>,
    released: seq<ActionBatch<S, V>>,
    superseded: seq<Supersession<S, V>>,
    canceled: seq<seq<nat>>,
    dropped: seq<nat>)

  ghost function Pending<S, V>(q: QueueState<S, V>): seq<Input<S, V>> {
    if q.open.Some? then Survivors(q.open.value.log) else []
  }

  ghost function BatchIf<S, V>(r: Option<ActionBatch<S, V>>): seq<ActionBatch<S, V>> {
    if r.Some? then [r.value] else []
  }

  ghost function Supersessions<S, V>(lost: seq<Input<S, V>>, newer: Input<S, V>, id: nat)
    : seq<Supersession<S, V>>
  {
    seq(|lost|, i requires 0 <= i < |lost| => Supersession(lost[i], newer, id))
  }

  ghost function Close<S, V>(w: World<S, V>, now: int, cause: ActionBatchCause): World<S, V> {
    w.(queue := w.queue.(open := None),
       released := w.released + BatchIf(Released(w.queue, now, cause)))
  }

  /** A window that is due leaves before the new input is admitted. */
  ghost function Rotate<S, V>(w: World<S, V>, now: int): World<S, V> {
    if Due(w.queue, now) then Close(w, now, Deadline) else w
  }

  ghost function Join<S, V>(w: World<S, V>, scope: S, kind: Kind, value: V, now: int): World<S, V> {
    var x := InputFor(w.queue, scope, kind, value, now);
    var into := WindowFor(w.queue, now);
    w.(queue := AfterPush(w.queue, scope, kind, value, now),
       admissions := w.admissions + [Admission(x, into.id)],
       superseded := w.superseded +
                     Supersessions(Lost(Survivors(into.log), Admitted(x)), x, into.id))
  }

  ghost function Step<S, V>(w: World<S, V>, op: Op<S, V>): World<S, V> {
    match op
    case PushOp(scope, kind, value, now) => Join(Rotate(w, now), scope, kind, value, now)
    case TakeDueOp(now) => Rotate(w, now)
    case FlushOp(barrier, now) => Close(w, now, Barrier(barrier))
    case CancelOp(scope) =>
      w.(queue := AfterCancel(w.queue, scope),
         canceled := w.canceled + [Sequences(Lost(Pending(w.queue), Canceled(scope)))])
    case ClearOp =>
      w.(queue := w.queue.(open := None), dropped := w.dropped + Sequences(Pending(w.queue)))
  }

  ghost function Initial<S, V>(): World<S, V> {
    World(QueueState(1, 1, None), [], [], [], [], [])
  }

  ghost function Run<S, V>(ops: seq<Op<S, V>>): World<S, V> {
    if ops == [] then Initial() else Step(Run(ops[..|ops| - 1]), ops[|ops| - 1])
  }

  /** Rotating first and then joining is what one push does. */
  lemma {:induction false} RotateThenJoin<S, V>(
    q: QueueState<S, V>, scope: S, kind: Kind, value: V, now: int)
    requires Due(q, now)
    ensures AfterPush(q.(open := None), scope, kind, value, now) == AfterPush(q, scope, kind, value, now)
  {
  }

  // ----- Invariants -----------------------------------------------------------------------

  ghost function BatchSequences<S, V>(b: ActionBatch<S, V>): seq<nat> {
    Sequences(Flatten(b.actions))
  }

  ghost function ReleasedSequences<S, V>(bs: seq<ActionBatch<S, V>>): seq<nat> {
    if bs == [] then []
    else ReleasedSequences(bs[..|bs| - 1]) + BatchSequences(bs[|bs| - 1])
  }

  ghost function SupersededSequences<S, V>(ss: seq<Supersession<S, V>>): seq<nat> {
    seq(|ss|, i requires 0 <= i < |ss| => ss[i].older.step.sequence)
  }

  ghost function Concatenated(parts: seq<seq<nat>>): seq<nat> {
    if parts == [] then [] else Concatenated(parts[..|parts| - 1]) + parts[|parts| - 1]
  }

  /** Every place a sequence number can be. */
  ghost function Places<S, V>(w: World<S, V>): multiset<nat> {
    multiset(ReleasedSequences(w.released)) + multiset(SupersededSequences(w.superseded)) +
    multiset(Concatenated(w.canceled)) + multiset(w.dropped) + multiset(Sequences(Pending(w.queue)))
  }

  ghost function Issued(n: nat): multiset<nat> {
    if n <= 1 then multiset{} else Issued(n - 1) + multiset{n - 1}
  }

  /** Each issued sequence number is in one place, and nothing else is anywhere. */
  ghost predicate Conserved<S, V>(w: World<S, V>) {
    Places(w) == Issued(w.queue.nextSequence) && w.queue.nextSequence >= 1
  }

  lemma {:induction false} IssuedOnce(n: nat, k: nat)
    ensures Issued(n)[k] == if 1 <= k < n then 1 else 0
  {
    if n > 1 {
      IssuedOnce(n - 1, k);
    }
  }

  lemma {:induction false} KeptAndLost<S, V>(xs: seq<Input<S, V>>, e: Event<S, V>)
    ensures multiset(Sequences(Keep(xs, e))) + multiset(Sequences(Lost(xs, e))) ==
            multiset(Sequences(xs))
  {
    hide Kills, Sequences;
    if xs == [] {
      NoSequences<S, V>();
    } else {
      var front, x := xs[..|xs| - 1], xs[|xs| - 1];
      assert xs == front + [x];
      KeptAndLost(front, e);
      KeepConcat(front, [x], e);
      KeepOne(x, e);
      SequencesConcat(front, [x]);
      SequencesConcat(Keep(front, e), [x]);
      SequencesConcat(Lost(front, e), [x]);
      if Kills(e, x) {
        assert Keep(xs, e) == Keep(front, e);
      } else {
        assert Lost(xs, e) == Lost(front, e);
      }
    }
  }

  /** What one event does to the pending sequences. */
  lemma {:induction false} PendingChange<S, V>(log: seq<Event<S, V>>, e: Event<S, V>)
    ensures multiset(Sequences(Survivors(log + [e]))) + multiset(Sequences(Lost(Survivors(log), e))) ==
            multiset(Sequences(Survivors(log))) + multiset(Sequences(Entering(e)))
  {
    hide Survivors, Sequences, Entering, Lost;
    SurvivorsSnoc(log, e);
    KeptAndLost(Survivors(log), e);
    SequencesConcat(Keep(Survivors(log), e), Entering(e));
  }

  lemma {:induction false} CloseConserves<S, V>(w: World<S, V>, now: int, cause: ActionBatchCause)
    requires Conserved(w)
    ensures Conserved(Close(w, now, cause))
  {
    hide Survivors, Sequences, Issued, Flatten, Group;
    if w.queue.open.Some? {
      var b := Released(w.queue, now, cause).value;
      GroupIsNormal(Pending(w.queue));
      assert BatchSequences(b) == Sequences(Pending(w.queue));
      assert (w.released + [b])[..|w.released|] == w.released;
      NoSequences<S, V>();
    } else {
      assert w.released + [] == w.released;
    }
  }

  lemma {:induction false} NoSequences<S, V>()
    ensures Sequences<S, V>([]) == []
  {
  }

  lemma {:induction false} PendingFor<S, V>(q: QueueState<S, V>, now: int)
    requires !Due(q, now)
    ensures Survivors(WindowFor(q, now).log) == Pending(q)
  {
  }

  lemma {:induction false} SupersededGrows<S, V>(
    ss: seq<Supersession<S, V>>, lost: seq<Input<S, V>>, newer: Input<S, V>, id: nat)
    ensures SupersededSequences(ss + Supersessions(lost, newer, id)) ==
            SupersededSequences(ss) + Sequences(lost)
  {
  }

  lemma {:induction false} JoinConserves<S, V>(
    w: World<S, V>, scope: S, kind: Kind, value: V, now: int)
    requires Conserved(w) && !Due(w.queue, now)
    ensures Conserved(Join(w, scope, kind, value, now))
  {
    hide Survivors, Sequences, Lost, Supersessions, ReleasedSequences, SupersededSequences, Concatenated;
    var x := InputFor(w.queue, scope, kind, value, now);
    var into := WindowFor(w.queue, now);
    PendingFor(w.queue, now);
    PendingChange(into.log, Admitted(x));
    SupersededGrows(w.superseded, Lost(Survivors(into.log), Admitted(x)), x, into.id);
    OneSequence(x);
    var after, lost := Join(w, scope, kind, value, now), Lost(Survivors(into.log), Admitted(x));
    assert Pending(after.queue) == Survivors(into.log + [Admitted(x)]);
    assert multiset(SupersededSequences(after.superseded)) ==
           multiset(SupersededSequences(w.superseded)) + multiset(Sequences(lost));
    assert Entering(Admitted(x)) == [x];
    assert multiset(Sequences([x])) == multiset{w.queue.nextSequence};
    assert multiset(Sequences(Pending(after.queue))) + multiset(Sequences(lost)) ==
           multiset(Sequences(Pending(w.queue))) + multiset{w.queue.nextSequence};
    Exchange(multiset(ReleasedSequences(w.released)), multiset(SupersededSequences(w.superseded)),
             multiset(Concatenated(w.canceled)), multiset(w.dropped),
             multiset(Sequences(Pending(w.queue))), multiset(Sequences(Pending(after.queue))),
             multiset(Sequences(lost)), multiset{w.queue.nextSequence});
    assert Places(after) == Places(w) + multiset{w.queue.nextSequence};
  }

  lemma {:induction false} Exchange<T>(
    r: multiset<T>, s: multiset<T>, c: multiset<T>, d: multiset<T>,
    p: multiset<T>, q: multiset<T>, lost: multiset<T>, one: multiset<T>)
    requires q + lost == p + one
    ensures r + (s + lost) + c + d + q == r + s + c + d + p + one
  {
    var rest := r + s + c + d;
    assert r + (s + lost) + c + d + q == rest + (q + lost);
    assert rest + p + one == rest + (p + one);
  }

  lemma {:induction false} OneSequence<S, V>(x: Input<S, V>)
    ensures Sequences([x]) == [x.step.sequence]
  {
  }

  lemma {:induction false} CancelConserves<S, V>(w: World<S, V>, scope: S)
    requires Conserved(w)
    ensures Conserved(Step(w, CancelOp(scope)))
  {
    hide Survivors, Sequences, Lost, ReleasedSequences, SupersededSequences, Issued;
    var lost := Sequences(Lost(Pending(w.queue), Canceled(scope)));
    assert (w.canceled + [lost])[..|w.canceled|] == w.canceled;
    NoSequences<S, V>();
    var after := Step(w, CancelOp(scope));
    assert multiset(Concatenated(after.canceled)) == multiset(Concatenated(w.canceled)) + multiset(lost);
    if w.queue.open.Some? {
      var log := w.queue.open.value.log;
      PendingChange(log, Canceled(scope));
      assert Pending(after.queue) == Survivors(log + [Canceled(scope)]);
    } else {
      KeptAndLost<S, V>([], Canceled(scope));
      NothingKept<S, V>(Canceled(scope));
    }
    assert multiset(Sequences(Pending(after.queue))) + multiset(lost) ==
           multiset(Sequences(Pending(w.queue)));
  }

  lemma {:induction false} NothingKept<S, V>(e: Event<S, V>)
    ensures Keep<S, V>([], e) == [] && Lost<S, V>([], e) == []
  {
  }

  lemma {:induction false} ClearConserves<S, V>(w: World<S, V>)
    requires Conserved(w)
    ensures Conserved(Step(w, ClearOp))
  {
    hide Survivors, Sequences, ReleasedSequences, SupersededSequences, Concatenated, Issued;
    NoSequences<S, V>();
  }

  lemma {:induction false} StepConserves<S, V>(w: World<S, V>, op: Op<S, V>)
    requires Conserved(w)
    ensures Conserved(Step(w, op))
  {
    hide Conserved;
    match op
    case PushOp(scope, kind, value, now) =>
      CloseConserves(w, now, Deadline);
      JoinConserves(Rotate(w, now), scope, kind, value, now);
    case TakeDueOp(now) => CloseConserves(w, now, Deadline);
    case FlushOp(barrier, now) => CloseConserves(w, now, Barrier(barrier));
    case CancelOp(scope) => CancelConserves(w, scope);
    case ClearOp => ClearConserves(w);
  }

  /** Over any run every issued sequence number is in exactly one place: one released batch,
      superseded, canceled, dropped by a clear, or still pending. */
  lemma {:induction false} RunConserves<S, V>(ops: seq<Op<S, V>>)
    ensures Conserved(Run(ops))
    ensures forall n: nat :: Places(Run(ops))[n] == if 1 <= n < Run(ops).queue.nextSequence then 1 else 0
  {
    hide Step, Places, Issued;
    if ops == [] {
      InitialConserved<S, V>();
    } else {
      RunConserves(ops[..|ops| - 1]);
      StepConserves(Run(ops[..|ops| - 1]), ops[|ops| - 1]);
    }
    forall n: nat
      ensures Places(Run(ops))[n] == if 1 <= n < Run(ops).queue.nextSequence then 1 else 0
    {
      IssuedOnce(Run(ops).queue.nextSequence, n);
    }
  }

  lemma {:induction false} InitialConserved<S, V>()
    ensures Conserved(Initial<S, V>())
  {
  }

  // ----- Global order ---------------------------------------------------------------------

  ghost predicate Rising(s: seq<nat>) {
    forall i, j :: 0 <= i < j < |s| ==> s[i] < s[j]
  }

  lemma {:induction false} RisingConcat(a: seq<nat>, b: seq<nat>)
    ensures Rising(a + b) <==>
              Rising(a) && Rising(b) && forall x, y :: x in a && y in b ==> x < y
  {
    if Rising(a + b) {
      forall x, y | x in a && y in b ensures x < y {
        var i :| 0 <= i < |a| && a[i] == x;
        var j :| 0 <= j < |b| && b[j] == y;
        assert (a + b)[i] < (a + b)[|a| + j];
      }
      forall i, j | 0 <= i < j < |a| ensures a[i] < a[j] { assert (a + b)[i] < (a + b)[j]; }
      forall i, j | 0 <= i < j < |b| ensures b[i] < b[j] {
        assert (a + b)[|a| + i] < (a + b)[|a| + j];
      }
    }
    if Rising(a) && Rising(b) && forall x, y :: x in a && y in b ==> x < y {
      forall i, j | 0 <= i < j < |a + b| ensures (a + b)[i] < (a + b)[j] {
        if i < |a| <= j {
          assert a[i] in a && b[j - |a|] in b;
        }
      }
    }
  }

  lemma {:induction false} SequencesMember<S, V>(xs: seq<Input<S, V>>, n: nat)
    ensures n in Sequences(xs) <==> exists x :: x in xs && x.step.sequence == n
  {
    if n in Sequences(xs) {
      var i :| 0 <= i < |xs| && Sequences(xs)[i] == n;
      assert xs[i] in xs;
    }
    if x :| x in xs && x.step.sequence == n {
      var i :| 0 <= i < |xs| && xs[i] == x;
      assert Sequences(xs)[i] == n;
    }
  }

  /** Dropping inputs keeps an order, and so does collecting the dropped ones. */
  lemma {:induction false} KeptRising<S, V>(xs: seq<Input<S, V>>, e: Event<S, V>)
    requires Rising(Sequences(xs))
    ensures Rising(Sequences(Keep(xs, e))) && Rising(Sequences(Lost(xs, e)))
    ensures forall n :: n in Sequences(Keep(xs, e)) || n in Sequences(Lost(xs, e)) ==> n in Sequences(xs)
  {
    hide Kills, Sequences, Rising;
    if xs == [] {
      NoSequences<S, V>();
    } else {
      var front, x := xs[..|xs| - 1], xs[|xs| - 1];
      assert xs == front + [x];
      SequencesConcat(front, [x]);
      OneSequence(x);
      RisingConcat(Sequences(front), [x.step.sequence]);
      KeptRising(front, e);
      KeepConcat(front, [x], e);
      KeepOne(x, e);
      if Kills(e, x) {
        assert Keep(xs, e) == Keep(front, e);
        SequencesConcat(Lost(front, e), [x]);
        RisingConcat(Sequences(Lost(front, e)), [x.step.sequence]);
      } else {
        assert Lost(xs, e) == Lost(front, e);
        SequencesConcat(Keep(front, e), [x]);
        RisingConcat(Sequences(Keep(front, e)), [x.step.sequence]);
      }
    }
  }

  /** The sequences in the order in which they run: released batches, then pending work. */
  ghost function Timeline<S, V>(w: World<S, V>): seq<nat> {
    ReleasedSequences(w.released) + Sequences(Pending(w.queue))
  }

  ghost function BatchIds<S, V>(w: World<S, V>): seq<nat> {
    seq(|w.released|, i requires 0 <= i < |w.released| => w.released[i].id) +
    if w.queue.open.Some? then [w.queue.open.value.id] else []
  }

  ghost predicate Below(s: seq<nat>, n: nat) {
    forall x :: x in s ==> x < n
  }

  /** The older click gave way to a later one of its scope. */
  ghost predicate Justified<S, V>(s: Supersession<S, V>) {
    && s.older.kind.Clicking? && s.newer.kind.Clicking? && s.older.scope == s.newer.scope
    && s.older.step.sequence < s.newer.step.sequence
  }

  ghost predicate OrderedWorld<S, V>(w: World<S, V>) {
    && Rising(Timeline(w)) && Below(Timeline(w), w.queue.nextSequence)
    && Rising(BatchIds(w)) && Below(BatchIds(w), w.queue.nextBatchId)
    && (forall i :: 0 <= i < |w.canceled| ==> Rising(w.canceled[i]))
    && (forall i :: 0 <= i < |w.superseded| ==> Justified(w.superseded[i]))
  }

  lemma {:induction false} CloseKeepsOrder<S, V>(w: World<S, V>, now: int, cause: ActionBatchCause)
    ensures Timeline(Close(w, now, cause)) == Timeline(w)
    ensures BatchIds(Close(w, now, cause)) == BatchIds(w)
  {
    hide Survivors, Sequences, Flatten, Group;
    NoSequences<S, V>();
    if w.queue.open.Some? {
      var b := Released(w.queue, now, cause).value;
      GroupIsNormal(Pending(w.queue));
      assert BatchSequences(b) == Sequences(Pending(w.queue));
      assert (w.released + [b])[..|w.released|] == w.released;
    } else {
      assert w.released + [] == w.released;
    }
  }

  lemma {:induction false} RisingSnoc(s: seq<nat>, n: nat)
    requires Rising(s) && Below(s, n)
    ensures Rising(s + [n]) && Below(s + [n], n + 1)
  {
    RisingConcat(s, [n]);
    assert forall x :: x in s + [n] ==> x in s || x == n;
  }

  lemma {:induction false} BelowConcat(a: seq<nat>, b: seq<nat>, n: nat)
    ensures Below(a + b, n) <==> Below(a, n) && Below(b, n)
  {
    assert forall x :: x in a + b <==> x in a || x in b;
  }

  /** An event thins out the tail of a rising sequence. */
  lemma {:induction false} ThinnedRising<S, V>(a: seq<nat>, xs: seq<Input<S, V>>, e: Event<S, V>, n: nat)
    requires Rising(a + Sequences(xs)) && Below(a + Sequences(xs), n)
    ensures Rising(a + Sequences(Keep(xs, e))) && Below(a + Sequences(Keep(xs, e)), n)
    ensures Rising(Sequences(Lost(xs, e))) && Below(Sequences(Lost(xs, e)), n)
  {
    hide Keep, Lost, Sequences, Rising;
    RisingConcat(a, Sequences(xs));
    KeptRising(xs, e);
    RisingConcat(a, Sequences(Keep(xs, e)));
    BelowConcat(a, Sequences(xs), n);
    BelowConcat(a, Sequences(Keep(xs, e)), n);
  }

  lemma {:induction false} JoinKeepsTimeline<S, V>(
    w: World<S, V>, scope: S, kind: Kind, value: V, now: int)
    requires OrderedWorld(w) && !Due(w.queue, now)
    ensures var after := Join(w, scope, kind, value, now);
            Rising(Timeline(after)) && Below(Timeline(after), after.queue.nextSequence)
  {
    hide Survivors, Sequences, Rising, Below, Keep, Lost, ReleasedSequences;
    var x := InputFor(w.queue, scope, kind, value, now);
    var into := WindowFor(w.queue, now);
    var a := ReleasedSequences(w.released);
    PendingFor(w.queue, now);
    SurvivorsSnoc(into.log, Admitted(x));
    ThinnedRising(a, Pending(w.queue), Admitted(x), w.queue.nextSequence);
    var kept := Keep(Pending(w.queue), Admitted(x));
    SequencesConcat(kept, [x]);
    OneSequence(x);
    RisingSnoc(a + Sequences(kept), w.queue.nextSequence);
    assert Timeline(Join(w, scope, kind, value, now)) == (a + Sequences(kept)) + [w.queue.nextSequence];
  }

  lemma {:induction false} LostKilled<S, V>(xs: seq<Input<S, V>>, e: Event<S, V>, i: nat)
    requires i < |Lost(xs, e)|
    ensures Lost(xs, e)[i] in xs && Kills(e, Lost(xs, e)[i])
  {
    if i < |Lost(xs[..|xs| - 1], e)| {
      LostKilled(xs[..|xs| - 1], e, i);
    }
  }

  lemma {:induction false} JoinJustifies<S, V>(
    w: World<S, V>, scope: S, kind: Kind, value: V, now: int)
    requires OrderedWorld(w) && !Due(w.queue, now)
    ensures var after := Join(w, scope, kind, value, now);
            forall i :: 0 <= i < |after.superseded| ==> Justified(after.superseded[i])
  {
    hide Survivors, Rising, Keep, Lost;
    var x := InputFor(w.queue, scope, kind, value, now);
    var into := WindowFor(w.queue, now);
    PendingFor(w.queue, now);
    var pending, n := Pending(w.queue), |w.superseded|;
    var lost := Lost(pending, Admitted(x));
    var after := Join(w, scope, kind, value, now);
    forall i | n <= i < |after.superseded| ensures Justified(after.superseded[i]) {
      LostKilled(pending, Admitted(x), i - n);
      var older := lost[i - n];
      SequencesMember(pending, older.step.sequence);
      assert older.step.sequence in Timeline(w);
    }
  }

  lemma {:induction false} JoinKeepsIds<S, V>(
    w: World<S, V>, scope: S, kind: Kind, value: V, now: int)
    requires OrderedWorld(w) && !Due(w.queue, now)
    ensures var after := Join(w, scope, kind, value, now);
            Rising(BatchIds(after)) && Below(BatchIds(after), after.queue.nextBatchId)
  {
    hide Rising, Below, Survivors, Timeline;
    var after := Join(w, scope, kind, value, now);
    if w.queue.open.None? {
      assert BatchIds(after) == BatchIds(w) + [w.queue.nextBatchId];
      RisingSnoc(BatchIds(w), w.queue.nextBatchId);
    } else {
      assert BatchIds(after) == BatchIds(w);
    }
  }

  lemma {:induction false} CloseOrdered<S, V>(w: World<S, V>, now: int, cause: ActionBatchCause)
    requires OrderedWorld(w)
    ensures OrderedWorld(Close(w, now, cause))
  {
    hide Timeline, BatchIds, Rising, Below, Released;
    CloseKeepsOrder(w, now, cause);
  }

  lemma {:induction false} JoinOrdered<S, V>(
    w: World<S, V>, scope: S, kind: Kind, value: V, now: int)
    requires OrderedWorld(w) && !Due(w.queue, now)
    ensures OrderedWorld(Join(w, scope, kind, value, now))
  {
    hide Timeline, BatchIds, Rising, Below, Justified, Lost, Survivors, Supersessions;
    JoinKeepsTimeline(w, scope, kind, value, now);
    JoinKeepsIds(w, scope, kind, value, now);
    JoinJustifies(w, scope, kind, value, now);
  }

  lemma {:induction false} RisingPrefix(a: seq<nat>, b: seq<nat>, n: nat)
    requires Rising(a + b) && Below(a + b, n)
    ensures Rising(a) && Below(a, n)
  {
    RisingConcat(a, b);
    BelowConcat(a, b, n);
  }

  lemma {:induction false} CancelOrdered<S, V>(w: World<S, V>, scope: S)
    requires OrderedWorld(w)
    ensures OrderedWorld(Step(w, CancelOp(scope)))
  {
    hide Survivors, Sequences, Rising, Below, Keep, Lost, ReleasedSequences, Justified;
    var a, e := ReleasedSequences(w.released), Canceled(scope);
    var after := Step(w, CancelOp(scope));
    ThinnedRising(a, Pending(w.queue), e, w.queue.nextSequence);
    if w.queue.open.Some? {
      SurvivorsSnoc(w.queue.open.value.log, e);
      assert Pending(after.queue) == Keep(Pending(w.queue), e);
    } else {
      NothingKept<S, V>(e);
    }
    var ids := seq(|w.released|, i requires 0 <= i < |w.released| => w.released[i].id);
    RisingPrefix(ids, BatchIds(w)[|ids|..], w.queue.nextBatchId);
    assert BatchIds(after) == BatchIds(w) || BatchIds(after) == ids;
  }

  lemma {:induction false} ClearOrdered<S, V>(w: World<S, V>)
    requires OrderedWorld(w)
    ensures OrderedWorld(Step(w, ClearOp))
  {
    hide Survivors, Sequences, Rising, Below, ReleasedSequences, Justified;
    var a, after := ReleasedSequences(w.released), Step(w, ClearOp);
    NoSequences<S, V>();
    RisingPrefix(a, Sequences(Pending(w.queue)), w.queue.nextSequence);
    var ids := seq(|w.released|, i requires 0 <= i < |w.released| => w.released[i].id);
    RisingPrefix(ids, BatchIds(w)[|ids|..], w.queue.nextBatchId);
    assert Timeline(after) == a && BatchIds(after) == ids;
  }

  lemma {:induction false} StepOrdered<S, V>(w: World<S, V>, op: Op<S, V>)
    requires OrderedWorld(w)
    ensures OrderedWorld(Step(w, op))
  {
    hide OrderedWorld;
    match op
    case PushOp(scope, kind, value, now) =>
      CloseOrdered(w, now, Deadline);
      JoinOrdered(Rotate(w, now), scope, kind, value, now);
    case TakeDueOp(now) => CloseOrdered(w, now, Deadline);
    case FlushOp(barrier, now) => CloseOrdered(w, now, Barrier(barrier));
    case CancelOp(scope) => CancelOrdered(w, scope);
    case ClearOp => ClearOrdered(w);
  }

  // ----- Windows --------------------------------------------------------------------------

  /** Every sequence number has one admission, found at its own place. */
  ghost predicate Numbered<S, V>(w: World<S, V>) {
    && |w.admissions| + 1 == w.queue.nextSequence
    && forall k :: 0 <= k < |w.admissions| ==> w.admissions[k].input.step.sequence == k + 1
  }

  ghost predicate LogTraced<S, V>(admissions: seq<Admission<S, V>>, v: WindowLog<S, V>) {
    forall i :: 0 <= i < |v.log| && v.log[i].Admitted? ==>
                  Admission(v.log[i].input, v.id) in admissions
  }

  ghost predicate BatchTraced<S, V>(admissions: seq<Admission<S, V>>, b: ActionBatch<S, V>) {
    forall x :: x in Flatten(b.actions) ==> Admission(x, b.id) in admissions
  }

  ghost predicate SameWindow<S, V>(admissions: seq<Admission<S, V>>, s: Supersession<S, V>) {
    Admission(s.older, s.batchId) in admissions && Admission(s.newer, s.batchId) in admissions
  }

  /** Pending and released inputs are in the window they were admitted to, and a click is
      superseded by a click of its own window. */
  ghost predicate TracedWorld<S, V>(w: World<S, V>) {
    && Numbered(w)
    && (w.queue.open.Some? ==> LogTraced(w.admissions, w.queue.open.value))
    && (forall i :: 0 <= i < |w.released| ==> BatchTraced(w.admissions, w.released[i]))
    && (forall i :: 0 <= i < |w.superseded| ==> SameWindow(w.admissions, w.superseded[i]))
  }

  lemma {:induction false} SurvivorTraced<S, V>(
    admissions: seq<Admission<S, V>>, v: WindowLog<S, V>, x: Input<S, V>)
    requires LogTraced(admissions, v) && x in Survivors(v.log)
    ensures Admission(x, v.id) in admissions
  {
    hide Survivors, Killed;
    SurvivorAdmitted(v.log, x);
    var i :| 0 <= i < |v.log| && v.log[i] == Admitted(x) && !Killed(x, v.log[i + 1..]);
  }

  lemma {:induction false} CloseTraced<S, V>(w: World<S, V>, now: int, cause: ActionBatchCause)
    requires TracedWorld(w)
    ensures TracedWorld(Close(w, now, cause))
  {
    hide Survivors, Group, Flatten, SameWindow, LogTraced, Numbered;
    assert Numbered(Close(w, now, cause)) by { NumberedFor(w, Close(w, now, cause)); }
    if w.queue.open.Some? {
      var v := w.queue.open.value;
      GroupIsNormal(Survivors(v.log));
      forall x | x in Survivors(v.log) ensures Admission(x, v.id) in w.admissions {
        SurvivorTraced(w.admissions, v, x);
      }
      assert BatchTraced(w.admissions, BatchOf(v, now, cause));
    }
  }

  lemma {:induction false} NumberedFor<S, V>(w: World<S, V>, u: World<S, V>)
    requires Numbered(w) && u.admissions == w.admissions
    requires u.queue.nextSequence == w.queue.nextSequence
    ensures Numbered(u)
  {
  }

  lemma {:induction false} JoinTraced<S, V>(w: World<S, V>, scope: S, kind: Kind, value: V, now: int)
    requires TracedWorld(w) && !Due(w.queue, now)
    ensures TracedWorld(Join(w, scope, kind, value, now))
  {
    hide Survivors, Group, Flatten, Lost;
    var x := InputFor(w.queue, scope, kind, value, now);
    var into, n := WindowFor(w.queue, now), |w.superseded|;
    var after := Join(w, scope, kind, value, now);
    assert w.admissions <= after.admissions && Admission(x, into.id) in after.admissions;
    assert LogTraced(w.admissions, into);
    var lost := Lost(Survivors(into.log), Admitted(x));
    forall i | n <= i < |after.superseded| ensures SameWindow(after.admissions, after.superseded[i]) {
      LostKilled(Survivors(into.log), Admitted(x), i - n);
      SurvivorTraced(w.admissions, into, lost[i - n]);
    }
  }

  lemma {:induction false} StepTraced<S, V>(w: World<S, V>, op: Op<S, V>)
    requires TracedWorld(w)
    ensures TracedWorld(Step(w, op))
  {
    hide Survivors, Group, Flatten, Lost, Sequences, BatchTraced, SameWindow;
    match op
    case PushOp(scope, kind, value, now) =>
      CloseTraced(w, now, Deadline);
      JoinTraced(Rotate(w, now), scope, kind, value, now);
    case TakeDueOp(now) => CloseTraced(w, now, Deadline);
    case FlushOp(barrier, now) => CloseTraced(w, now, Barrier(barrier));
    case CancelOp(scope) =>
    case ClearOp =>
  }

  lemma {:induction false} RunTraced<S, V>(ops: seq<Op<S, V>>)
    ensures TracedWorld(Run(ops))
  {
    hide Step, BatchTraced, SameWindow, LogTraced;
    if ops != [] {
      RunTraced(ops[..|ops| - 1]);
      StepTraced(Run(ops[..|ops| - 1]), ops[|ops| - 1]);
    }
  }

  /** Over any run sequences and batch ids leave in the order they were issued, canceled
      sequences are reported in order, released and pending inputs are in the window they were
      admitted to, and only a later click of its scope and window supersedes a click. */
  lemma {:induction false} RunOrdered<S, V>(ops: seq<Op<S, V>>)
    ensures OrderedWorld(Run(ops)) && TracedWorld(Run(ops))
  {
    hide Step, OrderedWorld, TracedWorld;
    RunTraced(ops);
    if ops == [] {
      InitialOrdered<S, V>();
    } else {
      RunOrdered(ops[..|ops| - 1]);
      StepOrdered(Run(ops[..|ops| - 1]), ops[|ops| - 1]);
    }
  }

  lemma {:induction false} InitialOrdered<S, V>()
    ensures OrderedWorld(Initial<S, V>())
  {
  }

  // ----- Counting admissions --------------------------------------------------------------

  /** The positions of the admissions to one window. */
  ghost function AdmittedTo<S, V>(admissions: seq<Admission<S, V>>, id: nat): set<int> {
    set k | 0 <= k < |admissions| && admissions[k].batchId == id
  }

  ghost predicate CountedWorld<S, V>(w: World<S, V>) {
    && (forall k :: 0 <= k < |w.admissions| ==> w.admissions[k].batchId < w.queue.nextBatchId)
    && (w.queue.open.Some? ==>
          Admits(w.queue.open.value.log) == |AdmittedTo(w.admissions, w.queue.open.value.id)|)
    && (forall i :: 0 <= i < |w.released| ==>
          w.released[i].admittedActionCount == |AdmittedTo(w.admissions, w.released[i].id)|)
  }

  lemma {:induction false} AdmittedSnoc<S, V>(admissions: seq<Admission<S, V>>, a: Admission<S, V>, id: nat)
    ensures |AdmittedTo(admissions + [a], id)| ==
            |AdmittedTo(admissions, id)| + if a.batchId == id then 1 else 0
  {
    assert AdmittedTo(admissions + [a], id) ==
           AdmittedTo(admissions, id) + if a.batchId == id then {|admissions|} else {};
  }

  /** No other window shares the identity of the one that takes the next input. */
  lemma {:induction false} WindowIsNew<S, V>(w: World<S, V>, now: int, i: nat)
    requires OrderedWorld(w) && !Due(w.queue, now) && i < |w.released|
    ensures w.released[i].id < WindowFor(w.queue, now).id
  {
    hide Timeline, Survivors;
    var ids, n := BatchIds(w), |w.released|;
    assert ids[i] == w.released[i].id && ids[i] in ids;
    if w.queue.open.Some? {
      assert ids[n] == w.queue.open.value.id;
    }
  }

  lemma {:induction false} OpenIsIssued<S, V>(w: World<S, V>)
    requires OrderedWorld(w) && w.queue.open.Some?
    ensures w.queue.open.value.id < w.queue.nextBatchId
  {
    hide Timeline, Survivors;
    assert BatchIds(w)[|w.released|] in BatchIds(w);
  }

  lemma {:induction false} JoinCounted<S, V>(w: World<S, V>, scope: S, kind: Kind, value: V, now: int)
    requires CountedWorld(w) && OrderedWorld(w) && !Due(w.queue, now)
    ensures CountedWorld(Join(w, scope, kind, value, now))
  {
    hide Survivors, Group, Lost, OrderedWorld, AdmittedTo;
    var x := InputFor(w.queue, scope, kind, value, now);
    var into, after := WindowFor(w.queue, now), Join(w, scope, kind, value, now);
    if w.queue.open.Some? { OpenIsIssued(w); }
    AdmittedSnoc(w.admissions, Admission(x, into.id), into.id);
    AdmitsSnoc(into.log, Admitted(x));
    assert Admits(into.log) == |AdmittedTo(w.admissions, into.id)| by {
      if w.queue.open.None? { NoneAdmitted(w.admissions, into.id); }
    }
    forall i | 0 <= i < |after.released|
      ensures after.released[i].admittedActionCount == |AdmittedTo(after.admissions, after.released[i].id)|
    {
      WindowIsNew(w, now, i);
      AdmittedSnoc(w.admissions, Admission(x, into.id), w.released[i].id);
    }
  }

  lemma {:induction false} NoneAdmitted<S, V>(admissions: seq<Admission<S, V>>, id: nat)
    requires forall k :: 0 <= k < |admissions| ==> admissions[k].batchId < id
    ensures |AdmittedTo(admissions, id)| == 0
  {
    assert AdmittedTo(admissions, id) == {};
  }

  lemma {:induction false} CloseCounted<S, V>(w: World<S, V>, now: int, cause: ActionBatchCause)
    requires CountedWorld(w)
    ensures CountedWorld(Close(w, now, cause))
  {
    hide Survivors, Group, AdmittedTo, Admits;
  }

  lemma {:induction false} StepCounted<S, V>(w: World<S, V>, op: Op<S, V>)
    requires CountedWorld(w) && OrderedWorld(w)
    ensures CountedWorld(Step(w, op))
  {
    hide Survivors, Group, Lost, Sequences, OrderedWorld, AdmittedTo, Admits;
    match op
    case PushOp(scope, kind, value, now) =>
      CloseCounted(w, now, Deadline);
      CloseOrdered(w, now, Deadline);
      JoinCounted(Rotate(w, now), scope, kind, value, now);
    case TakeDueOp(now) => CloseCounted(w, now, Deadline);
    case FlushOp(barrier, now) => CloseCounted(w, now, Barrier(barrier));
    case CancelOp(scope) =>
      if w.queue.open.Some? { AdmitsSnoc(w.queue.open.value.log, Canceled(scope)); }
    case ClearOp =>
  }

  /** Over any run a released batch counts exactly the inputs that were admitted to its window. */
  lemma {:induction false} RunCounts<S, V>(ops: seq<Op<S, V>>)
    ensures CountedWorld(Run(ops))
    ensures var w := Run(ops);
            forall i :: 0 <= i < |w.released| ==>
              w.released[i].admittedActionCount ==
              |set k | 0 <= k < |w.admissions| && w.admissions[k].batchId == w.released[i].id|
  {
    hide Step, OrderedWorld;
    if ops != [] {
      RunCounts(ops[..|ops| - 1]);
      RunOrdered(ops[..|ops| - 1]);
      StepCounted(Run(ops[..|ops| - 1]), ops[|ops| - 1]);
    }
  }
}
