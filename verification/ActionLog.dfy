/** The log of one window and the inputs that survive it, stated without any compaction. */
module ActionLog {
  import opened ActionPlan

  datatype Event<S, V> = Admitted(input: Input<S, V>) | Canceled(scope: S)

  /** A cancel kills every earlier input of its scope; a click kills earlier clicks of its scope. */
  ghost predicate Kills<S, V>(e: Event<S, V>, x: Input<S, V>) {
    match e
    case Canceled(scope) => x.scope == scope
    case Admitted(y) => x.kind.Clicking? && y.kind.Clicking? && x.scope == y.scope
  }

  ghost predicate Killed<S, V>(x: Input<S, V>, later: seq<Event<S, V>>) {
    exists j :: 0 <= j < |later| && Kills(later[j], x)
  }

  /** The inputs that nothing later in the log kills, in admission order. */
  ghost function Survivors<S, V>(log: seq<Event<S, V>>): seq<Input<S, V>> {
    if log == [] then
      []
    else if log[0].Admitted? && !Killed(log[0].input, log[1..]) then
      [log[0].input] + Survivors(log[1..])
    else
      Survivors(log[1..])
  }

  ghost function Admits<S, V>(log: seq<Event<S, V>>): nat {
    if log == [] then 0
    else Admits(log[..|log| - 1]) + if log[|log| - 1].Admitted? then 1 else 0
  }

  /** What is left of `xs` after one more event. */
  ghost function Keep<S, V>(xs: seq<Input<S, V>>, e: Event<S, V>): seq<Input<S, V>> {
    if xs == [] then []
    else if Kills(e, xs[0]) then Keep(xs[1..], e)
    else [xs[0]] + Keep(xs[1..], e)
  }

  ghost function Entering<S, V>(e: Event<S, V>): seq<Input<S, V>> {
    if e.Admitted? then [e.input] else []
  }

  lemma {:induction false} KeepConcat<S, V>(
    xs: seq<Input<S, V>>, ys: seq<Input<S, V>>, e: Event<S, V>)
    ensures Keep(xs + ys, e) == Keep(xs, e) + Keep(ys, e)
  {
    hide Kills;
    if xs == [] {
      assert xs + ys == ys;
    } else {
      assert (xs + ys)[1..] == xs[1..] + ys;
      KeepConcat(xs[1..], ys, e);
    }
  }

  lemma {:induction false} KilledSnoc<S, V>(x: Input<S, V>, later: seq<Event<S, V>>, e: Event<S, V>)
    ensures Killed(x, later + [e]) <==> Killed(x, later) || Kills(e, x)
  {
    hide Kills;
    var all := later + [e];
    if Killed(x, later) {
      var j :| 0 <= j < |later| && Kills(later[j], x);
      assert Kills(all[j], x);
    }
    if Kills(e, x) {
      assert Kills(all[|later|], x);
    }
  }

  /** The declarative reading and the step-by-step reading of a log agree. */
  lemma {:induction false} SurvivorsSnoc<S, V>(log: seq<Event<S, V>>, e: Event<S, V>)
    ensures Survivors(log + [e]) == Keep(Survivors(log), e) + Entering(e)
  {
    hide Kills, Killed;
    var all := log + [e];
    if log == [] {
      assert all[1..] == [] && all[0] == e;
      NothingLater(e);
    } else {
      assert all[1..] == log[1..] + [e] && all[0] == log[0];
      SurvivorsSnoc(log[1..], e);
      if log[0].Admitted? {
        KilledSnoc(log[0].input, log[1..], e);
        KeepConcat([log[0].input], Survivors(log[1..]), e);
        KeepOne(log[0].input, e);
      }
    }
  }

  lemma {:induction false} NothingLater<S, V>(e: Event<S, V>)
    ensures e.Admitted? ==> !Killed(e.input, [])
  {
  }

  lemma {:induction false} KeepOne<S, V>(x: Input<S, V>, e: Event<S, V>)
    ensures Keep([x], e) == if Kills(e, x) then [] else [x]
  {
  }

  lemma {:induction false} KeepAll<S, V>(xs: seq<Input<S, V>>, e: Event<S, V>)
    requires forall x :: x in xs ==> !Kills(e, x)
    ensures Keep(xs, e) == xs
  {
    hide Kills;
    if xs != [] {
      assert xs[0] in xs;
      KeepAll(xs[1..], e);
    }
  }

  lemma {:induction false} KeepCount<S, V>(xs: seq<Input<S, V>>, e: Event<S, V>)
    ensures |Keep(xs, e)| <= |xs|
  {
    hide Kills;
    if xs != [] {
      KeepCount(xs[1..], e);
    }
  }

  /** Retained never exceeds admitted. */
  lemma {:induction false} SurvivorsBounded<S, V>(log: seq<Event<S, V>>)
    ensures |Survivors(log)| <= Admits(log)
  {
    if log != [] {
      var front, e := log[..|log| - 1], log[|log| - 1];
      assert log == front + [e];
      SurvivorsBounded(front);
      SurvivorsSnoc(front, e);
      KeepCount(Survivors(front), e);
    }
  }

  ghost predicate OneClickPerScope<S, V>(xs: seq<Input<S, V>>) {
    forall i, j :: 0 <= i < j < |xs| && xs[i].kind.Clicking? && xs[j].kind.Clicking? ==>
                     xs[i].scope != xs[j].scope
  }

  lemma {:induction false} SurvivorAdmitted<S, V>(log: seq<Event<S, V>>, x: Input<S, V>)
    requires x in Survivors(log)
    ensures exists i :: 0 <= i < |log| && log[i] == Admitted(x) && !Killed(x, log[i + 1..])
  {
    hide Killed;
    if log[0].Admitted? && log[0].input == x && !Killed(x, log[1..]) {
      assert log[0] == Admitted(x) && !Killed(x, log[0 + 1..]);
    } else {
      SurvivorAdmitted(log[1..], x);
      var i :| 0 <= i < |log[1..]| && log[1..][i] == Admitted(x) && !Killed(x, log[1..][i + 1..]);
      assert log[1..][i + 1..] == log[(i + 1) + 1..];
      assert log[i + 1] == Admitted(x) && !Killed(x, log[(i + 1) + 1..]);
    }
  }

  lemma {:induction false} AdmittedSurvives<S, V>(log: seq<Event<S, V>>, i: nat)
    requires i < |log| && log[i].Admitted? && !Killed(log[i].input, log[i + 1..])
    ensures log[i].input in Survivors(log)
  {
    hide Killed;
    if i > 0 {
      assert log[1..][(i - 1) + 1..] == log[i + 1..];
      AdmittedSurvives(log[1..], i - 1);
    }
  }

  /** `x` was admitted, and since then its scope has seen neither a click nor a cancel. */
  ghost predicate LastClick<S, V>(log: seq<Event<S, V>>, x: Input<S, V>) {
    exists i :: 0 <= i < |log| && log[i] == Admitted(x) && QuietAfter(log, i, x.scope)
  }

  ghost predicate QuietAfter<S, V>(log: seq<Event<S, V>>, i: nat, scope: S) {
    forall j :: i < j < |log| ==>
      && log[j] != Canceled(scope)
      && (log[j].Admitted? && log[j].input.kind.Clicking? ==> log[j].input.scope != scope)
  }

  lemma {:induction false} SurvivingClickIsLast<S, V>(log: seq<Event<S, V>>, x: Input<S, V>)
    requires x in Survivors(log) && x.kind.Clicking?
    ensures LastClick(log, x)
  {
    SurvivorAdmitted(log, x);
    var i :| 0 <= i < |log| && log[i] == Admitted(x) && !Killed(x, log[i + 1..]);
    forall j | i < j < |log| ensures !Kills(log[j], x) {
      assert log[j] == log[i + 1..][j - i - 1];
    }
    assert QuietAfter(log, i, x.scope);
  }

  /** At most one click per scope survives, and it is the last one admitted for the scope. */
  lemma {:induction false} SurvivorsOneClick<S, V>(log: seq<Event<S, V>>)
    ensures OneClickPerScope(Survivors(log))
    ensures forall x :: x in Survivors(log) && x.kind.Clicking? ==> LastClick(log, x)
  {
    forall x | x in Survivors(log) && x.kind.Clicking? ensures LastClick(log, x) {
      SurvivingClickIsLast(log, x);
    }
    OneClickSurvives(log);
  }

  lemma {:induction false} OneClickSurvives<S, V>(log: seq<Event<S, V>>)
    ensures OneClickPerScope(Survivors(log))
  {
    if log != [] {
      OneClickSurvives(log[1..]);
      var rest := Survivors(log[1..]);
      if log[0].Admitted? && !Killed(log[0].input, log[1..]) {
        forall j | 0 <= j < |rest| && rest[j].kind.Clicking? && log[0].input.kind.Clicking?
          ensures rest[j].scope != log[0].input.scope
        {
          SurvivorAdmitted(log[1..], rest[j]);
          var i :| 0 <= i < |log[1..]| && log[1..][i] == Admitted(rest[j]) &&
                   !Killed(rest[j], log[1..][i + 1..]);
          assert Kills(log[1..][i], log[0].input) <==> rest[j].scope == log[0].input.scope;
        }
      }
    }
  }

  // ----- Events seen by a plan ------------------------------------------------------------

  /** An event kills a planned unit as a whole or not at all. */
  ghost predicate KillsUnit<S, V>(e: Event<S, V>, a: PlannedAction<S, V>) {
    match e
    case Canceled(scope) => a.scope == scope
    case Admitted(y) => y.kind.Clicking? && a.Click? && a.scope == y.scope
  }

  ghost function Retain<S, V>(plan: seq<PlannedAction<S, V>>, e: Event<S, V>)
    : seq<PlannedAction<S, V>>
  {
    if plan == [] then []
    else
      Retain(plan[..|plan| - 1], e) +
      if KillsUnit(e, plan[|plan| - 1]) then [] else [plan[|plan| - 1]]
  }

  /** The inputs of `xs` that the event kills. */
  ghost function Lost<S, V>(xs: seq<Input<S, V>>, e: Event<S, V>): seq<Input<S, V>> {
    if xs == [] then []
    else Lost(xs[..|xs| - 1], e) + if Kills(e, xs[|xs| - 1]) then [xs[|xs| - 1]] else []
  }

  ghost function Sequences<S, V>(xs: seq<Input<S, V>>): seq<nat> {
    seq(|xs|, i requires 0 <= i < |xs| => xs[i].step.sequence)
  }

  lemma {:induction false} UnitKills<S, V>(e: Event<S, V>, a: PlannedAction<S, V>)
    ensures forall x :: x in InputsOf(a) ==> (Kills(e, x) <==> KillsUnit(e, a))
  {
  }

  lemma {:induction false} KeepNone<S, V>(xs: seq<Input<S, V>>, e: Event<S, V>)
    requires forall x :: x in xs ==> Kills(e, x)
    ensures Keep(xs, e) == [] && Lost(xs, e) == xs
  {
    hide Kills;
    if xs != [] {
      var front, x := xs[..|xs| - 1], xs[|xs| - 1];
      KeepNone(front, e);
      assert xs == front + [x];
      KeepConcat(front, [x], e);
      KeepOne(x, e);
    }
  }

  lemma {:induction false} LostNone<S, V>(xs: seq<Input<S, V>>, e: Event<S, V>)
    requires forall x :: x in xs ==> !Kills(e, x)
    ensures Lost(xs, e) == []
  {
    hide Kills;
    if xs != [] {
      LostNone(xs[..|xs| - 1], e);
    }
  }

  lemma {:induction false} LostConcat<S, V>(
    xs: seq<Input<S, V>>, ys: seq<Input<S, V>>, e: Event<S, V>)
    ensures Lost(xs + ys, e) == Lost(xs, e) + Lost(ys, e)
  {
    hide Kills;
    if ys == [] {
      assert xs + ys == xs;
    } else {
      assert (xs + ys)[..|xs + ys| - 1] == xs + ys[..|ys| - 1];
      LostConcat(xs, ys[..|ys| - 1], e);
    }
  }

  lemma {:induction false} UnitRetained<S, V>(e: Event<S, V>, a: PlannedAction<S, V>)
    ensures Keep(InputsOf(a), e) == if KillsUnit(e, a) then [] else InputsOf(a)
    ensures Lost(InputsOf(a), e) == if KillsUnit(e, a) then InputsOf(a) else []
  {
    hide Kills, KillsUnit;
    UnitKills(e, a);
    if KillsUnit(e, a) {
      KeepNone(InputsOf(a), e);
    } else {
      KeepAll(InputsOf(a), e);
      LostNone(InputsOf(a), e);
    }
  }

  lemma {:induction false} RetainNext<S, V>(plan: seq<PlannedAction<S, V>>, i: nat, e: Event<S, V>)
    requires i < |plan|
    ensures Flatten(plan[..i + 1]) == Flatten(plan[..i]) + InputsOf(plan[i])
    ensures Retain(plan[..i + 1], e) ==
            if KillsUnit(e, plan[i]) then Retain(plan[..i], e) else Retain(plan[..i], e) + [plan[i]]
    ensures Lost(Flatten(plan[..i + 1]), e) ==
            if KillsUnit(e, plan[i]) then Lost(Flatten(plan[..i]), e) + InputsOf(plan[i])
            else Lost(Flatten(plan[..i]), e)
  {
    hide Kills, KillsUnit, Lost, InputsOf;
    assert plan[..i + 1][..i] == plan[..i];
    LostConcat(Flatten(plan[..i]), InputsOf(plan[i]), e);
    UnitRetained(e, plan[i]);
  }

  lemma {:induction false} RetainSnoc<S, V>(
    plan: seq<PlannedAction<S, V>>, a: PlannedAction<S, V>, e: Event<S, V>)
    ensures Retain(plan + [a], e) == Retain(plan, e) + if KillsUnit(e, a) then [] else [a]
  {
    hide KillsUnit;
    assert (plan + [a])[..|plan|] == plan;
  }

  /** Retaining units and retaining inputs come to the same. */
  lemma {:induction false} RetainFlattens<S, V>(plan: seq<PlannedAction<S, V>>, e: Event<S, V>)
    ensures Flatten(Retain(plan, e)) == Keep(Flatten(plan), e)
  {
    hide Kills, KillsUnit, InputsOf;
    if plan != [] {
      var front, a := plan[..|plan| - 1], plan[|plan| - 1];
      RetainFlattens(front, e);
      RetainOneMore(front, a, e);
      assert plan == front + [a];
    }
  }

  lemma {:induction false} RetainRuns<S, V>(plan: seq<PlannedAction<S, V>>, e: Event<S, V>)
    requires NonEmptyRuns(plan)
    ensures NonEmptyRuns(Retain(plan, e))
  {
    hide KillsUnit;
    if plan != [] {
      RetainRuns(plan[..|plan| - 1], e);
    }
  }

  lemma {:induction false} RetainOneMore<S, V>(
    front: seq<PlannedAction<S, V>>, a: PlannedAction<S, V>, e: Event<S, V>)
    requires Flatten(Retain(front, e)) == Keep(Flatten(front), e)
    ensures Flatten(Retain(front + [a], e)) == Keep(Flatten(front + [a]), e)
  {
    hide Kills, KillsUnit, InputsOf, Flatten, Keep, Retain;
    RetainSnoc(front, a, e);
    FlattenSnoc(front, a);
    FlattenSnoc(Retain(front, e), a);
    KeepConcat(Flatten(front), InputsOf(a), e);
    UnitRetained(e, a);
    if KillsUnit(e, a) {
      assert Retain(front, e) + [] == Retain(front, e);
    }
  }

  lemma {:induction false} RetainConcat<S, V>(
    p: seq<PlannedAction<S, V>>, q: seq<PlannedAction<S, V>>, e: Event<S, V>)
    ensures Retain(p + q, e) == Retain(p, e) + Retain(q, e)
  {
    hide KillsUnit;
    if q == [] {
      assert p + q == p;
    } else {
      assert (p + q)[..|p + q| - 1] == p + q[..|q| - 1];
      RetainConcat(p, q[..|q| - 1], e);
    }
  }

  lemma {:induction false} RetainAll<S, V>(plan: seq<PlannedAction<S, V>>, e: Event<S, V>)
    requires forall i :: 0 <= i < |plan| ==> !KillsUnit(e, plan[i])
    ensures Retain(plan, e) == plan
  {
    hide KillsUnit;
    if plan != [] {
      RetainAll(plan[..|plan| - 1], e);
    }
  }

  /** Removing the only killed unit retains all others. */
  lemma {:induction false} RetainAllButOne<S, V>(plan: seq<PlannedAction<S, V>>, k: nat, e: Event<S, V>)
    requires k < |plan|
    requires forall i :: 0 <= i < |plan| ==> (KillsUnit(e, plan[i]) <==> i == k)
    ensures Retain(plan, e) == plan[..k] + plan[k + 1..]
  {
    hide KillsUnit, Retain;
    assert plan == plan[..k] + [plan[k]] + plan[k + 1..];
    RetainConcat(plan[..k] + [plan[k]], plan[k + 1..], e);
    RetainConcat(plan[..k], [plan[k]], e);
    RetainAll(plan[..k], e);
    RetainAll(plan[k + 1..], e);
    var none: seq<PlannedAction<S, V>> := [];
    RetainSnoc(none, plan[k], e);
    RetainAll(none, e);
    assert none + [plan[k]] == [plan[k]];
  }

  /** A plan whose inputs hold one click per scope has one click unit per scope. */
  lemma {:induction false} ClickUnitsDistinct<S, V>(plan: seq<PlannedAction<S, V>>, i: nat, j: nat)
    requires OneClickPerScope(Flatten(plan)) && i < j < |plan|
    requires plan[i].Click? && plan[j].Click?
    ensures plan[i].scope != plan[j].scope
  {
    var a, b, c := plan[..i], plan[i + 1..j], plan[j + 1..];
    assert plan == a + [plan[i]] + b + [plan[j]] + c;
    FlattenConcat(a + [plan[i]] + b + [plan[j]], c);
    FlattenSnoc(a + [plan[i]] + b, plan[j]);
    FlattenConcat(a + [plan[i]], b);
    FlattenSnoc(a, plan[i]);
    var xs := Flatten(plan);
    var m, n := |Flatten(a)|, |Flatten(a)| + 1 + |Flatten(b)|;
    assert xs[m] == Input(plan[i].scope, Clicking, plan[i].click);
    assert xs[n] == Input(plan[j].scope, Clicking, plan[j].click);
  }

  lemma {:induction false} OnlyKilledUnit<S, V>(
    plan: seq<PlannedAction<S, V>>, k: nat, x: Input<S, V>)
    requires OneClickPerScope(Flatten(plan)) && k < |plan| && x.kind.Clicking?
    requires plan[k].Click? && plan[k].scope == x.scope
    requires forall i :: 0 <= i < k ==> !(plan[i].Click? && plan[i].scope == x.scope)
    ensures forall i :: 0 <= i < |plan| ==> (KillsUnit(Admitted(x), plan[i]) <==> i == k)
  {
    hide OneClickPerScope, Flatten;
    forall i | k < i < |plan| && plan[i].Click? ensures plan[i].scope != x.scope {
      ClickUnitsDistinct(plan, k, i);
    }
  }

  // ----- Scopes do not interfere ----------------------------------------------------------

  ghost function ScopeOf<S, V>(e: Event<S, V>): S {
    match e
    case Admitted(x) => x.scope
    case Canceled(scope) => scope
  }

  /** The events of scope `s` when `own`, those of all other scopes otherwise. */
  ghost function SelectEvents<S, V>(log: seq<Event<S, V>>, s: S, own: bool): seq<Event<S, V>> {
    if log == [] then []
    else if (ScopeOf(log[0]) == s) == own then [log[0]] + SelectEvents(log[1..], s, own)
    else SelectEvents(log[1..], s, own)
  }

  ghost function SelectInputs<S, V>(xs: seq<Input<S, V>>, s: S, own: bool): seq<Input<S, V>> {
    if xs == [] then []
    else if (xs[0].scope == s) == own then [xs[0]] + SelectInputs(xs[1..], s, own)
    else SelectInputs(xs[1..], s, own)
  }

  lemma {:induction false} KilledHead<S, V>(x: Input<S, V>, later: seq<Event<S, V>>)
    ensures Killed(x, later) <==> later != [] && (Kills(later[0], x) || Killed(x, later[1..]))
  {
    hide Kills;
    if later != [] && Killed(x, later[1..]) {
      var j :| 0 <= j < |later[1..]| && Kills(later[1..][j], x);
      assert Kills(later[j + 1], x);
    }
    if Killed(x, later) {
      var j :| 0 <= j < |later| && Kills(later[j], x);
      assert j > 0 ==> Kills(later[1..][j - 1], x);
    }
  }

  /** Only events of its own scope can kill an input. */
  lemma {:induction false} KilledByOwnScope<S, V>(
    x: Input<S, V>, later: seq<Event<S, V>>, s: S, own: bool)
    requires (x.scope == s) == own
    ensures Killed(x, later) <==> Killed(x, SelectEvents(later, s, own))
  {
    KilledHead(x, later);
    KilledHead(x, SelectEvents(later, s, own));
    if later != [] {
      KilledByOwnScope(x, later[1..], s, own);
      var rest := SelectEvents(later[1..], s, own);
      if (ScopeOf(later[0]) == s) == own {
        assert SelectEvents(later, s, own)[1..] == rest;
      }
    }
  }

  /** What survives of some scopes depends only on what was logged for them. */
  lemma {:induction false} ScopesIndependent<S, V>(log: seq<Event<S, V>>, s: S, own: bool)
    ensures SelectInputs(Survivors(log), s, own) == Survivors(SelectEvents(log, s, own))
  {
    if log != [] {
      var head, tail := log[0], log[1..];
      ScopesIndependent(tail, s, own);
      var selected := SelectEvents(log, s, own);
      if (ScopeOf(head) == s) == own {
        assert selected[1..] == SelectEvents(tail, s, own);
        if head.Admitted? {
          KilledByOwnScope(head.input, tail, s, own);
        }
      }
      if head.Admitted? && !Killed(head.input, tail) {
        assert Survivors(log)[1..] == Survivors(tail);
      }
    }
  }

  lemma {:induction false} CancelSelects<S, V>(xs: seq<Input<S, V>>, s: S)
    ensures Keep(xs, Canceled(s)) == SelectInputs(xs, s, false)
  {
    if xs != [] {
      CancelSelects(xs[1..], s);
    }
  }

  /** Canceling a scope leaves what a log without that scope would have left, untouched. */
  lemma {:induction false} CancelErasesScope<S, V>(log: seq<Event<S, V>>, s: S)
    ensures Survivors(log + [Canceled(s)]) == Survivors(SelectEvents(log, s, false))
  {
    hide Survivors;
    SurvivorsSnoc(log, Canceled(s));
    CancelSelects(Survivors(log), s);
    ScopesIndependent(log, s, false);
  }
}
