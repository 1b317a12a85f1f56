/** Inputs, planned actions and the two views of a pending window: the log of what happened to
    it, and the compacted plan it executes. */
module ActionPlan {

  /** A payload stamped with the number and time it was admitted under. */
  datatype Scheduled<V> = Scheduled(sequence: nat, admittedAt: int, value: V)

  datatype Kind = Scrolling | Clicking | Ordering

  /** An admitted input before any compaction. */
  datatype Input<S, V> = Input(scope: S, kind: Kind, step: Scheduled<V>)

  /** What a plan executes as one step: a run of scrolls, one click, or one opaque action. */
  datatype PlannedAction<S, V> =
    | Scroll(scope: S, run: seq<Scheduled<V>>)
    | Click(scope: S, click: Scheduled<V>)
    | Ordered(scope: S, action: Scheduled<V>)
  {
    function RetainedActionCount(): nat {
      match this
      case Scroll(_, run) => |run|
      case _ => 1
    }
  }

  // ----- Plans and their inputs -----------------------------------------------------------

  ghost function InputsOfRun<S, V>(scope: S, run: seq<Scheduled<V>>): seq<Input<S, V>> {
    seq(|run|, i requires 0 <= i < |run| => Input(scope, Scrolling, run[i]))
  }

  ghost function InputsOf<S, V>(a: PlannedAction<S, V>): (r: seq<Input<S, V>>)
    ensures |r| == a.RetainedActionCount()
    ensures forall x :: x in r ==> x.scope == a.scope
  {
    match a
    case Scroll(scope, run) => InputsOfRun(scope, run)
    case Click(scope, click) => [Input(scope, Clicking, click)]
    case Ordered(scope, action) => [Input(scope, Ordering, action)]
  }

  /** A plan unrolled into its inputs. */
  ghost function Flatten<S, V>(plan: seq<PlannedAction<S, V>>): seq<Input<S, V>> {
    if plan == [] then [] else Flatten(plan[..|plan| - 1]) + InputsOf(plan[|plan| - 1])
  }

  ghost predicate Joins<S, V>(plan: seq<PlannedAction<S, V>>, scope: S) {
    plan != [] && plan[|plan| - 1].Scroll? && plan[|plan| - 1].scope == scope
  }

  /** Extends a plan by one unit, merging a scroll run into a preceding run of its scope. */
  ghost function Extend<S, V>(plan: seq<PlannedAction<S, V>>, a: PlannedAction<S, V>)
    : seq<PlannedAction<S, V>>
  {
    if a.Scroll? && Joins(plan, a.scope) then
      plan[..|plan| - 1] + [Scroll(a.scope, plan[|plan| - 1].run + a.run)]
    else
      plan + [a]
  }

  ghost function Unit<S, V>(x: Input<S, V>): PlannedAction<S, V> {
    match x.kind
    case Scrolling => Scroll(x.scope, [x.step])
    case Clicking => Click(x.scope, x.step)
    case Ordering => Ordered(x.scope, x.step)
  }

  /** The maximal grouping: adjacent scrolls of one scope form one run, nothing else moves. */
  ghost function Group<S, V>(inputs: seq<Input<S, V>>): seq<PlannedAction<S, V>> {
    if inputs == [] then [] else Extend(Group(inputs[..|inputs| - 1]), Unit(inputs[|inputs| - 1]))
  }

  ghost predicate NonEmptyRuns<S, V>(plan: seq<PlannedAction<S, V>>) {
    forall i :: 0 <= i < |plan| && plan[i].Scroll? ==> plan[i].run != []
  }

  ghost predicate Mergeable<S, V>(a: PlannedAction<S, V>, b: PlannedAction<S, V>) {
    a.Scroll? && b.Scroll? && a.scope == b.scope
  }

  /** No run is empty and no two neighbours could be merged. */
  ghost predicate Normal<S, V>(plan: seq<PlannedAction<S, V>>) {
    NonEmptyRuns(plan) && forall i :: 0 < i < |plan| ==> !Mergeable(plan[i - 1], plan[i])
  }

  lemma {:induction false} FlattenSnoc<S, V>(plan: seq<PlannedAction<S, V>>, a: PlannedAction<S, V>)
    ensures Flatten(plan + [a]) == Flatten(plan) + InputsOf(a)
  {
    assert (plan + [a])[..|plan|] == plan;
  }

  lemma {:induction false} FlattenConcat<S, V>(
    p: seq<PlannedAction<S, V>>, q: seq<PlannedAction<S, V>>)
    ensures Flatten(p + q) == Flatten(p) + Flatten(q)
  {
    if q == [] {
      assert p + q == p;
    } else {
      var r, a := q[..|q| - 1], q[|q| - 1];
      assert q == r + [a] && p + q == (p + r) + [a];
      FlattenConcat(p, r);
      FlattenSnoc(p + r, a);
    }
  }

  lemma {:induction false} ExtendFlattens<S, V>(plan: seq<PlannedAction<S, V>>, a: PlannedAction<S, V>)
    ensures Flatten(Extend(plan, a)) == Flatten(plan) + InputsOf(a)
  {
    if a.Scroll? && Joins(plan, a.scope) {
      var front, last := plan[..|plan| - 1], plan[|plan| - 1];
      FlattenSnoc(front, Scroll(a.scope, last.run + a.run));
      assert InputsOfRun(a.scope, last.run + a.run) ==
             InputsOfRun(a.scope, last.run) + InputsOfRun(a.scope, a.run);
    } else {
      FlattenSnoc(plan, a);
    }
  }

  lemma {:induction false} ExtendNormal<S, V>(plan: seq<PlannedAction<S, V>>, a: PlannedAction<S, V>)
    requires Normal(plan) && (a.Scroll? ==> a.run != [])
    ensures Normal(Extend(plan, a))
  {
    var r := Extend(plan, a);
    forall i | 0 < i < |r| ensures !Mergeable(r[i - 1], r[i]) {
      if i < |plan| {
        assert !Mergeable(plan[i - 1], plan[i]);
      }
    }
  }

  lemma {:induction false} UnitInputs<S, V>(x: Input<S, V>)
    ensures InputsOf(Unit(x)) == [x] && (Unit(x).Scroll? ==> Unit(x).run != [])
  {
  }

  lemma {:induction false} GroupSnoc<S, V>(inputs: seq<Input<S, V>>, x: Input<S, V>)
    ensures Group(inputs + [x]) == Extend(Group(inputs), Unit(x))
  {
    hide Extend, Unit;
    assert (inputs + [x])[..|inputs|] == inputs;
  }

  lemma {:induction false} RunSnoc<S, V>(scope: S, run: seq<Scheduled<V>>)
    requires run != []
    ensures InputsOfRun(scope, run) ==
            InputsOfRun(scope, run[..|run| - 1]) + [Input(scope, Scrolling, run[|run| - 1])]
  {
  }

  /** Grouping keeps the inputs and their order, and merges whatever can be merged. */
  lemma {:induction false} GroupIsNormal<S, V>(inputs: seq<Input<S, V>>)
    ensures Normal(Group(inputs)) && Flatten(Group(inputs)) == inputs
  {
    hide Extend, Unit, InputsOf, Group;
    if inputs == [] {
      GroupEmpty<S, V>();
    } else {
      var front, x := inputs[..|inputs| - 1], inputs[|inputs| - 1];
      assert inputs == front + [x];
      GroupIsNormal(front);
      GroupSnoc(front, x);
      UnitInputs(x);
      ExtendFlattens(Group(front), Unit(x));
      ExtendNormal(Group(front), Unit(x));
    }
  }

  lemma {:induction false} GroupEmpty<S, V>()
    ensures Group<S, V>([]) == [] && Flatten<S, V>([]) == [] && Normal<S, V>([])
  {
  }

  /** Grouping the steps of one run after a plan that ends elsewhere yields that one run. */
  lemma {:induction false} GroupRun<S, V>(
    inputs: seq<Input<S, V>>, scope: S, run: seq<Scheduled<V>>)
    requires run != [] && !Joins(Group(inputs), scope)
    ensures Group(inputs + InputsOfRun(scope, run)) == Group(inputs) + [Scroll(scope, run)]
  {
    hide Group, InputsOfRun;
    var shorter, last := run[..|run| - 1], run[|run| - 1];
    var before := inputs + InputsOfRun(scope, shorter);
    RunSnoc(scope, run);
    assert inputs + InputsOfRun(scope, run) == before + [Input(scope, Scrolling, last)];
    GroupSnoc(before, Input(scope, Scrolling, last));
    assert run == shorter + [last];
    if shorter == [] {
      NoSteps<S, V>(scope);
      assert before == inputs;
    } else {
      GroupRun(inputs, scope, shorter);
    }
  }

  lemma {:induction false} NoSteps<S, V>(scope: S)
    ensures InputsOfRun<S, V>(scope, []) == []
  {
  }

  /** The normal plan of a sequence of inputs is unique. */
  lemma {:induction false} NormalIsGroup<S, V>(plan: seq<PlannedAction<S, V>>)
    requires Normal(plan)
    ensures Group(Flatten(plan)) == plan
  {
    if plan != [] {
      var front, a := plan[..|plan| - 1], plan[|plan| - 1];
      assert plan == front + [a];
      assert Normal(front);
      NormalIsGroup(front);
      if front != [] { assert !Mergeable(plan[|plan| - 2], plan[|plan| - 1]); }
      match a
      case Scroll(scope, run) =>
        GroupRun(Flatten(front), scope, run);
      case _ =>
        assert Flatten(plan)[..|Flatten(plan)| - 1] == Flatten(front);
    }
  }

  /** No plan with the same inputs has fewer units than the normal one. */
  lemma {:induction false} GroupIsShortest<S, V>(plan: seq<PlannedAction<S, V>>)
    ensures |Group(Flatten(plan))| <= |plan|
  {
    if plan != [] {
      var front, a := plan[..|plan| - 1], plan[|plan| - 1];
      GroupIsShortest(front);
      match a
      case Scroll(scope, run) =>
        if run == [] {
          assert Flatten(plan) == Flatten(front);
        } else {
          GroupGrowsByOne(Flatten(front), scope, run);
        }
      case _ =>
        assert Flatten(plan)[..|Flatten(plan)| - 1] == Flatten(front);
    }
  }

  lemma {:induction false} GroupGrowsByOne<S, V>(
    inputs: seq<Input<S, V>>, scope: S, run: seq<Scheduled<V>>)
    requires run != []
    ensures |Group(inputs + InputsOfRun(scope, run))| <= |Group(inputs)| + 1
    ensures Joins(Group(inputs + InputsOfRun(scope, run)), scope)
  {
    hide Group, InputsOfRun;
    var shorter, last := run[..|run| - 1], run[|run| - 1];
    var before := inputs + InputsOfRun(scope, shorter);
    RunSnoc(scope, run);
    assert inputs + InputsOfRun(scope, run) == before + [Input(scope, Scrolling, last)];
    GroupSnoc(before, Input(scope, Scrolling, last));
    if shorter == [] {
      NoSteps<S, V>(scope);
      assert before == inputs;
    } else {
      GroupGrowsByOne(inputs, scope, shorter);
    }
  }

  // ----- Execution ------------------------------------------------------------------------

  /** A host that applies inputs one by one. */
  ghost function RunInputs<S, V, H>(apply: (H, Input<S, V>) -> H, host: H, inputs: seq<Input<S, V>>): H {
    if inputs == [] then host
    else apply(RunInputs(apply, host, inputs[..|inputs| - 1]), inputs[|inputs| - 1])
  }

  ghost function RunSteps<S, V, H>(
    apply: (H, Input<S, V>) -> H, host: H, scope: S, run: seq<Scheduled<V>>): H
  {
    if run == [] then host
    else apply(RunSteps(apply, host, scope, run[..|run| - 1]), Input(scope, Scrolling, run[|run| - 1]))
  }

  /** A host that walks a plan unit by unit, applying every step of a scroll run. */
  ghost function RunPlan<S, V, H>(
    apply: (H, Input<S, V>) -> H, host: H, plan: seq<PlannedAction<S, V>>): H
  {
    if plan == [] then
      host
    else
      var before := RunPlan(apply, host, plan[..|plan| - 1]);
      match plan[|plan| - 1]
      case Scroll(scope, run) => RunSteps(apply, before, scope, run)
      case Click(scope, click) => apply(before, Input(scope, Clicking, click))
      case Ordered(scope, action) => apply(before, Input(scope, Ordering, action))
  }

  lemma {:induction false} RunInputsConcat<S, V, H>(
    apply: (H, Input<S, V>) -> H, host: H, xs: seq<Input<S, V>>, ys: seq<Input<S, V>>)
    ensures RunInputs(apply, host, xs + ys) == RunInputs(apply, RunInputs(apply, host, xs), ys)
  {
    if ys == [] {
      assert xs + ys == xs;
    } else {
      assert (xs + ys)[..|xs + ys| - 1] == xs + ys[..|ys| - 1];
      RunInputsConcat(apply, host, xs, ys[..|ys| - 1]);
    }
  }

  lemma {:induction false} RunStepsMeans<S, V, H>(
    apply: (H, Input<S, V>) -> H, host: H, scope: S, run: seq<Scheduled<V>>)
    ensures RunSteps(apply, host, scope, run) == RunInputs(apply, host, InputsOfRun(scope, run))
  {
    if run != [] {
      var xs := InputsOfRun(scope, run);
      RunStepsMeans(apply, host, scope, run[..|run| - 1]);
      assert xs[..|xs| - 1] == InputsOfRun(scope, run[..|run| - 1]);
    }
  }

  /** Executing a plan is executing its inputs in order, whatever applying an input does. */
  lemma {:induction false} RunPlanMeans<S, V, H>(
    apply: (H, Input<S, V>) -> H, host: H, plan: seq<PlannedAction<S, V>>)
    ensures RunPlan(apply, host, plan) == RunInputs(apply, host, Flatten(plan))
  {
    if plan != [] {
      var front, a := plan[..|plan| - 1], plan[|plan| - 1];
      RunPlanMeans(apply, host, front);
      RunInputsConcat(apply, host, Flatten(front), InputsOf(a));
      RunUnitMeans(apply, RunInputs(apply, host, Flatten(front)), a);
    }
  }

  lemma {:induction false} RunUnitMeans<S, V, H>(
    apply: (H, Input<S, V>) -> H, host: H, a: PlannedAction<S, V>)
    ensures RunPlan(apply, host, [a]) == RunInputs(apply, host, InputsOf(a))
    ensures RunInputs(apply, host, InputsOf(a)) ==
            match a
            case Scroll(scope, run) => RunSteps(apply, host, scope, run)
            case Click(scope, click) => apply(host, Input(scope, Clicking, click))
            case Ordered(scope, action) => apply(host, Input(scope, Ordering, action))
  {
    assert [a][..0] == [];
    match a
    case Scroll(scope, run) =>
      RunStepsMeans(apply, host, scope, run);
    case _ =>
      assert InputsOf(a)[..0] == [];
  }
}
