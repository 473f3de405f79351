/** A nondeterministic machine run generation by generation in one thread: every state
    of the current generation is expanded, failed states are dropped, and the run stops
    at the first successful state or when nothing is left. */
module RegularMachine {
  import Wrappers
  type Option<T> = Wrappers.Option<T>

  /** The kind of a state: not final, failed, or accepted. */
  datatype StateType = Unfinished | Fail | Success

  /** The outcome of a run within a step budget: Kotlin's result (a SUCCESS state or
      null), or the budget ran out while the generation was still unfinished. */
  datatype RunResult<T> = Done(result: Option<T>) | OutOfFuel

  /** `flatMap(transition)`: the successors of every state, in order. */
  function FlatMap<T(==)>(transition: T -> seq<T>, gen: seq<T>): seq<T>
  {
    if gen == [] then [] else FlatMap(transition, gen[..|gen| - 1]) + transition(gen[|gen| - 1])
  }

  /** A state occurs among the successors exactly when some state of the generation has it
      as a successor. */
  lemma {:induction false} FlatMapMembers<T>(transition: T -> seq<T>, gen: seq<T>, x: T)
    ensures x in FlatMap(transition, gen) <==> exists i :: 0 <= i < |gen| && x in transition(gen[i])
  {
    if gen != [] {
      var init := gen[..|gen| - 1];
      FlatMapMembers(transition, init, x);
      if exists i :: 0 <= i < |init| && x in transition(init[i]) {
        var i :| 0 <= i < |init| && x in transition(init[i]);
        assert gen[i] == init[i];
      }
      if exists i :: 0 <= i < |gen| && x in transition(gen[i]) {
        var i :| 0 <= i < |gen| && x in transition(gen[i]);
        if i < |init| {
          assert init[i] == gen[i];
        }
      }
    }
  }

  /** `filter { it.getType() != FAIL }`: the states that have not failed, in order. */
  function DropFailed<T(==)>(typeOf: T -> StateType, xs: seq<T>): (r: seq<T>)
    ensures forall i :: 0 <= i < |r| ==> r[i] in xs && typeOf(r[i]) != Fail
    ensures forall i :: 0 <= i < |xs| && typeOf(xs[i]) != Fail ==> xs[i] in r
  {
    if xs == [] then []
    else (if typeOf(xs[0]) == Fail then [] else [xs[0]]) + DropFailed(typeOf, xs[1..])
  }

  /** The filter keeps the order of the states: a single state is kept exactly when it
      has not failed, and the filter distributes over concatenation. */
  lemma {:induction false} DropFailedAppend<T>(typeOf: T -> StateType, a: seq<T>, b: seq<T>)
    ensures DropFailed(typeOf, a + b) == DropFailed(typeOf, a) + DropFailed(typeOf, b)
    ensures |a| == 1 ==> DropFailed(typeOf, a) == if typeOf(a[0]) == Fail then [] else a
  {
    if a == [] {
      assert a + b == b;
    } else {
      assert (a + b)[1..] == a[1..] + b;
      DropFailedAppend(typeOf, a[1..], b);
      if |a| == 1 {
        assert a[1..] == [];
      }
    }
  }

  /** `filter { it.getType() == UNFINISHED }`, the filter whose result the step discards. */
  function KeepUnfinished<T(==)>(typeOf: T -> StateType, xs: seq<T>): seq<T>
  {
    if xs == [] then []
    else (if typeOf(xs[0]) == Unfinished then [xs[0]] else []) + KeepUnfinished(typeOf, xs[1..])
  }

  /** `find { it.getType() == SUCCESS }`: the first successful state, if any. */
  function FindSuccess<T(==)>(typeOf: T -> StateType, xs: seq<T>): (r: Option<T>)
    ensures r.None? <==> forall i :: 0 <= i < |xs| ==> typeOf(xs[i]) != Success
    ensures r.Some? ==> exists i :: 0 <= i < |xs| && xs[i] == r.value && FirstSuccessAt(typeOf, xs, i)
  {
    if xs == [] then Wrappers.None
    else if typeOf(xs[0]) == Success then
      assert FirstSuccessAt(typeOf, xs, 0);
      Wrappers.Some(xs[0])
    else
      var r := FindSuccess(typeOf, xs[1..]);
      if r.Some? then
        var i :| 0 <= i < |xs[1..]| && xs[1..][i] == r.value && FirstSuccessAt(typeOf, xs[1..], i);
        assert FirstSuccessAt(typeOf, xs, i + 1);
        r
      else r
  }

  /** xs[i] is successful and no state before it is. */
  predicate FirstSuccessAt<T(==)>(typeOf: T -> StateType, xs: seq<T>, i: int)
    requires 0 <= i < |xs|
  {
    typeOf(xs[i]) == Success && forall j :: 0 <= j < i ==> typeOf(xs[j]) != Success
  }

  /** The non-failed successors of a generation, in order. */
  function Survivors<T(==)>(transition: T -> seq<T>, typeOf: T -> StateType, gen: seq<T>): seq<T>
  {
    DropFailed(typeOf, FlatMap(transition, gen))
  }

  /** One `stepTransitions`: the type it reports and the generation it leaves. */
  function Step<T(==)>(transition: T -> seq<T>, typeOf: T -> StateType, gen: seq<T>): (StateType, seq<T>)
  {
    var next := Survivors(transition, typeOf, gen);
    if |next| == 0 then (Fail, next)
    else
      var found := FindSuccess(typeOf, next);
      if found.Some? then (Success, [found.value]) else (Unfinished, next)
  }

  /** The non-failed successors of the generation. */
  ghost predicate Candidate<T>(transition: T -> seq<T>, typeOf: T -> StateType, gen: seq<T>, x: T)
  {
    typeOf(x) != Fail && exists i :: 0 <= i < |gen| && x in transition(gen[i])
  }

  /** What a step means: FAIL exactly when every successor failed, and then nothing is
      left; SUCCESS leaves exactly the first successful successor; UNFINISHED leaves every
      non-failed successor, and all of them are unfinished. */
  lemma StepMeaning<T>(transition: T -> seq<T>, typeOf: T -> StateType, gen: seq<T>)
    ensures var (t, next) := Step(transition, typeOf, gen);
      && (t == Fail <==> forall x :: !Candidate(transition, typeOf, gen, x))
      && (t == Fail ==> next == [])
      && (t == Success ==> |next| == 1 && typeOf(next[0]) == Success && Candidate(transition, typeOf, gen, next[0]))
      && (t == Unfinished ==> next != [] && forall x :: x in next <==> Candidate(transition, typeOf, gen, x))
      && (t == Unfinished ==> forall i :: 0 <= i < |next| ==> typeOf(next[i]) == Unfinished)
  {
    var (t, next) := Step(transition, typeOf, gen);
    var all := DropFailed(typeOf, FlatMap(transition, gen));
    forall x
      ensures x in all <==> Candidate(transition, typeOf, gen, x)
    {
      FlatMapMembers(transition, gen, x);
    }
    if t == Fail {
      forall x
        ensures !Candidate(transition, typeOf, gen, x)
      {
        assert x !in all;
      }
    } else {
      assert all[0] in all;
    }
  }

  /** The type a SUCCESS step reports belongs to the first successful successor in order. */
  lemma StepPicksFirstSuccess<T>(transition: T -> seq<T>, typeOf: T -> StateType, gen: seq<T>)
    requires Step(transition, typeOf, gen).0 == Success
    ensures exists i ::
              && 0 <= i < |Survivors(transition, typeOf, gen)|
              && Survivors(transition, typeOf, gen)[i] == Step(transition, typeOf, gen).1[0]
              && FirstSuccessAt(typeOf, Survivors(transition, typeOf, gen), i)
  {
    var all := Survivors(transition, typeOf, gen);
    var found := FindSuccess(typeOf, all);
    assert found.Some? && Step(transition, typeOf, gen).1 == [found.value];
    var i :| 0 <= i < |all| && all[i] == found.value && FirstSuccessAt(typeOf, all, i);
    assert all[i] == Step(transition, typeOf, gen).1[0];
  }

  /** When a step reports UNFINISHED, keeping the unfinished states changes nothing, so the
      discarded filter of the step is indeed without effect. */
  lemma {:induction false} UnfinishedFilterIsNoOp<T>(typeOf: T -> StateType, xs: seq<T>)
    requires forall i :: 0 <= i < |xs| ==> typeOf(xs[i]) == Unfinished
    ensures KeepUnfinished(typeOf, xs) == xs
  {
    if xs != [] {
      UnfinishedFilterIsNoOp(typeOf, xs[1..]);
    }
  }

  /** `runMachiene` from a generation and the type last reported, with at most fuel steps. */
  function Runs<T(==)>(transition: T -> seq<T>, typeOf: T -> StateType, gen: seq<T>, t: StateType, fuel: nat): RunResult<T>
    requires t == Success ==> gen != []
    decreases fuel
  {
    if t == Unfinished then
      if fuel == 0 then OutOfFuel
      else
        var (t', next) := Step(transition, typeOf, gen);
        Runs(transition, typeOf, next, t', fuel - 1)
    else if t == Success then Done(Wrappers.Some(gen[0]))
    else Done(Wrappers.None)
  }

  /** Generations reached by steps keep SUCCESS on a single successful state. */
  ghost predicate Settled<T>(typeOf: T -> StateType, gen: seq<T>, t: StateType)
  {
    t == Success ==> |gen| == 1 && typeOf(gen[0]) == Success
  }

  /** A SUCCESS step leaves one successful state. */
  lemma StepSettles<T>(transition: T -> seq<T>, typeOf: T -> StateType, gen: seq<T>)
    ensures Settled(typeOf, Step(transition, typeOf, gen).1, Step(transition, typeOf, gen).0)
  {
  }

  /** A finished run yields null or a SUCCESS state. */
  lemma {:induction false} RunsYieldsSuccess<T>(transition: T -> seq<T>, typeOf: T -> StateType, gen: seq<T>, t: StateType, fuel: nat)
    requires Settled(typeOf, gen, t)
    ensures var r := Runs(transition, typeOf, gen, t, fuel); r.Done? && r.result.Some? ==> typeOf(r.result.value) == Success
    decreases fuel
  {
    if t == Unfinished && fuel > 0 {
      StepSettles(transition, typeOf, gen);
      var (t', next) := Step(transition, typeOf, gen);
      RunsYieldsSuccess(transition, typeOf, next, t', fuel - 1);
    }
  }

  /** The budget only bounds the run: once a run finishes, more steps give the same result. */
  lemma {:induction false} RunsFuelIrrelevant<T>(transition: T -> seq<T>, typeOf: T -> StateType, gen: seq<T>, t: StateType,
                                                 fuel: nat, more: nat)
    requires t == Success ==> gen != []
    requires Runs(transition, typeOf, gen, t, fuel).Done? && fuel <= more
    ensures Runs(transition, typeOf, gen, t, more) == Runs(transition, typeOf, gen, t, fuel)
    decreases fuel
  {
    if t == Unfinished {
      StepSettles(transition, typeOf, gen);
      var (t', next) := Step(transition, typeOf, gen);
      RunsFuelIrrelevant(transition, typeOf, next, t', fuel - 1, more - 1);
    }
  }

  class RegularMachine<T(==)> {
    const transition: T -> seq<T>
    const typeOf: T -> StateType
    var currentStates: seq<T>

    constructor (transition: T -> seq<T>, typeOf: T -> StateType)
      ensures this.transition == transition && this.typeOf == typeOf && currentStates == []
    {
      this.transition := transition;
      this.typeOf := typeOf;
      currentStates := [];
    }

    /** `stepTransitions`: replaces the generation as Step says and reports its type. */
    method StepTransitions() returns (t: StateType)
      modifies this
      ensures (t, currentStates) == Step(transition, typeOf, old(currentStates))
    {
      currentStates := DropFailed(typeOf, FlatMap(transition, currentStates));
      if |currentStates| == 0 {
        return Fail;
      }
      var possibleState := FindSuccess(typeOf, currentStates);
      if possibleState.Some? {
        currentStates := [possibleState.value];
        return Success;
      }
      var discarded := KeepUnfinished(typeOf, currentStates);
      t := Unfinished;
    }

    /** `runMachiene`, stepping while the generation is unfinished and the budget lasts. */
    method RunMachine(start: T, fuel: nat) returns (r: RunResult<T>)
      modifies this
      ensures r == Runs(transition, typeOf, [start], typeOf(start), fuel)
      ensures r.Done? && r.result.Some? ==> typeOf(r.result.value) == Success
      ensures typeOf(start) != Unfinished
              ==> currentStates == [start] && r == Done(if typeOf(start) == Success then Wrappers.Some(start) else Wrappers.None)
    {
      RunsYieldsSuccess(transition, typeOf, [start], typeOf(start), fuel);
      currentStates := [start];
      var currentStateType := typeOf(start);
      var steps := 0;
      while currentStateType == Unfinished && steps < fuel
        invariant steps <= fuel
        invariant typeOf(start) != Unfinished ==> steps == 0 && currentStates == [start] && currentStateType == typeOf(start)
        invariant currentStateType == Success ==> currentStates != []
        invariant Runs(transition, typeOf, [start], typeOf(start), fuel)
               == Runs(transition, typeOf, currentStates, currentStateType, fuel - steps)
      {
        StepSettles(transition, typeOf, currentStates);
        currentStateType := StepTransitions();
        steps := steps + 1;
      }
      if currentStateType == Unfinished {
        return OutOfFuel;
      }
      r := Done(if currentStateType == Success then Wrappers.Some(currentStates[0]) else Wrappers.None);
    }
  }
}
