/** Finite runs of a state machine, and the one induction over them. */
module Runs {
  /** ss are the states passed through: ss[0] is the start and each step leads to the next. */
  ghost predicate IsRun<S(!new), A(!new)>(start: S, next: (S, A, S) -> bool, steps: seq<A>, ss: seq<S>) {
    && |ss| == |steps| + 1
    && ss[0] == start
    && forall i {:trigger steps[i]} :: 0 <= i < |steps| ==> next(ss[i], steps[i], ss[i + 1])
  }

  ghost predicate Preserves<S(!new), A(!new)>(next: (S, A, S) -> bool, inv: S -> bool) {
    forall s, a, s' :: inv(s) && next(s, a, s') ==> inv(s')
  }

  /** What holds at the start and is kept by every step holds in every state of every run. */
  lemma {:induction false} Invariant<S(!new), A(!new)>(
    start: S, next: (S, A, S) -> bool, steps: seq<A>, ss: seq<S>, inv: S -> bool, n: nat)
    requires IsRun(start, next, steps, ss) && n < |ss|
    requires inv(start) && Preserves(next, inv)
    ensures inv(ss[n])
  {
    if n > 0 {
      Invariant(start, next, steps, ss, inv, n - 1);
      var a := steps[n - 1];
    }
  }

  /** What holds in one state of a run and is kept by every step holds in every later state. */
  lemma {:induction false} Later<S(!new), A(!new)>(
    start: S, next: (S, A, S) -> bool, steps: seq<A>, ss: seq<S>, inv: S -> bool, i: nat, j: nat)
    requires IsRun(start, next, steps, ss) && i <= j < |ss|
    requires inv(ss[i]) && Preserves(next, inv)
    ensures inv(ss[j])
    decreases j
  {
    if i < j {
      Later(start, next, steps, ss, inv, i, j - 1);
      var a := steps[j - 1];
    }
  }

  /** The same for what only the steps that are `ok` keep, as long as all of them are. */
  lemma {:induction false} LaterWhile<S(!new), A(!new)>(
    start: S, next: (S, A, S) -> bool, steps: seq<A>, ss: seq<S>, inv: S -> bool, ok: (S, A) -> bool, i: nat, j: nat)
    requires IsRun(start, next, steps, ss) && i <= j < |ss| && inv(ss[i])
    requires forall k {:trigger steps[k]} :: i <= k < j ==> ok(ss[k], steps[k])
    requires forall s, a, s' :: inv(s) && ok(s, a) && next(s, a, s') ==> inv(s')
    ensures inv(ss[j])
    decreases j
  {
    if i < j {
      LaterWhile(start, next, steps, ss, inv, ok, i, j - 1);
      var a := steps[j - 1];
    }
  }

  lemma Extend<S(!new), A(!new)>(start: S, next: (S, A, S) -> bool, steps: seq<A>, ss: seq<S>, a: A, s: S)
    requires IsRun(start, next, steps, ss) && next(ss[|ss| - 1], a, s)
    ensures IsRun(start, next, steps + [a], ss + [s])
  {
    var steps', ss' := steps + [a], ss + [s];
    forall i | 0 <= i < |steps'|
      ensures next(ss'[i], steps'[i], ss'[i + 1])
    {
      if i < |steps| {
        assert steps'[i] == steps[i];
      }
    }
  }

  lemma Concat<S(!new), A(!new)>(
    start: S, next: (S, A, S) -> bool, steps: seq<A>, ss: seq<S>, more: seq<A>, rest: seq<S>)
    requires IsRun(start, next, steps, ss) && IsRun(ss[|ss| - 1], next, more, rest)
    ensures IsRun(start, next, steps + more, ss + rest[1..])
  {
    var steps', ss' := steps + more, ss + rest[1..];
    forall i | 0 <= i < |steps'|
      ensures next(ss'[i], steps'[i], ss'[i + 1])
    {
      if i < |steps| {
        assert steps'[i] == steps[i];
      } else {
        assert steps'[i] == more[i - |steps|] && ss'[i] == rest[i - |steps|];
      }
    }
  }

  lemma Prepend<S(!new), A(!new)>(s: S, a: A, start: S, next: (S, A, S) -> bool, steps: seq<A>, ss: seq<S>)
    requires next(s, a, start) && IsRun(start, next, steps, ss)
    ensures IsRun(s, next, [a] + steps, [s] + ss)
  {
    var steps', ss' := [a] + steps, [s] + ss;
    forall i | 0 <= i < |steps'|
      ensures next(ss'[i], steps'[i], ss'[i + 1])
    {
      if i > 0 {
        assert steps'[i] == steps[i - 1];
      }
    }
  }
}
