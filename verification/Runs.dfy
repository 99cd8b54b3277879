/** Runs of a labelled state machine.  A machine is one function: `step(s, l)` is the state reached
    by label `l` from `s`, or `None` when `l` cannot happen in `s`. */
module Runs {

  datatype Option<+T> = None | Some(value: T)

  /** The state reached by performing the labels in order, or `None` if one of them is not possible. */
  function Run<S, L>(step: (S, L) -> Option<S>, s: S, ls: seq<L>): Option<S> {
    if ls == [] then
      Some(s)
    else
      var before := Run(step, s, ls[..|ls| - 1]);
      if before.None? then None else step(before.value, ls[|ls| - 1])
  }

  /** One more label at the end of a run. */
  lemma RunExtend<S, L>(step: (S, L) -> Option<S>, s: S, ls: seq<L>, l: L)
    requires Run(step, s, ls).Some?
    ensures Run(step, s, ls + [l]) == step(Run(step, s, ls).value, l)
  {
    assert (ls + [l])[..|ls|] == ls;
  }

  /** A property every step keeps holds at the end of every run. */
  lemma {:induction false} RunKeeps<S(!new), L(!new)>(step: (S, L) -> Option<S>, inv: S -> bool, s: S, ls: seq<L>)
    requires inv(s)
    requires forall t, l :: inv(t) && step(t, l).Some? ==> inv(step(t, l).value)
    ensures Run(step, s, ls).Some? ==> inv(Run(step, s, ls).value)
    decreases |ls|
  {
    if ls != [] {
      RunKeeps(step, inv, s, ls[..|ls| - 1]);
    }
  }

  /** If every step by an allowed label lowers a measure, no run of allowed labels is longer than the
      measure it started with. */
  lemma {:induction false} RunBounded<S(!new), L(!new)>(
      step: (S, L) -> Option<S>, inv: S -> bool, allowed: L -> bool, measure: S -> nat, s: S, ls: seq<L>)
    requires inv(s) && forall l :: l in ls ==> allowed(l)
    requires forall t, l :: inv(t) && allowed(l) && step(t, l).Some? ==>
               inv(step(t, l).value) && measure(step(t, l).value) < measure(t)
    ensures Run(step, s, ls).Some? ==>
              inv(Run(step, s, ls).value) && measure(Run(step, s, ls).value) + |ls| <= measure(s)
    decreases |ls|
  {
    if ls != [] {
      RunBounded(step, inv, allowed, measure, s, ls[..|ls| - 1]);
    }
  }

  /** Step i of the run is of the given kind. */
  ghost predicate HappensAt<S, L>(step: (S, L) -> Option<S>, kind: (S, L) -> bool, s: S, ls: seq<L>, i: nat) {
    i < |ls| && Run(step, s, ls[..i]).Some? && kind(Run(step, s, ls[..i]).value, ls[i])
  }

  lemma HappensBefore<S, L>(step: (S, L) -> Option<S>, kind: (S, L) -> bool, s: S, ls: seq<L>, n: nat, i: nat)
    requires i < n <= |ls|
    ensures HappensAt(step, kind, s, ls, i) <==> HappensAt(step, kind, s, ls[..n], i)
  {
    assert ls[..n][..i] == ls[..i];
  }

  /** If a property holds after a step exactly if it held before and the step does not spoil it, then it
      holds at the end of a run exactly if no step has spoilt it. */
  lemma {:induction false} RunUnspoilt<S(!new), L(!new)>(
      step: (S, L) -> Option<S>, inv: S -> bool, good: S -> bool, spoils: (S, L) -> bool, s: S, ls: seq<L>)
    requires inv(s) && good(s)
    requires forall t, l :: inv(t) && step(t, l).Some? ==>
               inv(step(t, l).value) && (good(step(t, l).value) <==> good(t) && !spoils(t, l))
    ensures Run(step, s, ls).Some? ==>
              && inv(Run(step, s, ls).value)
              && (good(Run(step, s, ls).value) <==> forall i :: !HappensAt(step, spoils, s, ls, i))
    decreases |ls|
  {
    if ls != [] && Run(step, s, ls).Some? {
      var n := |ls| - 1;
      var before := Run(step, s, ls[..n]).value;
      RunUnspoilt(step, inv, good, spoils, s, ls[..n]);
      forall i: nat | i < n ensures HappensAt(step, spoils, s, ls, i) <==> HappensAt(step, spoils, s, ls[..n], i) {
        HappensBefore(step, spoils, s, ls, n, i);
      }
      assert HappensAt(step, spoils, s, ls, n) <==> spoils(before, ls[n]);
      if !good(before) {
        var i :| HappensAt(step, spoils, s, ls[..n], i);
        assert HappensAt(step, spoils, s, ls, i);
      }
    }
  }

  /** Step i of the run sets something that every later step keeps. */
  ghost predicate LastsFrom<S, L>(step: (S, L) -> Option<S>, sets: (S, L) -> bool, keeps: (S, L) -> bool,
                                  s: S, ls: seq<L>, i: nat) {
    HappensAt(step, sets, s, ls, i) && forall k :: i < k < |ls| ==> HappensAt(step, keeps, s, ls, k)
  }

  lemma LastsOn<S, L>(step: (S, L) -> Option<S>, sets: (S, L) -> bool, keeps: (S, L) -> bool,
                      s: S, ls: seq<L>, n: nat, i: nat)
    requires i < n == |ls| - 1
    ensures LastsFrom(step, sets, keeps, s, ls, i)
            <==> LastsFrom(step, sets, keeps, s, ls[..n], i) && HappensAt(step, keeps, s, ls, n)
  {
    HappensBefore(step, sets, s, ls, n, i);
    forall k | i < k < n ensures HappensAt(step, keeps, s, ls, k) <==> HappensAt(step, keeps, s, ls[..n], k) {
      HappensBefore(step, keeps, s, ls, n, k);
    }
  }

  /** If a property holds after a step exactly if the step sets it, or it held before and the step keeps it,
      then it holds at the end of a run exactly if some step has set it and all later ones have kept it. */
  lemma {:induction false} RunLasting<S(!new), L(!new)>(
      step: (S, L) -> Option<S>, inv: S -> bool, holds: S -> bool, sets: (S, L) -> bool, keeps: (S, L) -> bool,
      s: S, ls: seq<L>)
    requires inv(s) && !holds(s)
    requires forall t, l :: inv(t) && step(t, l).Some? ==>
               && inv(step(t, l).value)
               && (holds(step(t, l).value) <==> sets(t, l) || (holds(t) && keeps(t, l)))
    ensures Run(step, s, ls).Some? ==>
              && inv(Run(step, s, ls).value)
              && (holds(Run(step, s, ls).value) <==> exists i :: LastsFrom(step, sets, keeps, s, ls, i))
    decreases |ls|
  {
    if ls != [] && Run(step, s, ls).Some? {
      var n := |ls| - 1;
      var before := Run(step, s, ls[..n]).value;
      RunLasting(step, inv, holds, sets, keeps, s, ls[..n]);
      forall i: nat | i < n
        ensures LastsFrom(step, sets, keeps, s, ls, i)
                <==> LastsFrom(step, sets, keeps, s, ls[..n], i) && keeps(before, ls[n])
      {
        LastsOn(step, sets, keeps, s, ls, n, i);
      }
      assert LastsFrom(step, sets, keeps, s, ls, n) <==> sets(before, ls[n]);
      if i :| LastsFrom(step, sets, keeps, s, ls[..n], i) {
        assert keeps(before, ls[n]) ==> LastsFrom(step, sets, keeps, s, ls, i);
      }
    }
  }

  /** Some run leads from s to t. */
  ghost predicate Reaches<S(!new), L(!new)>(step: (S, L) -> Option<S>, s: S, t: S) {
    exists ls :: Run(step, s, ls) == Some(t)
  }

  lemma ReachesSelf<S(!new), L(!new)>(step: (S, L) -> Option<S>, s: S)
    ensures Reaches(step, s, s)
  {
    assert Run(step, s, []) == Some(s);
  }

  lemma ReachesStep<S(!new), L(!new)>(step: (S, L) -> Option<S>, s: S, t: S, l: L) returns (u: S)
    requires Reaches(step, s, t) && step(t, l).Some?
    ensures step(t, l) == Some(u) && Reaches(step, s, u)
  {
    var ls :| Run(step, s, ls) == Some(t);
    RunExtend(step, s, ls, l);
    u := step(t, l).value;
  }

  /** A property every step keeps holds in every state that can be reached. */
  lemma ReachesKeeps<S(!new), L(!new)>(step: (S, L) -> Option<S>, inv: S -> bool, s: S, t: S)
    requires Reaches(step, s, t) && inv(s)
    requires forall t, l :: inv(t) && step(t, l).Some? ==> inv(step(t, l).value)
    ensures inv(t)
  {
    var ls :| Run(step, s, ls) == Some(t);
    RunKeeps(step, inv, s, ls);
  }

  /** If every step of one machine from s on is a step of another, or changes nothing the other sees, then
      what the first reaches from there the other reaches too. */
  lemma ReachesMapped<S(!new), L(!new), T(!new), M(!new)>(
      step: (S, L) -> Option<S>, inv: S -> bool, image: (T, M) -> Option<T>, f: S -> T, origin: T, s: S, t: S)
    requires Reaches(image, origin, f(s)) && Reaches(step, s, t) && inv(s)
    requires forall u, l :: inv(u) && step(u, l).Some? ==>
               && inv(step(u, l).value)
               && (f(step(u, l).value) == f(u) || exists m :: image(f(u), m) == Some(f(step(u, l).value)))
    ensures Reaches(image, origin, f(t))
  {
    var keeps := (u: S) => inv(u) && Reaches(image, origin, f(u));
    forall u, l | keeps(u) && step(u, l).Some? ensures keeps(step(u, l).value) {
      var v := step(u, l).value;
      if f(v) != f(u) {
        var m :| image(f(u), m) == Some(f(v));
        var w := ReachesStep(image, origin, f(u), m);
      }
    }
    ReachesKeeps(step, keeps, s, t);
  }
}
