/** The atomic flag around the counter updates of the readiness table, as it is written: entering
    repeats an exchange with true until the old value was true, leaving repeats an exchange with false
    until the old value was true. */
module Barrier {
  import opened Counting
  import opened Runs

  datatype Place = Outside | Entering | Within | Leaving

  datatype State = State(flag: bool, place: seq<Place>)

  /** Arrive at the barrier; one exchange of the entering or leaving loop; finish the guarded update. */
  datatype Label = Arrive(t: nat) | Exchange(t: nat) | Finish(t: nat)

  function Init(flag: bool, threads: nat): State {
    State(flag, seq(threads, _ => Outside))
  }

  function Next(s: State, l: Label): Option<State> {
    if l.t >= |s.place| then
      None
    else
      match (l, s.place[l.t])
      case (Arrive(t), Outside) => Some(s.(place := s.place[t := Entering]))
      case (Exchange(t), Entering) => Some(State(true, if s.flag then s.place[t := Within] else s.place))
      case (Finish(t), Within) => Some(s.(place := s.place[t := Leaving]))
      case (Exchange(t), Leaving) => Some(State(false, if s.flag then s.place[t := Outside] else s.place))
      case _ => None
  }

  predicate Exclusive(s: State) {
    forall t, u :: 0 <= t < u < |s.place| ==> !(s.place[t].Within? && s.place[u].Within?)
  }

  /** Thread t walks in; if the flag is not set, its first exchange sets it. */
  lemma WalkIn(init: State, s: State, t: nat) returns (r: State)
    requires Reaches(Next, init, s) && t < |s.place| && s.place[t].Outside?
    ensures Reaches(Next, init, r) && r == State(true, s.place[t := Within])
  {
    r := ReachesStep(Next, init, s, Arrive(t));
    if !r.flag {
      r := ReachesStep(Next, init, r, Exchange(t));
    }
    r := ReachesStep(Next, init, r, Exchange(t));
    assert r.place == s.place[t := Within];
  }

  /** Two threads walk in one after the other. */
  lemma BothWithin(init: State) returns (s: State)
    requires init == Init(false, |init.place|) && |init.place| >= 2
    ensures Reaches(Next, init, s) && s.flag && s.place == init.place[0 := Within][1 := Within]
  {
    ReachesSelf(Next, init);
    s := WalkIn(init, init, 0);
    s := WalkIn(init, s, 1);
  }

  lemma {:induction false} PlacesKept(s: State, ls: seq<Label>)
    ensures Run(Next, s, ls).Some? ==> |Run(Next, s, ls).value.place| == |s.place|
    decreases |ls|
  {
    if ls != [] {
      PlacesKept(s, ls[..|ls| - 1]);
    }
  }

  /** The barrier keeps a second thread out only if there is no second thread. */
  lemma ExclusiveIff(threads: nat)
    ensures (forall s :: Reaches(Next, Init(false, threads), s) ==> Exclusive(s)) <==> threads <= 1
  {
    if threads >= 2 {
      var s := BothWithin(Init(false, threads));
      assert s.place[0].Within? && s.place[1].Within?;
    } else {
      forall s | Reaches(Next, Init(false, threads), s) ensures Exclusive(s) {
        var ls :| Run(Next, Init(false, threads), ls) == Some(s);
        PlacesKept(Init(false, threads), ls);
      }
    }
  }

  // ---------------------------------------------------------------- getting out

  /** The steps of threads that have arrived already. */
  function WithoutArrivals(s: State, l: Label): Option<State> {
    if l.Arrive? then None else Next(s, l)
  }

  predicate Inside(s: State, t: nat) {
    t < |s.place| && (s.place[t].Within? || s.place[t].Leaving?)
  }

  ghost predicate AllOut(s: State) {
    forall t :: 0 <= t < |s.place| ==> s.place[t].Outside?
  }

  ghost predicate SomeEntering(s: State) {
    exists t :: 0 <= t < |s.place| && s.place[t].Entering?
  }

  ghost predicate AloneInside(s: State, t: nat) {
    Inside(s, t) && forall u :: Inside(s, u) ==> u == t
  }

  /** Somebody is entering, or nobody is inside, or exactly one thread is and the flag is set. */
  ghost predicate Clearable(s: State) {
    || SomeEntering(s)
    || (forall t :: !Inside(s, t))
    || (s.flag && exists t :: AloneInside(s, t))
  }

  /** How many successful steps a thread is away from being outside. */
  function Away(p: Place): nat {
    match p
    case Outside => 0
    case Entering => 3
    case Within => 2
    case Leaving => 1
  }

  /** What a step of a thread inside the barrier does to who is inside. */
  lemma InsideStep(s: State, l: Label)
    requires WithoutArrivals(s, l).Some? && Inside(s, l.t)
    ensures
      var t := WithoutArrivals(s, l).value;
      && (SomeEntering(t) <==> SomeEntering(s))
      && if s.flag && l.Exchange? then !t.flag && forall u :: Inside(t, u) <==> Inside(s, u) && u != l.t
         else t.flag == s.flag && forall u :: Inside(t, u) <==> Inside(s, u)
  {
    var t := WithoutArrivals(s, l).value;
    if e :| 0 <= e < |s.place| && s.place[e].Entering? {
      assert t.place[e].Entering?;
    }
    if e :| 0 <= e < |t.place| && t.place[e].Entering? {
      assert s.place[e].Entering?;
    }
  }

  /** Steps that keep it so; entering needs the others to be out. */
  lemma ClearableAfter(s: State, l: Label)
    requires Clearable(s) && WithoutArrivals(s, l).Some? && l.t < |s.place|
    requires s.place[l.t].Entering? && s.flag ==> forall t :: !Inside(s, t)
    ensures Clearable(WithoutArrivals(s, l).value)
  {
    var after := WithoutArrivals(s, l).value;
    if Inside(s, l.t) {
      InsideStep(s, l);
      assert l.Finish? && AloneInside(s, l.t) ==> AloneInside(after, l.t);
    } else if s.flag {
      forall u | Inside(after, u) ensures u == l.t {
        assert u != l.t ==> Inside(s, u);
      }
      assert AloneInside(after, l.t);
    } else {
      assert after.place[l.t].Entering?;
    }
  }

  /** The next step on the way out: a thread inside finishes or leaves; while the flag is not set, a thread
      that is entering sets it. */
  lemma WayOut(s: State) returns (l: Label)
    requires Clearable(s) && !AllOut(s)
    ensures WithoutArrivals(s, l).Some? && l.t < |s.place|
    ensures s.place[l.t].Within? || (s.place[l.t].Leaving? && s.flag)
            || (s.place[l.t].Entering? && (s.flag ==> forall t :: !Inside(s, t)))
  {
    if w :| 0 <= w < |s.place| && s.place[w].Within? {
      l := Finish(w);
    } else if v :| 0 <= v < |s.place| && s.place[v].Leaving? && s.flag {
      l := Exchange(v);
    } else if e :| 0 <= e < |s.place| && s.place[e].Entering? {
      l := Exchange(e);
    } else {
      var t :| 0 <= t < |s.place| && !s.place[t].Outside?;
      assert Inside(s, t);
    }
  }

  lemma ClearStep(s: State, l: Label)
    requires WithoutArrivals(s, l).Some? && l.t < |s.place|
    requires s.place[l.t].Leaving? ==> s.flag
    ensures
      var t := WithoutArrivals(s, l).value;
      Sum(Away, t.place) < Sum(Away, s.place) || (t.place == s.place && !s.flag && t.flag)
  {
    var t := WithoutArrivals(s, l).value;
    SumUpdate(Away, s.place, l.t, t.place[l.t]);
  }

  lemma {:induction false} ClearsOut(origin: State, s: State) returns (t: State)
    requires Reaches(WithoutArrivals, origin, s) && Clearable(s)
    ensures Reaches(WithoutArrivals, origin, t) && AllOut(t)
    decreases Sum(Away, s.place), !s.flag
  {
    if AllOut(s) {
      t := s;
    } else {
      var l := WayOut(s);
      ClearableAfter(s, l);
      ClearStep(s, l);
      var u := ReachesStep(WithoutArrivals, origin, s, l);
      t := ClearsOut(origin, u);
    }
  }

  lemma BlockedStep(s: State, l: Label)
    requires !Clearable(s) && WithoutArrivals(s, l).Some?
    ensures !Clearable(WithoutArrivals(s, l).value)
  {
    assert Inside(s, l.t);
    InsideStep(s, l);
    var t := WithoutArrivals(s, l).value;
    if s.flag && l.Exchange? {
      assert !AloneInside(s, l.t);
      var u :| Inside(s, u) && u != l.t;
      assert Inside(t, u);
    } else {
      assert Inside(t, l.t);
      forall v ensures AloneInside(t, v) ==> AloneInside(s, v) {
      }
    }
  }

  /** Unless somebody arrives, the threads in the barrier can all get out again exactly if one of them is
      still entering, or none is inside, or exactly one is inside and the flag is set. */
  lemma EveryoneLeavesIff(s: State)
    ensures (exists t :: Reaches(WithoutArrivals, s, t) && AllOut(t)) <==> Clearable(s)
  {
    if Clearable(s) {
      ReachesSelf(WithoutArrivals, s);
      var t := ClearsOut(s, s);
    } else {
      forall t | Reaches(WithoutArrivals, s, t) ensures !AllOut(t) {
        Blocked(s, t);
        var u :| Inside(t, u);
      }
    }
  }

  lemma Blocked(s: State, t: State)
    requires !Clearable(s) && Reaches(WithoutArrivals, s, t)
    ensures !Clearable(t)
  {
    var inv := (t: State) => !Clearable(t);
    forall t, l | inv(t) && WithoutArrivals(t, l).Some? ensures inv(WithoutArrivals(t, l).value) {
      BlockedStep(t, l);
    }
    ReachesKeeps(WithoutArrivals, inv, s, t);
  }

  /** So whenever two threads meet inside while nobody is entering, one of them spins there for good,
      unless somebody arrives. */
  lemma MeetingSpins(s: State, t: nat, u: nat, r: State)
    requires t != u && Inside(s, t) && Inside(s, u)
    requires forall v :: 0 <= v < |s.place| ==> !s.place[v].Entering?
    requires Reaches(WithoutArrivals, s, r)
    ensures exists v :: Inside(r, v)
  {
    assert !Clearable(s);
    Blocked(s, r);
  }
}
