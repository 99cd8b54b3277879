/** The readiness protocol with its barrier as it is written: a thread updates a counter only between the
    exchange loop it enters by and the one it leaves by.  Reader r is thread r of the barrier, the handler
    is the thread after the readers. */
module GuardedReadiness {
  import B = Barrier
  import C = Readiness
  import T = ReadinessTheorems

  import opened Runs

  datatype State = State(center: C.State, gate: B.State)

  datatype Label = Center(step: C.Label) | Gate(turn: B.Label)

  function Init(polite: bool, readers: nat): State {
    State(C.Init(C.Rules(false, true, polite), readers), B.Init(false, readers + 1))
  }

  predicate ByReader(l: C.Label) {
    l.Receive? || l.Find? || l.Insert? || l.Load? || l.Store? || l.Close?
  }

  /** The thread that makes a step, if it is one of them. */
  function Actor(c: C.State, l: C.Label): Option<nat> {
    if ByReader(l) then Some(l.r) else if l.Present? then None else Some(|c.readers|)
  }

  /** Thread t has found the entry it is going to update. */
  predicate Arriving(c: C.State, t: nat) {
    if t < |c.readers| then c.readers[t].Found? else c.handler.Took?
  }

  /** Thread t has stored the counter. */
  predicate Updated(c: C.State, t: nat) {
    if t < |c.readers| then c.readers[t].Idle? else c.handler.Looping?
  }

  /** Updates are made within the barrier, everything else outside of it. */
  predicate Allowed(s: State, l: C.Label) {
    match Actor(s.center, l)
    case None => true
    case Some(t) => t < |s.gate.place| && s.gate.place[t] == if C.Guarded(l) then B.Within else B.Outside
  }

  function Next(s: State, l: Label): Option<State> {
    match l
    case Center(step) =>
      var center := C.Next(s.center, step);
      if Allowed(s, step) && center.Some? then Some(State(center.value, s.gate)) else None
    case Gate(turn) =>
      var gate := B.Next(s.gate, turn);
      if gate.Some?
         && (turn.Arrive? ==> Arriving(s.center, turn.t)) && (turn.Finish? ==> Updated(s.center, turn.t)) then
        Some(State(s.center, gate.value))
      else None
  }

  // ---------------------------------------------------------------- the center by itself

  /** The center's own part of a run. */
  function CenterLabels(ls: seq<Label>): seq<C.Label> {
    if ls == [] then
      []
    else
      var before, last := CenterLabels(ls[..|ls| - 1]), ls[|ls| - 1];
      if last.Center? then before + [last.step] else before
  }

  /** A run of the whole is, seen from the center, one of the readiness protocol without exclusion. */
  lemma {:induction false} Projects(polite: bool, readers: nat, ls: seq<Label>)
    requires Run(Next, Init(polite, readers), ls).Some?
    ensures Run(C.Next, C.Init(C.Rules(false, true, polite), readers), CenterLabels(ls))
            == Some(Run(Next, Init(polite, readers), ls).value.center)
    decreases |ls|
  {
    if ls != [] {
      var n := |ls| - 1;
      Projects(polite, readers, ls[..n]);
      if ls[n].Center? {
        RunExtend(C.Next, C.Init(C.Rules(false, true, polite), readers), CenterLabels(ls[..n]), ls[n].step);
      }
    }
  }

  /** So the streams are conserved here exactly as there: unless a take clips or a close drops bytes. */
  lemma StreamConservationIff(polite: bool, readers: nat, ls: seq<Label>, s: State, fd: int)
    requires Run(Next, Init(polite, readers), ls) == Some(s)
    ensures
      T.InOrder(s.center, fd)
      <==> forall i :: !HappensAt(C.Next, T.Losing(fd), C.Init(C.Rules(false, true, polite), readers),
                                  CenterLabels(ls), i)
  {
    Projects(polite, readers, ls);
    T.StreamConservationIff(C.Rules(false, true, polite), readers, CenterLabels(ls), s.center, fd);
  }

  /** And with the barrier as it is written, bytes are stranded at the end of a run exactly if nobody is in the
      middle of anything with their descriptor, some store has left the counter too low for them, and nothing
      has led back to them since. */
  lemma StrandedIff(readers: nat, ls: seq<Label>, s: State, fd: int)
    requires Run(Next, Init(true, readers), ls) == Some(s)
    ensures
      T.Stranded(s.center, fd)
      <==> T.NobodyAt(s.center, fd)
           && exists i :: LastsFrom(C.Next, T.Uncovering(fd), T.LeavingBehind(fd),
                                    C.Init(C.Rules(false, true, true), readers), CenterLabels(ls), i)
  {
    Projects(true, readers, ls);
    T.UncoveredIff(false, readers, CenterLabels(ls), s.center, fd);
    T.StrandedMeans(s.center, fd);
  }

  // ---------------------------------------------------------------- threads that never meet

  /** The steps after which no two threads are within the barrier together. */
  function Apart(s: State, l: Label): Option<State> {
    var t := Next(s, l);
    if t.Some? && B.Exclusive(t.value.gate) then t else None
  }

  /** The center, with a barrier that excludes. */
  function Exclusively(c: C.State): C.State {
    c.(rules := C.Rules(true, true, true))
  }

  /** Who is inside an update is within the barrier. */
  ghost predicate Placed(s: State) {
    && |s.gate.place| == |s.center.readers| + 1
    && (forall r :: 0 <= r < |s.center.readers| && s.center.readers[r].Raising? ==> s.gate.place[r].Within?)
    && (s.center.handler.Lowering? ==> s.gate.place[|s.center.readers|].Within?)
  }

  ghost predicate Inv(s: State) {
    && s.center.rules == C.Rules(false, true, true) && Placed(s)
    && C.Inv(Exclusively(s.center)) && C.Excluded(Exclusively(s.center))
  }

  /** Without a meeting, what the center does it also does with a barrier that excludes: a thread within the
      barrier finds nobody else inside an update. */
  lemma CenterStep(s: State, l: C.Label)
    requires Inv(s) && B.Exclusive(s.gate) && Allowed(s, l) && C.Next(s.center, l).Some?
    ensures C.Next(Exclusively(s.center), l) == Some(Exclusively(C.Next(s.center, l).value))
  {
  }

  lemma PlacedCenter(s: State, l: C.Label)
    requires Placed(s) && Allowed(s, l) && C.Next(s.center, l).Some?
    ensures Placed(State(C.Next(s.center, l).value, s.gate))
  {
  }

  lemma PlacedGate(s: State, l: B.Label)
    requires Placed(s) && Next(s, Gate(l)).Some?
    ensures Placed(State(s.center, B.Next(s.gate, l).value))
  {
  }

  lemma ApartCenter(s: State, l: C.Label)
    requires Inv(s) && B.Exclusive(s.gate) && Allowed(s, l) && C.Next(s.center, l).Some?
    ensures
      var c := C.Next(s.center, l).value;
      && c.rules == s.center.rules && C.Inv(Exclusively(c)) && C.Excluded(Exclusively(c))
  {
    CenterStep(s, l);
    C.ExcludedStep(Exclusively(s.center), l);
    C.InvStep(Exclusively(s.center), l);
  }

  lemma ApartStep(s: State, l: Label)
    requires Inv(s) && Apart(s, l).Some?
    ensures Inv(Apart(s, l).value)
  {
    match l
    case Center(step) =>
      PlacedCenter(s, step);
      ApartCenter(s, step);
    case Gate(turn) =>
      PlacedGate(s, turn);
  }

  lemma ApartInv(readers: nat, s: State)
    requires Reaches(Apart, Init(true, readers), s)
    ensures Inv(s)
  {
    forall t, l | Inv(t) && Apart(t, l).Some? ensures Inv(Apart(t, l).value) {
      ApartStep(t, l);
    }
    ReachesKeeps(Apart, Inv, Init(true, readers), s);
  }

  // ---------------------------------------------------------------- threads that meet

  lemma LiftStep(gate: B.State, u: C.State, l: C.Label)
    requires |gate.place| == |u.readers| + 1 && C.Unguarded(u, l).Some?
    requires forall t :: 0 <= t < |gate.place| ==> gate.place[t].Outside?
    ensures Next(State(u, gate), Center(l)) == Some(State(C.Unguarded(u, l).value, gate))
    ensures |C.Unguarded(u, l).value.readers| == |u.readers|
  {
  }

  /** Whatever the center reaches outside of the barrier is reached while everybody is outside. */
  lemma Lift(init: State, s: State, c: C.State)
    requires Reaches(Next, init, s) && Reaches(C.Unguarded, s.center, c)
    requires |s.gate.place| == |s.center.readers| + 1
    requires forall t :: 0 <= t < |s.gate.place| ==> s.gate.place[t].Outside?
    ensures Reaches(Next, init, State(c, s.gate))
  {
    var whole := (u: C.State) => State(u, s.gate);
    var inv := (u: C.State) => |u.readers| == |s.center.readers|;
    forall u, l | inv(u) && C.Unguarded(u, l).Some?
      ensures inv(C.Unguarded(u, l).value)
      ensures exists m :: Next(whole(u), m) == Some(whole(C.Unguarded(u, l).value))
    {
      LiftStep(s.gate, u, l);
      assert Next(whole(u), Center(l)) == Some(whole(C.Unguarded(u, l).value));
    }
    assert whole(s.center) == s;
    ReachesMapped(C.Unguarded, inv, Next, whole, init, s.center, c);
  }

  /** Thread t enters the barrier; if the flag is not set, its first exchange sets it. */
  lemma WalkIn(init: State, s: State, t: nat) returns (r: State)
    requires Reaches(Next, init, s) && t < |s.gate.place| && s.gate.place[t].Outside? && Arriving(s.center, t)
    ensures Reaches(Next, init, r) && r == State(s.center, B.State(true, s.gate.place[t := B.Within]))
  {
    r := ReachesStep(Next, init, s, Gate(B.Arrive(t)));
    if !r.gate.flag {
      r := ReachesStep(Next, init, r, Gate(B.Exchange(t)));
    }
    r := ReachesStep(Next, init, r, Gate(B.Exchange(t)));
    assert r.gate.place == s.gate.place[t := B.Within];
  }

  /** Thread t finishes and makes one exchange of the loop it leaves by. */
  lemma WalkOut(init: State, s: State, t: nat) returns (r: State)
    requires Reaches(Next, init, s) && t < |s.gate.place| && s.gate.place[t].Within? && Updated(s.center, t)
    ensures Reaches(Next, init, r)
    ensures r == State(s.center, B.State(false, s.gate.place[t := if s.gate.flag then B.Outside else B.Leaving]))
  {
    r := ReachesStep(Next, init, s, Gate(B.Finish(t)));
    r := ReachesStep(Next, init, r, Gate(B.Exchange(t)));
  }

  /** The bytes of a first notification are taken, and reader 0 and the handler have walked in to update
      the same counter. */
  predicate BothIn(s: State) {
    && |s.gate.place| == |s.center.readers| + 1 >= 2 && s.gate.flag
    && s.gate.place == B.Init(false, |s.gate.place|).place[|s.center.readers| := B.Within][0 := B.Within]
    && !s.center.rules.exclusive && s.center.table == map[5 := C.MORE] && C.Get(s.center.buffered, 5) == "b"
    && s.center.handler == C.Took(map[5 := C.MORE], {}, 5) && s.center.readers[0] == C.Found(5)
    && forall r :: 1 <= r < |s.center.readers| ==> s.center.readers[r].Idle?
  }

  lemma ToBothIn(polite: bool, readers: nat) returns (s: State)
    requires readers >= 1
    ensures Reaches(Next, Init(polite, readers), s) && BothIn(s) && |s.center.readers| == readers
  {
    var init := Init(polite, readers);
    ReachesSelf(Next, init);
    var c := T.ToFirstTake(init.center);
    Lift(init, init, c);
    var d := T.ToSecondFind(c);
    Lift(init, State(c, init.gate), d);
    s := State(d, init.gate);
    s := WalkIn(init, s, readers);
    s := WalkIn(init, s, 0);
  }

  /** Both load the counter, then both store it, the handler last. */
  lemma BothUpdate(init: State, s: State) returns (t: State)
    requires Reaches(Next, init, s) && BothIn(s)
    ensures Reaches(Next, init, t) && t.gate == s.gate
    ensures
      t.center
      == C.Put(s.center, 0, C.Idle).(table := map[5 := C.ONE], handler := C.Looping(map[5 := C.MORE], {}))
  {
    t := ReachesStep(Next, init, s, Center(C.LoadDown));
    t := ReaderUpdates(init, t);
    var before := t.center.table;
    t := ReachesStep(Next, init, t, Center(C.StoreDown));
    assert before[5 := C.ONE] == map[5 := C.ONE];
  }

  lemma ReaderUpdates(init: State, s: State) returns (t: State)
    requires Reaches(Next, init, s) && !s.center.rules.exclusive && s.center.table == map[5 := C.MORE]
    requires 1 <= |s.center.readers| < |s.gate.place| && s.gate.place[0].Within? && s.center.readers[0] == C.Found(5)
    ensures Reaches(Next, init, t) && t.gate == s.gate
    ensures t.center == C.Put(s.center, 0, C.Idle).(table := map[5 := C.Raise(s.center.rules.three, C.MORE)])
  {
    T.LoadAndStore(s.center);
    t := ReachesStep(Next, init, s, Center(C.Load(0)));
    t := ReachesStep(Next, init, t, Center(C.Store(0)));
  }

  /** As the barrier is written, a reader and the handler that meet in it can strand a byte, and the handler
      then spins in the barrier. */
  lemma MeetingStrands(polite: bool, readers: nat) returns (s: State)
    requires readers >= 1
    ensures Reaches(Next, Init(polite, readers), s) && T.Stranded(s.center, 5)
    ensures !s.gate.flag && s.gate.place == B.Init(false, readers + 1).place[readers := B.Leaving]
  {
    var init := Init(polite, readers);
    s := ToBothIn(polite, readers);
    s := BothUpdate(init, s);
    s := WalkOut(init, s, 0);
    s := WalkOut(init, s, readers);
    assert s.gate.place == init.gate.place[readers := B.Leaving];
  }

  /** Stranding takes a meeting: no run in which two threads are never within the barrier together strands
      any bytes. */
  lemma ApartNeverStrands(readers: nat, s: State, fd: int)
    requires Reaches(Apart, Init(true, readers), s)
    ensures !T.Stranded(s.center, fd)
  {
    ApartInv(readers, s);
    assert C.Get(s.center.buffered, fd) != [] ==> C.Covered(Exclusively(s.center), fd);
  }

  /** Without readers nothing is ever read. */
  ghost predicate NothingRead(s: State) {
    s.center.readers == [] && forall fd :: C.Get(s.center.buffered, fd) == []
  }

  lemma NothingReadStep(s: State, l: Label)
    requires NothingRead(s) && Next(s, l).Some?
    ensures NothingRead(Next(s, l).value)
  {
    var t := Next(s, l).value;
    forall fd ensures C.Get(t.center.buffered, fd) == [] {
      assert C.Get(s.center.buffered, fd) == [];
    }
  }

  /** The barrier as it is written keeps all bytes from being stranded only if there are no readers. */
  lemma NeverStrandsIff(polite: bool, readers: nat)
    ensures (forall s, fd :: Reaches(Next, Init(polite, readers), s) ==> !T.Stranded(s.center, fd)) <==> readers == 0
  {
    if readers >= 1 {
      var s := MeetingStrands(polite, readers);
    } else {
      forall t, l | NothingRead(t) && Next(t, l).Some? ensures NothingRead(Next(t, l).value) {
        NothingReadStep(t, l);
      }
      forall s, fd | Reaches(Next, Init(polite, readers), s) ensures !T.Stranded(s.center, fd) {
        ReachesKeeps(Next, NothingRead, Init(polite, readers), s);
      }
    }
  }
}
