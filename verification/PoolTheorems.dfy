/** What the queue protocol of the thread pool guarantees: before Shutdown (no lost wakeup, order,
    draining) and after it (exactly when a worker can take from the emptied queue). */
module PoolTheorems {
  import opened Counting
  import opened Runs
  import opened PoolProtocol

  ghost predicate Reachable(s: State) {
    Reaches(Next, INIT, s)
  }

  lemma ReachableInv(s: State)
    requires Reachable(s)
    ensures Inv(s)
  {
    forall t, l | Inv(t) && Next(t, l).Some? ensures Inv(Next(t, l).value) {
      InvStep(t, l);
    }
    ReachesKeeps(Next, Inv, INIT, s);
  }

  /** Steps the running program makes by itself: no new worker, push, call of Shutdown or spurious wakeup. */
  predicate Internal(l: Label) {
    l.NotifyOne? || l.Lookup? || l.Test? || l.MarkEmpty? || l.Acquire? || l.Finish?
  }

  /** No such step is possible. */
  ghost predicate Quiet(s: State) {
    forall l :: Internal(l) ==> Next(s, l).None?
  }

  lemma QuietMeans(s: State)
    requires Inv(s) && Quiet(s)
    ensures s.pending == 0
    ensures forall w :: 0 <= w < |s.pc| ==> s.pc[w].Sleeping? || s.pc[w].Exited? || s.pc[w].Underflow?
  {
    if w :| 0 <= w < |s.pc| && s.pc[w].Sleeping? {
      assert Next(s, NotifyOne(Some(w))).None?;
    } else {
      assert Next(s, NotifyOne(None)).None?;
    }
    forall w | 0 <= w < |s.pc| ensures s.pc[w].Sleeping? || s.pc[w].Exited? || s.pc[w].Underflow? {
      assert WorkerInv(s, w);
      assert Next(s, Lookup(w)).None? && Next(s, Test(w)).None? && Next(s, MarkEmpty(w)).None?;
      assert Next(s, Acquire(w)).None? && Next(s, Finish(w)).None?;
    }
  }

  // ---------------------------------------------------------------- before Shutdown

  /** No lost wakeup: while a worker sleeps, every queued task is matched by a notification still to be
      sent or by a worker on its way to the queue.  So once nothing moves by itself any more, a task can
      be left in the queue only if every worker has exited. */
  lemma NoLostWakeup(s: State)
    requires Reachable(s) && s.closing.Open?
    ensures SomeSleeper(s) ==> |s.queue| <= s.pending + Sum(Heading, s.pc)
    ensures Quiet(s) && s.queue != [] ==> forall w :: 0 <= w < |s.pc| ==> s.pc[w].Exited?
  {
    ReachableInv(s);
    if Quiet(s) && s.queue != [] {
      QuietMeans(s);
      SumZero(Heading, s.pc);
      assert !SomeSleeper(s);
      forall w | 0 <= w < |s.pc| ensures s.pc[w].Exited? {
        assert WorkerInv(s, w);
      }
    }
  }

  /** Tasks are taken in the order of submission, and every task taken is finished or is being performed
      by exactly one worker, the one that took it. */
  lemma TaskConservation(s: State)
    requires Reachable(s) && (s.closing.Open? || s.closing.StopWritten?)
    ensures s.taken + s.queue == s.submitted
    ensures forall i :: 0 <= i < |s.taken| ==>
              (i in s.finished <==> forall w :: 0 <= w < |s.pc| ==> s.pc[w] != Running(i))
    ensures forall v, w :: 0 <= v < w < |s.pc| && s.pc[v].Running? ==> s.pc[v] != s.pc[w]
    ensures |s.takers| == |s.taken|
    ensures forall w :: 0 <= w < |s.pc| && s.pc[w].Running? ==>
              s.pc[w].index < |s.takers| && s.takers[s.pc[w].index] == w
  {
    ReachableInv(s);
    forall w | 0 <= w < |s.pc| && s.pc[w].Running? ensures s.pc[w].index < |s.takers| && s.takers[s.pc[w].index] == w {
      assert TakerInv(s, w);
    }
  }

  /** On its way to a task, or waiting for one. */
  predicate Free(p: Phase) {
    p.Entering? || p.Sleeping? || p.Woken? || p.Underflow?
  }

  predicate StatusFits(s: State, w: nat)
    requires w < |s.pc|
  {
    && (s.closing.Marked? || s.closing.Joining? || (Engaged(s.pc[w]) || s.pc[w].Underflow? ==> w in s.stat))
    && (w in s.stat && !s.closing.Marked? && !s.closing.Joining? ==>
          s.stat[w] == if Free(s.pc[w]) then EMPTY else ACTIVE)
  }

  ghost predicate StatusInv(s: State) {
    (forall w :: w in s.stat ==> w < |s.pc|) && forall w :: 0 <= w < |s.pc| ==> StatusFits(s, w)
  }

  lemma StatusStep(s: State, l: Label, w: nat)
    requires StatusInv(s) && Next(s, l).Some? && w < |Next(s, l).value.pc|
    ensures StatusFits(Next(s, l).value, w)
  {
    assert w < |s.pc| ==> StatusFits(s, w);
  }

  lemma StatusInvStep(s: State, l: Label)
    requires StatusInv(s) && Next(s, l).Some?
    ensures StatusInv(Next(s, l).value)
  {
    var t := Next(s, l).value;
    forall w | 0 <= w < |t.pc| ensures StatusFits(t, w) {
      StatusStep(s, l, w);
    }
  }

  /** Until the workers are marked DEAD, the entry of a registered worker is EMPTY exactly from its write of EMPTY
      until it has taken a task, and ACTIVE otherwise. */
  lemma StatusMeans(s: State, w: nat)
    requires Reachable(s) && w in s.stat && (s.closing.Open? || s.closing.StopWritten?)
    ensures w < |s.pc|
    ensures s.stat[w] == if Free(s.pc[w]) then EMPTY else ACTIVE
  {
    forall t, l | StatusInv(t) && Next(t, l).Some? ensures StatusInv(Next(t, l).value) {
      StatusInvStep(t, l);
    }
    ReachesKeeps(Next, StatusInv, INIT, s);
    assert StatusFits(s, w);
  }

  function ClosingWeight(s: State): nat {
    match s.closing
    case Open => |s.pc| + 3
    case StopWritten => |s.pc| + 2
    case Marked => |s.pc| + 1
    case Joining => 0
  }

  function Measure(s: State): nat {
    4 * |s.queue| + 2 * s.pending + Sum(Weight, s.pc) + ClosingWeight(s)
  }

  /** Internal steps and the steps of Shutdown. */
  predicate Winding(l: Label) {
    Internal(l) || l.WriteStop? || l.MarkDead? || l.NotifyAll?
  }

  lemma MeasureAcquireStep(s: State, w: nat)
    requires Inv(s) && Next(s, Acquire(w)).Some?
    ensures Measure(Next(s, Acquire(w)).value) < Measure(s)
  {
    var t := Next(s, Acquire(w)).value;
    SumUpdate(Weight, s.pc, w, t.pc[w]);
    assert t.pc == s.pc[w := t.pc[w]];
  }

  lemma MeasureWorkerStep(s: State, l: Label)
    requires Inv(s) && ByWorker(l) && !l.Spurious? && !l.Acquire? && Next(s, l).Some?
    ensures Measure(Next(s, l).value) < Measure(s)
  {
    var t := Next(s, l).value;
    SumUpdate(Weight, s.pc, l.w, t.pc[l.w]);
    assert t.pc == s.pc[l.w := t.pc[l.w]] && t.queue == s.queue;
  }

  lemma MeasureStep(s: State, l: Label)
    requires Inv(s) && Winding(l) && Next(s, l).Some?
    ensures Measure(Next(s, l).value) < Measure(s)
  {
    if l.NotifyAll? {
      SumWakeAll(s.pc);
    } else if l.NotifyOne? && l.woken.Some? {
      SumUpdate(Weight, s.pc, l.woken.value, Woken);
    } else if l.Acquire? {
      MeasureAcquireStep(s, l.w);
    } else if ByWorker(l) {
      MeasureWorkerStep(s, l);
    }
  }

  /** Without submissions and spurious wakeups every run is finite: at most Measure(s) steps are left. */
  lemma {:induction false} RunsAreFinite(s: State, ls: seq<Label>)
    requires Reachable(s) && forall l :: l in ls ==> Winding(l)
    ensures Run(Next, s, ls).Some? ==> |ls| <= Measure(s) - Measure(Run(Next, s, ls).value)
  {
    ReachableInv(s);
    forall t, l | Inv(t) && Winding(l) && Next(t, l).Some?
      ensures Inv(Next(t, l).value) && Measure(Next(t, l).value) < Measure(t)
    {
      InvStep(t, l);
      MeasureStep(t, l);
    }
    RunBounded(Next, Inv, Winding, Measure, s, ls);
  }

  ghost predicate Live(s: State, w: nat) {
    w < |s.pc| && w in s.stat && !s.pc[w].Exited?
  }

  /** The steps the program makes by itself, as a machine of their own. */
  function ByItself(s: State, l: Label): Option<State> {
    if Internal(l) then Next(s, l) else None
  }

  /** Every task submitted so far has been taken, in order, and finished. */
  ghost predicate Drained(s: State, t: State) {
    t.queue == [] && t.taken == s.submitted && forall i :: 0 <= i < |s.submitted| <==> i in t.finished
  }

  /** What the program keeps by itself before Shutdown; without a live worker the queue stays as it is. */
  ghost predicate Continues(s: State, t: State) {
    && Inv(t) && t.closing.Open? && t.submitted == s.submitted
    && (forall w :: Live(s, w) ==> Live(t, w))
    && ((forall w :: !Live(s, w)) ==> t.queue == s.queue && forall w :: !Live(t, w))
  }

  lemma ContinuesStep(s: State, t: State, l: Label)
    requires Continues(s, t) && ByItself(t, l).Some?
    ensures Continues(s, ByItself(t, l).value)
  {
    var u := ByItself(t, l).value;
    InvStep(t, l);
    assert ByWorker(l) ==> WorkerInv(t, l.w);
    forall w: nat ensures Live(t, w) ==> Live(u, w) {
      assert w < |t.pc| ==> WorkerInv(t, w);
    }
    if forall w :: !Live(s, w) {
      assert ByWorker(l) ==> !Live(t, l.w);
      forall w: nat ensures !Live(u, w) {
        assert !Live(t, w);
      }
    }
  }

  lemma ContinuesKept(s: State, t: State)
    requires Inv(s) && s.closing.Open? && Reaches(ByItself, s, t)
    ensures Continues(s, t)
  {
    var inv := (t: State) => Continues(s, t);
    forall t, l | inv(t) && ByItself(t, l).Some? ensures inv(ByItself(t, l).value) {
      ContinuesStep(s, t, l);
    }
    ReachesKeeps(ByItself, inv, s, t);
  }

  /** The program left to itself comes to rest. */
  lemma {:induction false} ComesToRest(s: State, t: State) returns (end: State)
    requires Inv(t) && Reaches(ByItself, s, t)
    ensures Reaches(ByItself, s, end) && Quiet(end)
    decreases Measure(t)
  {
    if l :| Internal(l) && Next(t, l).Some? {
      InvStep(t, l);
      MeasureStep(t, l);
      var u := ReachesStep(ByItself, s, t, l);
      end := ComesToRest(s, u);
    } else {
      end := t;
    }
  }

  lemma RestIsDrained(s: State, t: State)
    requires Continues(s, t) && Quiet(t)
    requires t.queue == [] || exists w :: Live(t, w)
    ensures Drained(s, t)
  {
    QuietMeans(t);
    if w :| Live(t, w) {
      assert WorkerInv(t, w);
      assert SomeSleeper(t);
      SumZero(Heading, t.pc);
    }
    assert t.taken + t.queue == t.taken;
  }

  /** Draining: from any state before Shutdown, wherever the program left to itself comes to rest (which it
      does, see RunsAreFinite), every task submitted has been taken, in order, and finished, exactly if
      nothing is queued or some registered worker is alive. */
  lemma DrainsIff(s: State)
    requires Reachable(s) && s.closing.Open?
    ensures (forall t :: Reaches(ByItself, s, t) && Quiet(t) ==> Drained(s, t))
            <==> s.queue == [] || exists w :: Live(s, w)
  {
    ReachableInv(s);
    if s.queue == [] || exists w :: Live(s, w) {
      forall t | Reaches(ByItself, s, t) && Quiet(t) ensures Drained(s, t) {
        ContinuesKept(s, t);
        if w :| Live(s, w) {
          assert Live(t, w);
        }
        RestIsDrained(s, t);
      }
    } else {
      ReachesSelf(ByItself, s);
      var t := ComesToRest(s, s);
      ContinuesKept(s, t);
    }
  }

  /** Init starts a thread before it registers it.  A worker that looks itself up in between exits at
      once, and a pool of such workers strands the task pushed next. */
  lemma UnregisteredWorkerStrands(task: Task) returns (s: State)
    ensures Reachable(s) && s.closing.Open? && Quiet(s) && s.queue == [task] && 0 in s.stat
  {
    s := INIT;
    ReachesSelf(Next, s);
    s := ReachesStep(Next, INIT, s, Start);
    s := ReachesStep(Next, INIT, s, Lookup(0));
    s := ReachesStep(Next, INIT, s, Register(0));
    s := ReachesStep(Next, INIT, s, Push(task));
    s := ReachesStep(Next, INIT, s, NotifyOne(None));
  }

  // ---------------------------------------------------------------- after Shutdown has begun

  ghost predicate HasUnderflow(s: State) {
    exists w :: 0 <= w < |s.pc| && s.pc[w].Underflow?
  }

  ghost predicate CanUnderflow(s: State) {
    exists t :: Reaches(Next, s, t) && HasUnderflow(t)
  }

  /** A live worker that is not marked DEAD, or is about to overwrite the mark with EMPTY. */
  ghost predicate Exposed(s: State, w: nat) {
    && Live(s, w) && !s.pc[w].Underflow?
    && (s.closing.StopWritten? || s.stat[w] != DEAD || s.pc[w].Marking?)
  }

  ghost predicate Safe(s: State) {
    Inv(s) && !s.closing.Open? && !HasUnderflow(s) && forall w :: !Exposed(s, w)
  }

  lemma SafeStep(s: State, l: Label)
    requires Safe(s) && Next(s, l).Some?
    ensures
      var t := Next(s, l).value;
      Safe(t) && t.taken == s.taken && forall w :: w in s.stat && s.stat[w] == DEAD ==> w in t.stat && t.stat[w] == DEAD
  {
    var t := Next(s, l).value;
    InvStep(s, l);
    if ByWorker(l) {
      assert WorkerInv(s, l.w) && !Exposed(s, l.w);
    }
    forall w | 0 <= w < |t.pc| ensures !t.pc[w].Underflow? && !Exposed(t, w) {
      assert WorkerInv(s, w) && !Exposed(s, w);
    }
  }

  /** After the stop flag is written the workers stay the same, and those that have exited stay so. */
  lemma ClosedStep(s: State, l: Label)
    requires !s.closing.Open? && Next(s, l).Some?
    ensures
      var t := Next(s, l).value;
      && |t.pc| == |s.pc| && (forall w :: 0 <= w < |s.pc| && s.pc[w].Exited? ==> t.pc[w].Exited?)
      && (!l.MarkDead? && !l.NotifyAll? ==> t.closing == s.closing)
  {
  }

  /** How many steps an exposed worker needs at most to empty the queue and take once more. */
  function Distance(s: State, w: nat): nat
    requires w < |s.pc|
  {
    6 * |s.queue| +
    match s.pc[w]
    case Looking => 5
    case Testing => 4
    case Marking => 3
    case Sleeping => 2
    case Running(_) => 5
    case _ => 1
  }

  /** The next step of an exposed worker on its way to the underflow. */
  function Onward(s: State, w: nat): Label
    requires w < |s.pc|
  {
    match s.pc[w]
    case Looking => Lookup(w)
    case Testing => Test(w)
    case Marking => MarkEmpty(w)
    case Sleeping => Spurious(w)
    case Running(_) => Finish(w)
    case _ => Acquire(w)
  }

  lemma ExposedStep(s: State, w: nat)
    requires Inv(s) && !s.closing.Open? && Exposed(s, w)
    ensures Next(s, Onward(s, w)).Some?
    ensures
      var t := Next(s, Onward(s, w)).value;
      Inv(t) && !t.closing.Open? && (HasUnderflow(t) || (Exposed(t, w) && Distance(t, w) < Distance(s, w)))
  {
    assert WorkerInv(s, w);
    var l := Onward(s, w);
    InvStep(s, l);
    var t := Next(s, l).value;
    assert l.Acquire? && s.queue == [] ==> t.pc[w].Underflow?;
  }

  lemma {:induction false} ExposedUnderflows(origin: State, s: State, w: nat)
    requires Inv(s) && !s.closing.Open? && Exposed(s, w) && Reaches(Next, origin, s)
    ensures CanUnderflow(origin)
    decreases Distance(s, w)
  {
    ExposedStep(s, w);
    var t := ReachesStep(Next, origin, s, Onward(s, w));
    if !HasUnderflow(t) {
      ExposedUnderflows(origin, t, w);
    }
  }

  lemma SafeKept(s: State, r: State)
    requires Safe(s) && Reaches(Next, s, r)
    ensures Safe(r) && r.taken == s.taken
    ensures forall w :: w in s.stat && s.stat[w] == DEAD ==> w in r.stat && r.stat[w] == DEAD
  {
    var inv := (t: State) =>
      && Safe(t) && t.taken == s.taken
      && forall w :: w in s.stat && s.stat[w] == DEAD ==> w in t.stat && t.stat[w] == DEAD;
    forall t, l | inv(t) && Next(t, l).Some? ensures inv(Next(t, l).value) {
      SafeStep(t, l);
    }
    ReachesKeeps(Next, inv, s, r);
  }

  /** Once the stop flag is written, some continuation takes the front of an empty queue exactly if some
      worker is exposed (or it has happened already). */
  lemma UnderflowIff(s: State)
    requires Reachable(s) && !s.closing.Open?
    ensures CanUnderflow(s) <==> HasUnderflow(s) || exists w :: Exposed(s, w)
  {
    ReachableInv(s);
    ReachesSelf(Next, s);
    if HasUnderflow(s) {
    } else if w :| Exposed(s, w) {
      ExposedUnderflows(s, s, w);
    } else {
      forall t | Reaches(Next, s, t) ensures !HasUnderflow(t) {
        SafeKept(s, t);
      }
    }
  }

  /** Since the marking in `m` only what was submitted since then was taken or is queued, in order. */
  ghost predicate OnlyNew(m: State, t: State) {
    && (t.closing.Marked? || t.closing.Joining?)
    && m.taken <= t.taken && m.submitted <= t.submitted
    && t.taken[|m.taken|..] + t.queue == t.submitted[|m.submitted|..]
  }

  lemma OnlyNewStep(m: State, s: State, l: Label)
    requires OnlyNew(m, s) && Next(s, l).Some?
    ensures OnlyNew(m, Next(s, l).value)
  {
    var t := Next(s, l).value;
    if l.Push? {
      assert t.submitted[|m.submitted|..] == s.submitted[|m.submitted|..] + [l.t];
    } else if l.Acquire? && |t.taken| > |s.taken| {
      assert t.taken[|m.taken|..] == s.taken[|m.taken|..] + [s.queue[0]];
      assert t.taken[|m.taken|..] + t.queue == s.taken[|m.taken|..] + ([s.queue[0]] + s.queue[1..]);
    }
  }

  /** Shutdown discards exactly what is queued when it marks the workers: in every continuation, the tasks taken
      or queued since then are those submitted since then, so that no task queued at that moment is ever
      taken. */
  lemma DiscardedForGood(s: State, t: State)
    requires Reachable(s) && s.closing.StopWritten? && Reaches(Next, Next(s, MarkDead).value, t)
    ensures s.taken <= t.taken && s.submitted <= t.submitted
    ensures t.taken[|s.taken|..] + t.queue == t.submitted[|s.submitted|..]
    ensures t.submitted == s.taken + s.queue + (t.taken[|s.taken|..] + t.queue)
  {
    TaskConservation(s);
    var m := Next(s, MarkDead).value;
    var inv := (u: State) => OnlyNew(m, u);
    forall u, l | inv(u) && Next(u, l).Some? ensures inv(Next(u, l).value) {
      OnlyNewStep(m, u, l);
    }
    ReachesKeeps(Next, inv, m, t);
    assert t.submitted == t.submitted[..|s.submitted|] + t.submitted[|s.submitted|..];
  }

  /** Marking the workers DEAD makes the pool safe exactly if no worker stands between its test for
      ACTIVE and its unprotected write of EMPTY. */
  lemma MarkingSafeIff(s: State)
    requires Reachable(s) && s.closing.StopWritten? && !HasUnderflow(s)
    ensures Safe(Next(s, MarkDead).value) <==> forall w :: 0 <= w < |s.pc| ==> !s.pc[w].Marking?
  {
    ReachableInv(s);
    InvStep(s, MarkDead);
    var t := Next(s, MarkDead).value;
    if w :| 0 <= w < |s.pc| && s.pc[w].Marking? {
      assert WorkerInv(s, w);
      assert Exposed(t, w);
    } else {
      assert forall w :: Live(t, w) ==> Live(s, w);
    }
  }

  /** From a safe state no further task is taken, no DEAD entry changes, nothing underflows, the run is
      finite, and where it ends every worker has exited, so that every join returns. */
  lemma {:induction false} ShutdownQuiescence(s: State, ls: seq<Label>, t: State)
    requires Reachable(s) && Safe(s) && Run(Next, s, ls) == Some(t)
    ensures t.taken == s.taken && !HasUnderflow(t)
    ensures forall w :: w in s.stat && s.stat[w] == DEAD ==> w in t.stat && t.stat[w] == DEAD
    ensures (forall l :: l in ls ==> Winding(l)) ==> |ls| <= Measure(s)
    ensures Quiet(t) && t.closing.Joining? ==> forall w :: 0 <= w < |t.pc| ==> t.pc[w].Exited?
  {
    SafeKept(s, t);
    if forall l :: l in ls ==> Winding(l) {
      RunsAreFinite(s, ls);
    }
    if Quiet(t) && t.closing.Joining? {
      QuietMeans(t);
    }
  }

  /** Any pool with a live worker can underflow when Shutdown is called, because the stop flag is written
      before the workers are marked. */
  lemma ShutdownCanUnderflow(s: State, w: nat)
    requires Reachable(s) && s.closing.Open? && Live(s, w)
    ensures CanUnderflow(Next(s, WriteStop).value)
  {
    ReachableInv(s);
    InvStep(s, WriteStop);
    assert WorkerInv(s, w);
    var t := Next(s, WriteStop).value;
    ReachesSelf(Next, t);
    ExposedUnderflows(t, t, w);
  }
}
