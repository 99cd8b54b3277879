/** The thread pool object.  `tasks`, `workerStat` and `stop` are its fields; the remaining fields stand
    for the threads around it (where each one is) and for the history.  A method is one mutex section or
    one unprotected access, and performs exactly one step of the queue protocol; the constructor,
    Shutdown and WorkerThread are the code's own control flow over those steps. */
module ThreadPools {
  import opened Runs
  import opened PoolProtocol
  import opened PoolTheorems

  datatype Outcome = Slept | Left | Took(task: Task) | TookNothing

  /** From s to t what was taken and finished stays so, and of what was taken since, worker w has taken only
      what it is running. */
  ghost predicate Grows(w: nat, s: State, t: State) {
    && w < |t.pc| && s.taken <= t.taken && s.finished <= t.finished && s.takers <= t.takers
    && forall i :: |s.takers| <= i < |t.takers| && t.takers[i] == w ==> t.pc[w] == Running(i)
  }

  /** The step is one that worker w makes itself. */
  predicate Mine(l: Label, w: nat) {
    ByWorker(l) && !l.Spurious? && l.w == w
  }

  lemma OthersGrow(s: State, l: Label, w: nat)
    requires w < |s.pc| && Next(s, l).Some? && !Mine(l, w)
    ensures
      var t := Next(s, l).value;
      Grows(w, s, t) && (t.pc[w] == s.pc[w] || (s.pc[w].Sleeping? && t.pc[w].Woken?))
  {
  }

  /** What the threads other than worker w do that perform the given steps, as far as they are possible. */
  function OthersDo(w: nat, s: State, ls: seq<Label>): State {
    if ls == [] then s
    else
      var n := |ls| - 1;
      var t := OthersDo(w, s, ls[..n]);
      if Next(t, ls[n]).Some? && !Mine(ls[n], w) then Next(t, ls[n]).value else t
  }

  /** And what all threads do but the one in Shutdown. */
  function MeanwhileDo(s: State, ls: seq<Label>): State {
    if ls == [] then s
    else
      var n := |ls| - 1;
      var t := MeanwhileDo(s, ls[..n]);
      if !ByShutdown(ls[n]) && Next(t, ls[n]).Some? then Next(t, ls[n]).value else t
  }

  /** A step of Shutdown. */
  predicate ByShutdown(l: Label) {
    l.WriteStop? || l.MarkDead? || l.NotifyAll?
  }

  /** What worker w has taken after the first `start` tasks, in the order of taking: finished, except what it
      is running. */
  ghost predicate Performed(s: State, w: nat, performed: seq<nat>, start: nat) {
    && w < |s.pc|
    && (forall k :: 0 <= k < |performed| ==>
          start <= performed[k] < |s.takers| && s.takers[performed[k]] == w && performed[k] in s.finished)
    && (forall j, k :: 0 <= j < k < |performed| ==> performed[j] < performed[k])
    && forall i :: start <= i < |s.takers| && s.takers[i] == w ==> i in performed || s.pc[w] == Running(i)
  }

  lemma PerformedOn(s: State, t: State, w: nat, performed: seq<nat>, start: nat)
    requires Performed(s, w, performed, start) && !s.pc[w].Running? && Grows(w, s, t)
    ensures Performed(t, w, performed, start)
  {
    forall i | start <= i < |t.takers| && t.takers[i] == w ensures i in performed || t.pc[w] == Running(i) {
      assert i < |s.takers| ==> s.takers[i] == w;
    }
  }

  /** While it runs a task it takes nothing else. */
  lemma PerformedStill(s: State, t: State, w: nat, performed: seq<nat>, start: nat)
    requires Performed(s, w, performed, start) && s.pc[w].Running? && s.pc[w].index < |s.takers|
    requires Grows(w, s, t) && t.pc[w] == s.pc[w]
    ensures Performed(t, w, performed, start)
  {
    forall i | start <= i < |t.takers| && t.takers[i] == w ensures i in performed || t.pc[w] == Running(i) {
      assert i < |s.takers| ==> s.takers[i] == w;
    }
  }

  lemma PerformedMore(s: State, w: nat, performed: seq<nat>, start: nat)
    requires Inv(s) && w < |s.pc| && s.pc[w].Running? && Performed(s, w, performed, start)
    requires start <= s.pc[w].index && forall k :: 0 <= k < |performed| ==> performed[k] < s.pc[w].index
    ensures Performed(Next(s, Finish(w)).value, w, performed + [s.pc[w].index], start)
  {
    assert TakerInv(s, w);
    var t, all := Next(s, Finish(w)).value, performed + [s.pc[w].index];
    assert all[|performed|] == s.pc[w].index;
    forall i | start <= i < |t.takers| && t.takers[i] == w ensures i in all {
      assert i in performed || i == s.pc[w].index;
    }
  }

  /** The tasks taken and those queued are `all` in order, and all taken after the first `start` are performed. */
  ghost predicate InTurn(taken: seq<Task>, queue: seq<Task>, all: seq<Task>, start: nat, performed: seq<nat>) {
    taken + queue == all && forall i :: start <= i < |taken| ==> i in performed
  }

  lemma InTurnMore(taken: seq<Task>, queue: seq<Task>, all: seq<Task>, start: nat, performed: seq<nat>)
    requires InTurn(taken, queue, all, start, performed) && queue != []
    ensures InTurn(taken + [queue[0]], queue[1..], all, start, performed + [|taken|])
  {
    var more := performed + [|taken|];
    assert more[|performed|] == |taken|;
    assert taken + [queue[0]] + queue[1..] == taken + queue;
    forall i | start <= i < |taken| + 1 ensures i in more {
      assert i < |taken| ==> i in performed;
    }
  }

  class ThreadPool {
    var tasks: seq<Task>
    var workerStat: map<nat, Stat>
    var stop: bool

    var pc: seq<Phase>
    var pending: nat
    var closing: Closing
    var submitted: seq<Task>
    var taken: seq<Task>
    var takers: seq<nat>
    var finished: set<nat>

    function Abs(): State
      reads this
    {
      State(tasks, workerStat, pc, pending, closing, submitted, taken, takers, finished)
    }

    ghost predicate Valid()
      reads this
    {
      stop == !closing.Open? && Reachable(Abs())
    }

    constructor (minCoreThread: nat, racing: set<nat>)
      ensures Valid() && !stop && tasks == []
      ensures Started(minCoreThread, racing)
    {
      tasks, workerStat, stop := [], map[], false;
      pc, pending, closing, submitted, taken, takers, finished := [], 0, Open, [], [], [], {};
      new;
      ReachesSelf(Next, PoolProtocol.INIT);
      Init(minCoreThread, racing);
    }

    /** Workers 0 to n - 1 are registered; those in `racing` have exited, the others are about to look
        themselves up. */
    ghost predicate Started(n: nat, racing: set<nat>)
      reads this
    {
      && |pc| == n
      && (forall w :: 0 <= w < n <==> w in workerStat)
      && (forall w :: 0 <= w < n ==> workerStat[w] == ACTIVE && pc[w] == if w in racing then Exited else Looking)
    }

    /** Start each thread, then register it.  The workers in `racing` look themselves up in between. */
    method Init(minCoreThread: nat, racing: set<nat>)
      requires Valid() && !stop && Started(0, racing)
      modifies this
      ensures Valid() && !stop && tasks == old(tasks)
      ensures Started(minCoreThread, racing)
    {
      for i := 0 to minCoreThread
        invariant Valid() && !stop && tasks == old(tasks) && Started(i, racing)
      {
        StartAndRegister(i, i in racing);
      }
    }

    method StartAndRegister(w: nat, races: bool)
      requires Valid() && !stop && w == |pc| && w !in workerStat
      modifies this
      ensures Valid() && !stop && tasks == old(tasks)
      ensures workerStat == old(workerStat)[w := ACTIVE]
      ensures pc == old(pc) + [if races then Exited else Looking]
    {
      StartWorker();
      if races {
        var found := Lookup(w);
      }
      RegisterWorker(w);
    }

    ghost method Advance(before: State, l: Label)
      requires Reachable(before) && Next(before, l) == Some(Abs())
      ensures Reachable(Abs())
    {
      var after := ReachesStep(Next, PoolProtocol.INIT, before, l);
    }

    method StartWorker()
      requires Valid() && !stop
      modifies this
      ensures Valid() && Next(old(Abs()), Start) == Some(Abs())
    {
      pc := pc + [Looking];
      Advance(old(Abs()), Start);
    }

    method RegisterWorker(w: nat)
      requires Valid() && !stop && w < |pc| && w !in workerStat
      modifies this
      ensures Valid() && Next(old(Abs()), Register(w)) == Some(Abs())
    {
      workerStat := workerStat[w := ACTIVE];
      Advance(old(Abs()), Register(w));
    }

    /** The mutex section of EnqueueTask. */
    method PushTask(t: Task)
      requires Valid()
      modifies this
      ensures Valid() && Next(old(Abs()), Push(t)) == Some(Abs())
    {
      tasks := tasks + [t];
      pending, submitted := pending + 1, submitted + [t];
      Advance(old(Abs()), Push(t));
    }

    /** notify_one at the end of EnqueueTask: some sleeper, if there is one, is woken. */
    method Notify(woken: Option<nat>)
      requires Valid() && Next(Abs(), NotifyOne(woken)).Some?
      modifies this
      ensures Valid() && Next(old(Abs()), NotifyOne(woken)) == Some(Abs())
    {
      if woken.Some? {
        pc := pc[woken.value := Woken];
      }
      pending := pending - 1;
      Advance(old(Abs()), NotifyOne(woken));
    }

    method WakeSpuriously(w: nat)
      requires Valid() && At(Abs(), w, Sleeping)
      modifies this
      ensures Valid() && Next(old(Abs()), Spurious(w)) == Some(Abs())
    {
      pc := pc[w := Woken];
      Advance(old(Abs()), Spurious(w));
    }

    method Lookup(w: nat) returns (found: bool)
      requires Valid() && At(Abs(), w, Looking)
      modifies this
      ensures Valid() && Next(old(Abs()), PoolProtocol.Lookup(w)) == Some(Abs())
      ensures found == (w in workerStat)
    {
      found := w in workerStat;
      pc := pc[w := if found then Testing else Exited];
      Advance(old(Abs()), PoolProtocol.Lookup(w));
    }

    method TestActive(w: nat) returns (active: bool)
      requires Valid() && At(Abs(), w, Testing)
      modifies this
      ensures Valid() && Next(old(Abs()), Test(w)) == Some(Abs())
      ensures if active then At(Abs(), w, Marking) else At(Abs(), w, Exited)
    {
      ReachableInv(Abs());
      assert WorkerInv(Abs(), w);
      active := workerStat[w] == ACTIVE;
      pc := pc[w := if active then Marking else Exited];
      Advance(old(Abs()), Test(w));
    }

    method WriteEmpty(w: nat)
      requires Valid() && At(Abs(), w, Marking)
      modifies this
      ensures Valid() && Next(old(Abs()), MarkEmpty(w)) == Some(Abs())
    {
      workerStat := workerStat[w := EMPTY];
      pc := pc[w := Entering];
      Advance(old(Abs()), MarkEmpty(w));
    }

    /** The mutex section of WorkerThread, up to the point where it sleeps, leaves or holds a task. */
    method AcquireAndTake(w: nat) returns (outcome: Outcome)
      requires Valid() && w < |pc| && (pc[w].Entering? || pc[w].Woken?)
      modifies this
      ensures Valid() && Next(old(Abs()), Acquire(w)) == Some(Abs())
      ensures |pc| == old(|pc|)
      ensures match outcome
              case Slept => At(Abs(), w, Sleeping)
              case Left => At(Abs(), w, Exited)
              case TookNothing => At(Abs(), w, Underflow)
              case Took(task) => At(Abs(), w, Running(old(|taken|))) && old(tasks) == [task] + tasks
    {
      ReachableInv(Abs());
      assert WorkerInv(Abs(), w);
      if !(stop || tasks != []) {
        outcome, pc := Slept, pc[w := Sleeping];
      } else if workerStat[w] == DEAD {
        outcome, pc := Left, pc[w := Exited];
      } else if tasks == [] {
        outcome, pc := TookNothing, pc[w := Underflow];
      } else {
        outcome, pc := Took(tasks[0]), pc[w := Running(|taken|)];
        taken, takers, tasks := taken + [tasks[0]], takers + [w], tasks[1..];
        workerStat := workerStat[w := ACTIVE];
      }
      Advance(old(Abs()), Acquire(w));
    }

    /** task() returns. */
    method FinishTask(w: nat)
      requires Valid() && w < |pc| && pc[w].Running?
      modifies this
      ensures Valid() && Next(old(Abs()), Finish(w)) == Some(Abs())
      ensures pc[w].Testing? && stop == old(stop) && finished == old(finished) + {old(pc[w]).index}
    {
      finished := finished + {pc[w].index};
      pc := pc[w := Testing];
      Advance(old(Abs()), Finish(w));
    }

    method SetStop()
      requires Valid() && !stop
      modifies this
      ensures Valid() && Next(old(Abs()), WriteStop) == Some(Abs())
    {
      stop := true;
      closing := StopWritten;
      Advance(old(Abs()), WriteStop);
    }

    /** The mutex section of Shutdown: drop the queue and mark every registered worker. */
    method MarkAllDead()
      requires Valid() && closing.StopWritten?
      modifies this
      ensures Valid() && Next(old(Abs()), MarkDead) == Some(Abs())
      ensures tasks == [] && taken == old(taken) && submitted == old(submitted)
      ensures workerStat.Keys == old(workerStat.Keys) && forall w :: w in workerStat ==> workerStat[w] == DEAD
    {
      tasks := [];
      var rest := workerStat.Keys;
      while rest != {}
        invariant rest <= workerStat.Keys == old(workerStat.Keys)
        invariant forall w :: w in workerStat && w !in rest ==> workerStat[w] == DEAD
        invariant Abs() == old(Abs()).(queue := [], stat := workerStat) && stop == old(stop)
        decreases rest
      {
        var w :| w in rest;
        workerStat := workerStat[w := DEAD];
        rest := rest - {w};
      }
      closing := Marked;
      assert workerStat == AllDead(old(workerStat));
      Advance(old(Abs()), MarkDead);
    }

    method WakeEveryone()
      requires Valid() && closing.Marked?
      modifies this
      ensures Valid() && Next(old(Abs()), NotifyAll) == Some(Abs())
    {
      pc := WakeAll(pc);
      closing := Joining;
      Advance(old(Abs()), NotifyAll);
    }

    /** Any step of any thread. */
    method Perform(l: Label)
      requires Valid() && Next(Abs(), l).Some?
      modifies this
      ensures Valid() && Next(old(Abs()), l) == Some(Abs())
    {
      match l
      case Start => StartWorker();
      case Register(w) => RegisterWorker(w);
      case Push(t) => PushTask(t);
      case NotifyOne(woken) => Notify(woken);
      case Spurious(w) => WakeSpuriously(w);
      case Lookup(w) => var found := Lookup(w);
      case Test(w) => var active := TestActive(w);
      case MarkEmpty(w) => WriteEmpty(w);
      case Acquire(w) => var outcome := AcquireAndTake(w);
      case Finish(w) => FinishTask(w);
      case WriteStop => SetStop();
      case MarkDead => MarkAllDead();
      case NotifyAll => WakeEveryone();
    }

    ghost predicate Grown(w: nat, before: State)
      reads this
    {
      Grows(w, before, Abs())
    }

    /** Another thread performs the step, unless it is impossible or one of worker w. */
    method OtherThread(w: nat, l: Label)
      requires Valid() && w < |pc|
      modifies this
      ensures Valid() && w < |pc| && Grown(w, old(Abs()))
      ensures pc[w] == old(pc[w]) || (old(pc[w]).Sleeping? && pc[w].Woken?)
      ensures Abs() == if Next(old(Abs()), l).Some? && !Mine(l, w) then Next(old(Abs()), l).value else old(Abs())
    {
      if Next(Abs(), l).Some? && !Mine(l, w) {
        OthersGrow(Abs(), l, w);
        Perform(l);
      }
    }

    /** A point where worker w can be interrupted: the other threads perform the next slice of the
        schedule. */
    method Yield(w: nat, schedule: seq<seq<Label>>, used: nat)
      requires Valid() && w < |pc| && used < |schedule|
      modifies this
      ensures Valid() && w < |pc| && Grown(w, old(Abs()))
      ensures pc[w] == old(pc[w]) || (old(pc[w]).Sleeping? && pc[w].Woken?)
      ensures schedule[used] == [] ==> Abs() == old(Abs()) && stop == old(stop)
      ensures Abs() == OthersDo(w, old(Abs()), schedule[used])
    {
      for i := 0 to |schedule[used]|
        invariant Valid() && w < |pc| && (i == 0 ==> Abs() == old(Abs()) && stop == old(stop))
        invariant Abs() == OthersDo(w, old(Abs()), schedule[used][..i])
        invariant Grown(w, old(Abs()))
        invariant pc[w] == old(pc[w]) || (old(pc[w]).Sleeping? && pc[w].Woken?)
      {
        assert schedule[used][..i + 1][..i] == schedule[used][..i];
        OtherThread(w, schedule[used][i]);
      }
      assert schedule[used][..|schedule[used]|] == schedule[used];
    }

    /** No other thread runs at all, and Shutdown has not been called. */
    ghost predicate Alone(schedule: seq<seq<Label>>)
      reads this
    {
      !stop && forall k :: 0 <= k < |schedule| ==> schedule[k] == []
    }

    /** The loop test and the unprotected write of EMPTY.  Not live: the thread has returned. */
    method TestAndMark(w: nat, schedule: seq<seq<Label>>, before: nat) returns (live: bool, used: nat)
      requires Valid() && At(Abs(), w, Testing) && before < |schedule|
      modifies this
      ensures Valid() && w < |pc| && before < used <= |schedule| && Grown(w, old(Abs()))
      ensures if live then pc[w].Entering? || used == |schedule| else pc[w].Exited?
      ensures old(Alone(schedule)) ==>
                && live && used == (if before + 1 < |schedule| then before + 2 else before + 1)
                && tasks == old(tasks) && taken == old(taken) && finished == old(finished) && !stop
    {
      Yield(w, schedule, before);
      used := before + 1;
      live := TestSelf(w);
      if live && used < |schedule| {
        Yield(w, schedule, used);
        used := used + 1;
        MarkSelf(w);
      }
    }

    method TestSelf(w: nat) returns (active: bool)
      requires Valid() && At(Abs(), w, Testing)
      modifies this
      ensures Valid() && w < |pc| && if active then pc[w].Marking? else pc[w].Exited?
      ensures !stop ==> active
      ensures tasks == old(tasks) && taken == old(taken) && takers == old(takers)
      ensures finished == old(finished) && stop == old(stop)
    {
      ReachableInv(Abs());
      assert WorkerInv(Abs(), w);
      active := TestActive(w);
    }

    method MarkSelf(w: nat)
      requires Valid() && At(Abs(), w, Marking)
      modifies this
      ensures Valid() && w < |pc| && pc[w].Entering?
      ensures tasks == old(tasks) && taken == old(taken) && takers == old(takers)
      ensures finished == old(finished) && stop == old(stop)
    {
      WriteEmpty(w);
    }

    /** The mutex section once worker w has the mutex. */
    method TryTake(w: nat) returns (outcome: Outcome)
      requires Valid() && w < |pc| && (pc[w].Entering? || pc[w].Woken?)
      modifies this
      ensures Valid() && w < |pc| && Grown(w, old(Abs())) && stop == old(stop) && finished == old(finished)
      ensures Holds(w, outcome, |old(takers)|)
      ensures !stop && old(tasks) == [] ==> outcome.Slept? && tasks == [] && taken == old(taken)
      ensures !stop && old(tasks) != [] ==>
                && outcome.Took? && At(Abs(), w, Running(|old(taken)|))
                && taken == old(taken) + [old(tasks)[0]] && tasks == old(tasks)[1..]
    {
      ReachableInv(Abs());
      assert WorkerInv(Abs(), w);
      outcome := AcquireAndTake(w);
    }

    /** Where worker w stands after its last try; a task it holds is not among the first `start` taken. */
    predicate Holds(w: nat, outcome: Outcome, start: nat)
      reads this
    {
      && w < |pc|
      && match outcome
         case Slept => pc[w].Sleeping?
         case Left => pc[w].Exited?
         case TookNothing => pc[w].Underflow?
         case Took(_) => pc[w].Running? && start <= pc[w].index < |takers|
    }

    /** cv.wait and the rest of the mutex section.  Not live: the thread has returned. */
    method WaitAndTake(w: nat, schedule: seq<seq<Label>>, before: nat) returns (live: bool, used: nat)
      requires Valid() && At(Abs(), w, Entering) && before < |schedule|
      modifies this
      ensures Valid() && w < |pc| && before < used <= |schedule| && Grown(w, old(Abs()))
      ensures if live then pc[w].Running? || used == |schedule| else pc[w].Exited? || pc[w].Underflow?
      ensures pc[w].Running? ==> |old(takers)| <= pc[w].index < |takers|
      ensures old(Alone(schedule)) && old(tasks) != [] ==>
                && live && used == before + 1 && !stop && finished == old(finished)
                && At(Abs(), w, Running(|old(taken)|))
                && taken == old(taken) + [old(tasks)[0]] && tasks == old(tasks)[1..]
      ensures old(Alone(schedule)) && old(tasks) == [] ==>
                && live && used == |schedule| && !stop
                && tasks == [] && taken == old(taken) && finished == old(finished)
    {
      Yield(w, schedule, before);
      used := before + 1;
      var outcome := TryTake(w);
      if outcome.Slept? {
        outcome, used := Wait(w, schedule, used, |old(takers)|);
      }
      live := outcome.Slept? || outcome.Took?;
    }

    /** The loop in cv.wait: every wakeup tries again. */
    method Wait(w: nat, schedule: seq<seq<Label>>, before: nat, ghost start: nat) returns (outcome: Outcome, used: nat)
      requires Valid() && At(Abs(), w, Sleeping) && before <= |schedule| && start <= |takers|
      modifies this
      ensures Valid() && w < |pc| && before <= used <= |schedule| && Grown(w, old(Abs()))
      ensures Holds(w, outcome, start) && (outcome.Slept? ==> used == |schedule|)
      ensures old(Alone(schedule)) ==> outcome.Slept? && Abs() == old(Abs()) && !stop
    {
      outcome, used := Slept, before;
      while outcome.Slept? && used < |schedule|
        invariant Valid() && w < |pc| && before <= used <= |schedule|
        invariant Grown(w, old(Abs())) && Holds(w, outcome, start)
        invariant old(Alone(schedule)) ==> outcome.Slept? && Abs() == old(Abs()) && !stop
        decreases |schedule| - used
      {
        Yield(w, schedule, used);
        used := used + 1;
        if pc[w].Woken? {
          outcome := TryTake(w);
        }
      }
    }

    /** The lookup at the start of the thread. */
    method LookUpSelf(w: nat) returns (found: bool)
      requires Valid() && At(Abs(), w, Looking)
      modifies this
      ensures Valid() && w < |pc| && found == (w in old(workerStat))
      ensures if found then pc[w].Testing? else pc[w].Exited?
      ensures tasks == old(tasks) && taken == old(taken) && takers == old(takers)
      ensures finished == old(finished) && stop == old(stop)
    {
      found := Lookup(w);
    }

    /** A worker thread, with the other threads running between its steps as the schedule says.  If it
        returns before the schedule is used up, the worker has exited or underflowed.  The tasks it performs
        are exactly those it takes during the call, in order and none twice, except one it may be in the
        middle of; they are finished.  A registered worker that is left alone for four slices a task performs
        all queued tasks in order. */
    method WorkerThread(w: nat, schedule: seq<seq<Label>>) returns (used: nat, performed: seq<nat>)
      requires Valid() && At(Abs(), w, Looking)
      modifies this
      ensures Valid() && w < |pc| && used <= |schedule| && old(takers) <= takers
      ensures used < |schedule| ==> pc[w].Exited? || pc[w].Underflow?
      ensures Performed(Abs(), w, performed, |old(takers)|)
      ensures old(Alone(schedule)) && w in old(workerStat) && |schedule| >= 4 * |old(tasks)| ==>
                && tasks == [] && taken == old(taken) + old(tasks)
                && forall i :: |old(taken)| <= i < |taken| ==> i in performed
    {
      ghost var alone := Alone(schedule) && w in workerStat && |schedule| >= 4 * |tasks|;
      used, performed := 0, [];
      var live := LookUpSelf(w);
      while live && used < |schedule|
        invariant Valid() && used <= |schedule| && w < |pc|
        invariant old(takers) <= takers && Performed(Abs(), w, performed, |old(takers)|)
        invariant used < |schedule| ==> if live then pc[w].Testing? else pc[w].Exited? || pc[w].Underflow?
        invariant alone ==> live && Alone(schedule) && 4 * |tasks| <= |schedule| - used
        invariant alone ==> InTurn(taken, tasks, old(taken) + old(tasks), |old(taken)|, performed)
        decreases |schedule| - used, live
      {
        if alone && tasks != [] {
          InTurnMore(taken, tasks, old(taken) + old(tasks), |old(taken)|, performed);
        }
        live, used, performed := OneRound(w, schedule, used, performed, |old(takers)|);
      }
    }

    /** One round of the loop. */
    method OneRound(w: nat, schedule: seq<seq<Label>>, before: nat, earlier: seq<nat>, ghost start: nat)
      returns (live: bool, used: nat, performed: seq<nat>)
      requires Valid() && At(Abs(), w, Testing) && before < |schedule|
      requires start <= |takers| && Performed(Abs(), w, earlier, start)
      modifies this
      ensures Valid() && w < |pc| && before < used <= |schedule| && old(takers) <= takers
      ensures used < |schedule| ==> if live then pc[w].Testing? else pc[w].Exited? || pc[w].Underflow?
      ensures Performed(Abs(), w, performed, start)
      ensures old(Alone(schedule)) && 4 * |old(tasks)| <= |schedule| - before ==>
                && live && !stop
                && if old(tasks) == [] then
                     used == |schedule| && tasks == [] && taken == old(taken) && performed == earlier
                   else
                     && used == before + 4 && tasks == old(tasks)[1..] && taken == old(taken) + [old(tasks)[0]]
                     && performed == earlier + [|old(taken)|]
    {
      performed := earlier;
      live, used := TestAndMark(w, schedule, before);
      PerformedOn(old(Abs()), Abs(), w, earlier, start);
      if live && used < |schedule| {
        ghost var marked := Abs();
        live, used := WaitAndTake(w, schedule, used);
        PerformedOn(marked, Abs(), w, earlier, start);
        if live && used < |schedule| {
          performed := RunTask(w, schedule, used, performed, start);
          used := used + 1;
        }
      }
    }

    /** Worker w runs the task it has taken, while other threads go on. */
    method RunTask(w: nat, schedule: seq<seq<Label>>, used: nat, earlier: seq<nat>, ghost start: nat)
      returns (performed: seq<nat>)
      requires Valid() && w < |pc| && used < |schedule| && pc[w].Running? && start <= pc[w].index < |takers|
      requires Performed(Abs(), w, earlier, start)
      requires forall k :: 0 <= k < |earlier| ==> earlier[k] < pc[w].index
      modifies this
      ensures Valid() && w < |pc| && pc[w].Testing? && old(takers) <= takers
      ensures performed == earlier + [old(pc[w]).index] && Performed(Abs(), w, performed, start)
      ensures old(Alone(schedule)) ==> !stop && tasks == old(tasks) && taken == old(taken)
    {
      Yield(w, schedule, used);
      PerformedStill(old(Abs()), Abs(), w, earlier, start);
      ReachableInv(Abs());
      PerformedMore(Abs(), w, earlier, start);
      performed := earlier + [pc[w].index];
      FinishTask(w);
    }

    /** Other threads perform the given steps as far as they are possible; none of them is the thread
        that called Shutdown. */
    method Meanwhile(steps: seq<Label>, ghost origin: State)
      requires Valid() && stop && Reaches(Next, origin, Abs())
      modifies this
      ensures Valid() && closing == old(closing) && |pc| == |old(pc)| && Reaches(Next, origin, Abs())
      ensures Abs() == MeanwhileDo(old(Abs()), steps)
      ensures forall w :: 0 <= w < |pc| && old(pc)[w].Exited? ==> pc[w].Exited?
      ensures old(Safe(Abs())) ==> Safe(Abs())
    {
      for i := 0 to |steps|
        invariant Valid() && closing == old(closing) && |pc| == |old(pc)| && Reaches(Next, origin, Abs())
        invariant Abs() == MeanwhileDo(old(Abs()), steps[..i])
        invariant forall w :: 0 <= w < |pc| && old(pc)[w].Exited? ==> pc[w].Exited?
        invariant old(Safe(Abs())) ==> Safe(Abs())
      {
        assert steps[..i + 1][..i] == steps[..i];
        MeanwhileOne(steps[i], origin);
      }
      assert steps[..|steps|] == steps;
    }

    method MeanwhileOne(l: Label, ghost origin: State)
      requires Valid() && stop && Reaches(Next, origin, Abs())
      modifies this
      ensures Valid() && closing == old(closing) && |pc| == |old(pc)| && Reaches(Next, origin, Abs())
      ensures Abs()
              == if !ByShutdown(l) && Next(old(Abs()), l).Some? then Next(old(Abs()), l).value else old(Abs())
      ensures forall w :: 0 <= w < |pc| && old(pc)[w].Exited? ==> pc[w].Exited?
      ensures old(Safe(Abs())) ==> Safe(Abs())
    {
      if !ByShutdown(l) && Next(Abs(), l).Some? {
        ClosedStep(Abs(), l);
        ghost var after := ReachesStep(Next, origin, Abs(), l);
        if Safe(Abs()) {
          SafeStep(Abs(), l);
        }
        Perform(l);
      }
    }

    /** The joins at the end of Shutdown, one after the other, while the workers go on as the schedule
        says.  They have returned if every worker has exited; if nothing moves any more after a safe
        marking, they have. */
    method JoinWorkers(schedule: seq<seq<Label>>, ghost origin: State) returns (returned: bool)
      requires Valid() && closing.Joining? && Reaches(Next, origin, Abs())
      modifies this
      ensures Valid() && closing.Joining? && Reaches(Next, origin, Abs())
      ensures returned <==> forall w :: 0 <= w < |pc| ==> pc[w].Exited?
      ensures old(Safe(Abs())) && Quiet(Abs()) ==> returned
    {
      var used, joined := 0, 0;
      while joined < |pc| && (pc[joined].Exited? || used < |schedule|)
        invariant Valid() && closing.Joining? && joined <= |pc| && used <= |schedule|
        invariant Reaches(Next, origin, Abs())
        invariant forall w :: 0 <= w < joined ==> pc[w].Exited?
        invariant old(Safe(Abs())) ==> Safe(Abs())
        decreases |schedule| - used, |pc| - joined
      {
        if pc[joined].Exited? {
          joined := joined + 1;
        } else {
          Meanwhile(schedule[used], origin);
          used := used + 1;
        }
      }
      returned := joined == |pc|;
      RestReturns();
    }

    /** At rest after a safe marking every worker has exited. */
    lemma RestReturns()
      requires Valid() && closing.Joining?
      ensures Safe(Abs()) && Quiet(Abs()) ==> forall w :: 0 <= w < |pc| ==> pc[w].Exited?
    {
      if Safe(Abs()) && Quiet(Abs()) {
        QuietMeans(Abs());
      }
    }

    /** Some worker has underflowed, or stands between its test for ACTIVE and its write of EMPTY. */
    ghost predicate Window(s: State) {
      HasUnderflow(s) || exists w :: 0 <= w < |s.pc| && s.pc[w].Marking?
    }

    /** Marking is safe outside of that window. */
    method MarkWorkers()
      requires Valid() && closing.StopWritten?
      modifies this
      ensures Valid() && stop && closing.Marked? && Next(old(Abs()), MarkDead) == Some(Abs())
      ensures !Window(old(Abs())) ==> Safe(Abs())
    {
      if !Window(Abs()) {
        MarkingSafeIff(Abs());
      }
      MarkAllDead();
    }

    method WakeWorkers(ghost origin: State)
      requires Valid() && closing.Marked? && Reaches(Next, origin, Abs())
      modifies this
      ensures Valid() && stop && closing.Joining? && (old(Safe(Abs())) ==> Safe(Abs()))
      ensures Reaches(Next, origin, Abs())
    {
      if Safe(Abs()) {
        SafeStep(Abs(), NotifyAll);
      }
      ghost var after := ReachesStep(Next, origin, Abs(), NotifyAll);
      WakeEveryone();
    }

    /** Shutdown, with other threads running before its mutex section, before notify_all, and during the
        joins.  A second call does nothing.  `cut` is the state in which the workers are marked: what is queued
        then is discarded for good, and only tasks submitted later are taken or queued afterwards.  Unless
        that state is in the window of a worker, all joins return once nothing moves any more. */
    method Shutdown(before: seq<Label>, between: seq<Label>, after: seq<seq<Label>>)
      returns (returned: bool, ghost cut: State)
      requires Valid()
      modifies this
      ensures Valid() && stop
      ensures old(stop) ==> Abs() == old(Abs())
      ensures !old(stop) ==>
                && cut == MeanwhileDo(old(Abs()).(closing := StopWritten), before) && cut.closing.StopWritten?
                && closing.Joining? && Reaches(Next, Next(cut, MarkDead).value, Abs())
      ensures !old(stop) ==>
                && cut.taken <= taken && cut.submitted <= submitted
                && taken[|cut.taken|..] + tasks == submitted[|cut.submitted|..]
      ensures !old(stop) ==>
                && (returned <==> forall w :: 0 <= w < |pc| ==> pc[w].Exited?)
                && (!Window(cut) && Quiet(Abs()) ==> returned)
    {
      returned, cut := true, Abs();
      if !stop {
        SetStop();
        cut := CutOff(before);
        returned := FinishShutdown(between, after, cut);
        DiscardedForGood(cut, Abs());
      }
    }

    /** Up to the mutex section. */
    method CutOff(before: seq<Label>) returns (ghost cut: State)
      requires Valid() && closing.StopWritten?
      modifies this
      ensures Valid() && stop && closing.Marked?
      ensures Reachable(cut) && cut.closing.StopWritten? && Reaches(Next, old(Abs()), cut)
      ensures cut == MeanwhileDo(old(Abs()), before)
      ensures Next(cut, MarkDead) == Some(Abs()) && (!Window(cut) ==> Safe(Abs()))
    {
      ReachesSelf(Next, Abs());
      Meanwhile(before, Abs());
      cut := Abs();
      MarkWorkers();
    }

    /** And from there on. */
    method FinishShutdown(between: seq<Label>, after: seq<seq<Label>>, ghost cut: State) returns (returned: bool)
      requires Valid() && stop && closing.Marked?
      requires Next(cut, MarkDead) == Some(Abs()) && (!Window(cut) ==> Safe(Abs()))
      modifies this
      ensures Valid() && stop && closing.Joining? && Reaches(Next, Next(cut, MarkDead).value, Abs())
      ensures returned <==> forall w :: 0 <= w < |pc| ==> pc[w].Exited?
      ensures !Window(cut) && Quiet(Abs()) ==> returned
    {
      ghost var origin := Abs();
      ReachesSelf(Next, origin);
      Meanwhile(between, origin);
      WakeWorkers(origin);
      returned := JoinWorkers(after, origin);
    }
  }
}
