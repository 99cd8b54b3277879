/** The queue protocol of the thread pool: one FIFO, one mutex, one condition variable and a status
    entry per worker.  Every mutex section is one label; every unprotected access to a status entry or
    to the stop flag is a label of its own.  Waking up without a notification is a label too. */
module PoolProtocol {
  import opened Counting
  import opened Runs

  type Task = int

  datatype Stat = EMPTY | ACTIVE | DEAD

  /** Where a worker thread stands. */
  datatype Phase =
    | Looking              // started, has not looked up its own status entry yet
    | Testing              // about to test the loop condition
    | Marking              // found ACTIVE, has not written EMPTY yet
    | Entering             // heading for the mutex
    | Sleeping             // in the wait set of the condition variable
    | Woken                // out of the wait set, heading for the mutex to test again
    | Running(index: nat)  // performing the index-th task taken from the queue
    | Exited
    | Underflow            // took the front of an empty queue: undefined behaviour

  /** How far the call of Shutdown has come. */
  datatype Closing = Open | StopWritten | Marked | Joining

  datatype State = State(
    queue: seq<Task>,
    stat: map<nat, Stat>,  // _workerStat; workers are numbered in the order they were started
    pc: seq<Phase>,
    pending: nat,          // pushes whose notify_one has not happened yet
    closing: Closing,
    submitted: seq<Task>,  // history: every push
    taken: seq<Task>,      // history: every pop
    takers: seq<nat>,      // history: and which worker made it
    finished: set<nat>     // history: indices into taken
  )

  datatype Label =
    | Start | Register(w: nat)
    | Push(t: Task) | NotifyOne(woken: Option<nat>)
    | Spurious(w: nat)
    | Lookup(w: nat) | Test(w: nat) | MarkEmpty(w: nat) | Acquire(w: nat) | Finish(w: nat)
    | WriteStop | MarkDead | NotifyAll

  const INIT := State([], map[], [], 0, Open, [], [], [], {})

  function WakeAll(pc: seq<Phase>): (r: seq<Phase>)
    ensures |r| == |pc|
    ensures forall w :: 0 <= w < |pc| ==> r[w] == if pc[w].Sleeping? then Woken else pc[w]
  {
    seq(|pc|, w requires 0 <= w < |pc| => if pc[w].Sleeping? then Woken else pc[w])
  }

  function AllDead(stat: map<nat, Stat>): map<nat, Stat> {
    map w | w in stat :: DEAD
  }

  predicate At(s: State, w: nat, p: Phase) {
    w < |s.pc| && s.pc[w] == p
  }

  predicate SomeSleeper(s: State) {
    exists w :: 0 <= w < |s.pc| && s.pc[w].Sleeping?
  }

  function Move(s: State, w: nat, p: Phase): State
    requires w < |s.pc|
  {
    s.(pc := s.pc[w := p])
  }

  /** The mutex section of WorkerThread: test the wait predicate, sleep if it is false, leave if DEAD,
      otherwise take the front of the queue. */
  function Enter(s: State, w: nat): State
    requires w < |s.pc| && w in s.stat
  {
    if s.closing.Open? && s.queue == [] then
      Move(s, w, Sleeping)
    else if s.stat[w] == DEAD then
      Move(s, w, Exited)
    else if s.queue == [] then
      Move(s, w, Underflow)
    else
      Move(s, w, Running(|s.taken|))
      .(queue := s.queue[1..], stat := s.stat[w := ACTIVE],
        taken := s.taken + [s.queue[0]], takers := s.takers + [w])
  }

  function Next(s: State, l: Label): Option<State> {
    match l
    case Start =>
      if s.closing.Open? then Some(s.(pc := s.pc + [Looking])) else None
    case Register(w) =>
      if s.closing.Open? && w < |s.pc| && w !in s.stat then Some(s.(stat := s.stat[w := ACTIVE])) else None
    case Push(t) =>
      Some(s.(queue := s.queue + [t], pending := s.pending + 1, submitted := s.submitted + [t]))
    case NotifyOne(Some(w)) =>
      if s.pending > 0 && At(s, w, Sleeping) then Some(Move(s, w, Woken).(pending := s.pending - 1)) else None
    case NotifyOne(None) =>
      if s.pending > 0 && !SomeSleeper(s) then Some(s.(pending := s.pending - 1)) else None
    case Spurious(w) =>
      if At(s, w, Sleeping) then Some(Move(s, w, Woken)) else None
    case Lookup(w) =>
      if At(s, w, Looking) then Some(Move(s, w, if w in s.stat then Testing else Exited)) else None
    case Test(w) =>
      if At(s, w, Testing) && w in s.stat then
        Some(Move(s, w, if s.stat[w] == ACTIVE then Marking else Exited))
      else None
    case MarkEmpty(w) =>
      if At(s, w, Marking) then Some(Move(s, w, Entering).(stat := s.stat[w := EMPTY])) else None
    case Acquire(w) =>
      if w < |s.pc| && (s.pc[w].Entering? || s.pc[w].Woken?) && w in s.stat then Some(Enter(s, w)) else None
    case Finish(w) =>
      if w < |s.pc| && s.pc[w].Running? then
        Some(Move(s, w, Testing).(finished := s.finished + {s.pc[w].index}))
      else None
    case WriteStop =>
      if s.closing.Open? then Some(s.(closing := StopWritten)) else None
    case MarkDead =>
      if s.closing.StopWritten? then
        Some(s.(closing := Marked, queue := [], stat := AllDead(s.stat)))
      else None
    case NotifyAll =>
      if s.closing.Marked? then Some(s.(closing := Joining, pc := WakeAll(s.pc))) else None
  }

  // ---------------------------------------------------------------- counting workers

  lemma {:induction false} SumWakeAll(pc: seq<Phase>)
    ensures Sum(Weight, WakeAll(pc)) <= Sum(Weight, pc) + |pc|
  {
    if pc != [] {
      var n := |pc| - 1;
      assert WakeAll(pc)[..n] == WakeAll(pc[..n]);
      SumWakeAll(pc[..n]);
    }
  }

  /** 1 for a worker that is awake and on its way to test the queue. */
  function Heading(p: Phase): nat {
    if p.Testing? || p.Marking? || p.Entering? || p.Woken? then 1 else 0
  }

  /** Upper bound on the steps a worker can make before it sleeps, takes a task or leaves. */
  function Weight(p: Phase): nat {
    match p
    case Looking => 4
    case Testing => 3
    case Marking => 2
    case Entering => 1
    case Woken => 1
    case Running(_) => 4
    case _ => 0
  }

  // ---------------------------------------------------------------- invariants

  /** Phases from which a worker reaches its own status entry again. */
  predicate Engaged(p: Phase) {
    p.Testing? || p.Marking? || p.Entering? || p.Sleeping? || p.Woken? || p.Running?
  }

  ghost predicate WorkerInv(s: State, w: nat)
    requires w < |s.pc|
  {
    && (Engaged(s.pc[w]) ==> w in s.stat)
    && (w in s.stat ==>
      && (s.pc[w].Looking? || s.pc[w].Testing? || s.pc[w].Running? ==> s.stat[w] != EMPTY)
      && (s.closing.Open? || s.closing.StopWritten? ==>
        && s.stat[w] != DEAD
        && (s.pc[w].Marking? ==> s.stat[w] == ACTIVE)))
    && (s.closing.Open? ==> !s.pc[w].Underflow?)
  }

  /** Who performs a task has taken it. */
  predicate TakerInv(s: State, w: nat)
    requires w < |s.pc|
  {
    s.pc[w].Running? ==> s.pc[w].index < |s.takers| && s.takers[s.pc[w].index] == w
  }

  /** Of `n` tasks taken, those not finished are performed by one running worker each. */
  ghost predicate TasksInv(pc: seq<Phase>, n: nat, finished: set<nat>) {
    && (forall i :: i in finished ==> i < n)
    && (forall w :: 0 <= w < |pc| && pc[w].Running? ==> pc[w].index < n && pc[w].index !in finished)
    && (forall v, w :: 0 <= v < w < |pc| && pc[v].Running? ==> pc[v] != pc[w])
    && (forall i :: 0 <= i < n && i !in finished ==> exists w :: 0 <= w < |pc| && pc[w] == Running(i))
  }

  ghost predicate WakeupInv(s: State) {
    && (s.closing.Open? && SomeSleeper(s) ==> |s.queue| <= s.pending + Sum(Heading, s.pc))
    && (s.closing.Joining? ==> !SomeSleeper(s))
  }

  ghost predicate Inv(s: State) {
    && (forall w :: w in s.stat ==> w < |s.pc|)
    && (forall w :: 0 <= w < |s.pc| ==> WorkerInv(s, w))
    && TasksInv(s.pc, |s.taken|, s.finished)
    && |s.takers| == |s.taken| && (forall w :: 0 <= w < |s.pc| ==> TakerInv(s, w))
    && (s.closing.Open? || s.closing.StopWritten? ==> s.taken + s.queue == s.submitted)
    && WakeupInv(s)
  }

  lemma TasksMove(pc: seq<Phase>, n: nat, finished: set<nat>, w: nat, p: Phase)
    requires TasksInv(pc, n, finished) && w < |pc| && !pc[w].Running? && !p.Running?
    ensures TasksInv(pc[w := p], n, finished)
  {
    var pc' := pc[w := p];
    forall i | 0 <= i < n && i !in finished ensures exists v :: 0 <= v < |pc| && pc'[v] == Running(i) {
      var v :| 0 <= v < |pc| && pc[v] == Running(i);
      assert pc'[v] == Running(i);
    }
  }

  lemma TasksTake(pc: seq<Phase>, n: nat, finished: set<nat>, w: nat)
    requires TasksInv(pc, n, finished) && w < |pc| && !pc[w].Running?
    ensures TasksInv(pc[w := Running(n)], n + 1, finished)
  {
    var pc' := pc[w := Running(n)];
    assert pc'[w] == Running(n);
    forall i | 0 <= i < n && i !in finished ensures exists v :: 0 <= v < |pc| && pc'[v] == Running(i) {
      var v :| 0 <= v < |pc| && pc[v] == Running(i);
      assert pc'[v] == Running(i);
    }
  }

  lemma TasksFinish(pc: seq<Phase>, n: nat, finished: set<nat>, w: nat)
    requires TasksInv(pc, n, finished) && w < |pc| && pc[w].Running?
    ensures TasksInv(pc[w := Testing], n, finished + {pc[w].index})
  {
    var pc' := pc[w := Testing];
    forall i | 0 <= i < n && i !in finished + {pc[w].index} ensures exists v :: 0 <= v < |pc| && pc'[v] == Running(i) {
      var v :| 0 <= v < |pc| && pc[v] == Running(i);
      assert pc'[v] == Running(i);
    }
  }

  lemma TasksPush(pc: seq<Phase>, n: nat, finished: set<nat>)
    requires TasksInv(pc, n, finished)
    ensures TasksInv(pc + [Looking], n, finished)
    ensures TasksInv(WakeAll(pc), n, finished)
  {
    forall i | 0 <= i < n && i !in finished
      ensures exists v :: 0 <= v < |pc| + 1 && (pc + [Looking])[v] == Running(i)
      ensures exists v :: 0 <= v < |pc| && WakeAll(pc)[v] == Running(i)
    {
      var v :| 0 <= v < |pc| && pc[v] == Running(i);
      assert (pc + [Looking])[v] == Running(i) && WakeAll(pc)[v] == Running(i);
    }
  }

  lemma TasksInvStep(s: State, l: Label)
    requires Inv(s) && Next(s, l).Some?
    ensures var t := Next(s, l).value; TasksInv(t.pc, |t.taken|, t.finished)
  {
    var t := Next(s, l).value;
    match l
    case Start => TasksPush(s.pc, |s.taken|, s.finished);
    case NotifyAll => TasksPush(s.pc, |s.taken|, s.finished);
    case Finish(w) => TasksFinish(s.pc, |s.taken|, s.finished, w);
    case NotifyOne(Some(w)) => TasksMove(s.pc, |s.taken|, s.finished, w, Woken);
    case Acquire(w) =>
      if t.pc[w].Running? {
        TasksTake(s.pc, |s.taken|, s.finished, w);
      } else {
        TasksMove(s.pc, |s.taken|, s.finished, w, t.pc[w]);
      }
    case Spurious(w) => TasksMove(s.pc, |s.taken|, s.finished, w, t.pc[w]);
    case Lookup(w) => TasksMove(s.pc, |s.taken|, s.finished, w, t.pc[w]);
    case Test(w) => TasksMove(s.pc, |s.taken|, s.finished, w, t.pc[w]);
    case MarkEmpty(w) => TasksMove(s.pc, |s.taken|, s.finished, w, t.pc[w]);
    case _ =>
  }

  /** The worker a label is about. */
  predicate ByWorker(l: Label) {
    l.Spurious? || l.Lookup? || l.Test? || l.MarkEmpty? || l.Acquire? || l.Finish?
  }

  lemma WakeupWorkerStep(s: State, l: Label)
    requires Inv(s) && s.closing.Open? && ByWorker(l) && Next(s, l).Some?
    ensures WakeupInv(Next(s, l).value)
  {
    var t := Next(s, l).value;
    var p := t.pc[l.w];
    assert WorkerInv(s, l.w);
    SumUpdate(Heading, s.pc, l.w, p);
    assert t.pc == s.pc[l.w := p] && t.pending == s.pending && t.closing == s.closing;
    if p.Sleeping? {
      assert t.queue == [];
    } else if v :| 0 <= v < |t.pc| && t.pc[v].Sleeping? {
      assert s.pc[v].Sleeping?;
      assert |t.queue| + Heading(s.pc[l.w]) <= |s.queue| + Heading(p);
    }
  }

  lemma WakeupNotifyStep(s: State, w: nat)
    requires Inv(s) && s.closing.Open? && Next(s, NotifyOne(Some(w))).Some?
    ensures WakeupInv(Next(s, NotifyOne(Some(w))).value)
  {
    SumUpdate(Heading, s.pc, w, Woken);
    assert s.pc[w].Sleeping?;
  }

  lemma WakeupStartStep(s: State)
    requires Inv(s) && s.closing.Open?
    ensures WakeupInv(Next(s, Start).value)
  {
    var t := Next(s, Start).value;
    SumPush(Heading, s.pc, Looking);
    if v :| 0 <= v < |t.pc| && t.pc[v].Sleeping? {
      assert s.pc[v].Sleeping?;
    }
  }

  lemma WakeupInvStep(s: State, l: Label)
    requires Inv(s) && Next(s, l).Some?
    ensures WakeupInv(Next(s, l).value)
  {
    var t := Next(s, l).value;
    if !t.closing.Open? {
    } else if ByWorker(l) {
      WakeupWorkerStep(s, l);
    } else if l.Start? {
      WakeupStartStep(s);
    } else if l.NotifyOne? && l.woken.Some? {
      WakeupNotifyStep(s, l.woken.value);
    } else {
      assert t.pc == s.pc;
    }
  }

  lemma WorkerInvStep(s: State, l: Label, w: nat)
    requires Inv(s) && Next(s, l).Some? && w < |Next(s, l).value.pc|
    ensures WorkerInv(Next(s, l).value, w)
  {
    assert w < |s.pc| ==> WorkerInv(s, w);
  }

  lemma TakerInvStep(s: State, l: Label, w: nat)
    requires Inv(s) && Next(s, l).Some? && w < |Next(s, l).value.pc|
    ensures TakerInv(Next(s, l).value, w) && |Next(s, l).value.takers| == |Next(s, l).value.taken|
  {
    assert w < |s.pc| ==> TakerInv(s, w);
  }

  lemma InvStep(s: State, l: Label)
    requires Inv(s) && Next(s, l).Some?
    ensures Inv(Next(s, l).value)
  {
    var t := Next(s, l).value;
    forall w | 0 <= w < |t.pc| ensures WorkerInv(t, w) {
      WorkerInvStep(s, l, w);
    }
    forall w | 0 <= w < |t.pc| ensures TakerInv(t, w) {
      TakerInvStep(s, l, w);
    }
    TasksInvStep(s, l);
    WakeupInvStep(s, l);
  }
}
