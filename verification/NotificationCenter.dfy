/** The notification center object.  `waitToHandleFD` and `barrier` are its fields; the other fields stand for
    the threads around it, the channels' receive buffers and the history.  A method is one step of the
    readiness protocol or of its barrier, except NotifyDataReady and HandleReadyData, which are the code's
    own control flow with its exchange loops.  Reader r is thread r, the handler is thread `size`. */
module NotificationCenters {
  import B = Barrier
  import C = Readiness
  import RS = ReceiveStream
  import T = ReadinessTheorems

  import opened GuardedReadiness
  import opened Runs

  // ---------------------------------------------------------------- what a batch hands over

  /** The bytes of fd in one hand-over. */
  function Part(item: (int, seq<char>), fd: int): seq<char> {
    if item.0 == fd then item.1 else []
  }

  /** The bytes of fd among what a batch handed to the thread pool. */
  function BytesOf(batch: seq<(int, seq<char>)>, fd: int): seq<char> {
    if batch == [] then [] else BytesOf(batch[..|batch| - 1], fd) + Part(batch[|batch| - 1], fd)
  }

  lemma BytesMore(batch: seq<(int, seq<char>)>, item: (int, seq<char>), fd: int)
    ensures BytesOf(batch + [item], fd) == BytesOf(batch, fd) + Part(item, fd)
  {
    assert (batch + [item])[..|batch|] == batch;
  }

  ghost predicate HandedAt(before: map<int, seq<char>>, after: map<int, seq<char>>, batch: seq<(int, seq<char>)>,
                           fd: int) {
    C.Get(after, fd) == C.Get(before, fd) + BytesOf(batch, fd)
  }

  /** Going from `before` to `after` handed over `batch`. */
  ghost predicate Handed(before: map<int, seq<char>>, after: map<int, seq<char>>, batch: seq<(int, seq<char>)>) {
    forall fd :: HandedAt(before, after, batch, fd)
  }

  ghost predicate HandedOne(before: map<int, seq<char>>, after: map<int, seq<char>>, item: (int, seq<char>)) {
    forall fd :: C.Get(after, fd) == C.Get(before, fd) + Part(item, fd)
  }

  lemma Associative(a: seq<char>, b: seq<char>, c: seq<char>)
    ensures (a + b) + c == a + (b + c)
  {
  }

  lemma HandedMore(start: map<int, seq<char>>, before: map<int, seq<char>>, after: map<int, seq<char>>,
                   batch: seq<(int, seq<char>)>, item: (int, seq<char>))
    requires Handed(start, before, batch) && HandedOne(before, after, item)
    ensures Handed(start, after, batch + [item])
  {
    forall fd ensures HandedAt(start, after, batch + [item], fd) {
      assert HandedAt(start, before, batch, fd);
      Associative(C.Get(start, fd), BytesOf(batch, fd), Part(item, fd));
      BytesMore(batch, item, fd);
    }
  }

  /** `after` is `now` without the bytes of fd. */
  ghost predicate Without(now: map<int, seq<char>>, after: map<int, seq<char>>, fd: int) {
    forall f :: C.Get(after, f) == if f == fd then [] else C.Get(now, f)
  }

  // ---------------------------------------------------------------- an undisturbed batch

  /** The counter of a descriptor after a batch that has taken from it. */
  function Lowered(c: C.Count): C.Count {
    match c
    case MOREPLUS => C.MORE
    case MORE => C.ONE
    case ONE => C.ONE
  }

  /** The batch has taken from fd: its channel is in place and its counter says that there is something to do. */
  predicate Visited(copy: map<int, C.Count>, todo: set<int>, present: set<int>, fd: int) {
    fd in copy && fd !in todo && fd in present && copy[fd] != C.ONE
  }

  /** What an undisturbed batch has done about fd: if it has taken from it, its buffer is empty, the first 128
      bytes of it, or all, are handed over, and its counter is one lower; otherwise all of this is as before. */
  ghost predicate RoundAt(copy: map<int, C.Count>, todo: set<int>, present: set<int>, table: map<int, C.Count>,
                          start: map<int, seq<char>>, now: map<int, seq<char>>, batch: seq<(int, seq<char>)>, fd: int) {
    var visited := Visited(copy, todo, present, fd);
    && C.Get(now, fd) == (if visited then [] else C.Get(start, fd))
    && BytesOf(batch, fd) == (if visited then RS.Payload(C.Get(start, fd)) else [])
    && (fd in table <==> fd in copy)
    && (fd in copy ==> table[fd] == if visited then Lowered(copy[fd]) else copy[fd])
  }

  ghost predicate Round(copy: map<int, C.Count>, todo: set<int>, present: set<int>, table: map<int, C.Count>,
                        start: map<int, seq<char>>, now: map<int, seq<char>>, batch: seq<(int, seq<char>)>) {
    forall fd :: RoundAt(copy, todo, present, table, start, now, batch, fd)
  }

  /** What this means at the end of the batch. */
  lemma RoundMeans(before: map<int, C.Count>, present: set<int>, table: map<int, C.Count>,
                   start: map<int, seq<char>>, now: map<int, seq<char>>, batch: seq<(int, seq<char>)>)
    requires Round(before, {}, present, table, start, now, batch)
    ensures table.Keys == before.Keys
    ensures forall fd :: fd in table ==>
              table[fd] == if fd !in present then before[fd] else if before[fd] == C.MOREPLUS then C.MORE else C.ONE
    ensures (forall fd :: C.Get(start, fd) != [] ==> Visited(before, {}, present, fd)) ==>
              forall fd :: C.Get(now, fd) == []
  {
    forall fd ensures fd in table.Keys <==> fd in before.Keys {
      assert RoundAt(before, {}, present, table, start, now, batch, fd);
    }
    forall fd
      ensures fd in table ==>
                table[fd] == if fd !in present then before[fd] else if before[fd] == C.MOREPLUS then C.MORE else C.ONE
      ensures (C.Get(start, fd) != [] ==> Visited(before, {}, present, fd)) ==> C.Get(now, fd) == []
    {
      assert RoundAt(before, {}, present, table, start, now, batch, fd);
    }
  }

  /** The counter of fd, which is in the table, goes one lower. */
  predicate LoweredAt(fd: int, before: map<int, C.Count>, after: map<int, C.Count>) {
    fd in before && after == before[fd := Lowered(before[fd])]
  }

  /** The batch has a task for fd. */
  ghost predicate TaskFor(batch: seq<(int, seq<char>)>, fd: int) {
    exists i :: 0 <= i < |batch| && batch[i].0 == fd
  }

  /** The batch has one task for each descriptor it has taken from, and no others. */
  ghost predicate Tasks(copy: map<int, C.Count>, todo: set<int>, present: set<int>, batch: seq<(int, seq<char>)>) {
    && (forall fd :: TaskFor(batch, fd) <==> Visited(copy, todo, present, fd))
    && forall i, j :: 0 <= i < j < |batch| ==> batch[i].0 != batch[j].0
  }

  /** One turn of the loop, which takes from fd or skips it. */
  lemma RoundMore(copy: map<int, C.Count>, todo: set<int>, present: set<int>, table: map<int, C.Count>,
                  start: map<int, seq<char>>, now: map<int, seq<char>>, batch: seq<(int, seq<char>)>, fd: int,
                  table': map<int, C.Count>, now': map<int, seq<char>>, data: seq<char>)
    requires Round(copy, todo, present, table, start, now, batch) && fd in todo && fd in copy && fd in table
    requires fd in present && copy[fd] != C.ONE
    requires table' == table[fd := Lowered(table[fd])] && data == RS.Payload(C.Get(now, fd)) && Without(now, now', fd)
    ensures Round(copy, todo - {fd}, present, table', start, now', batch + [(fd, data)])
  {
    assert RoundAt(copy, todo, present, table, start, now, batch, fd);
    forall f ensures RoundAt(copy, todo - {fd}, present, table', start, now', batch + [(fd, data)], f) {
      assert RoundAt(copy, todo, present, table, start, now, batch, f);
      BytesMore(batch, (fd, data), f);
      assert [] + data == data && BytesOf(batch, f) + [] == BytesOf(batch, f);
    }
  }

  lemma RoundSkip(copy: map<int, C.Count>, todo: set<int>, present: set<int>, table: map<int, C.Count>,
                  start: map<int, seq<char>>, now: map<int, seq<char>>, batch: seq<(int, seq<char>)>, fd: int)
    requires Round(copy, todo, present, table, start, now, batch) && fd in todo && fd in copy
    requires fd !in present || copy[fd] == C.ONE
    ensures Round(copy, todo - {fd}, present, table, start, now, batch)
  {
    forall f ensures RoundAt(copy, todo - {fd}, present, table, start, now, batch, f) {
      assert RoundAt(copy, todo, present, table, start, now, batch, f);
    }
  }

  lemma TasksMore(copy: map<int, C.Count>, todo: set<int>, present: set<int>, batch: seq<(int, seq<char>)>,
                  fd: int, data: seq<char>)
    requires Tasks(copy, todo, present, batch) && fd in todo && fd in copy
    ensures if fd in present && copy[fd] != C.ONE then Tasks(copy, todo - {fd}, present, batch + [(fd, data)])
            else Tasks(copy, todo - {fd}, present, batch)
  {
    var more := batch + [(fd, data)];
    assert more[|batch|].0 == fd && !Visited(copy, todo, present, fd);
    forall i | 0 <= i < |batch| ensures more[i].0 != fd {
      assert more[i] == batch[i] && TaskFor(batch, batch[i].0);
    }
    forall f ensures TaskFor(more, f) <==> f == fd || TaskFor(batch, f) {
      if i :| 0 <= i < |batch| && batch[i].0 == f {
        assert more[i].0 == f;
      }
    }
    forall f ensures TaskFor(batch, f) <==> Visited(copy, todo, present, f) {
    }
  }

  /** The counter of fd after one notification. */
  function Raised(fd: int, table: map<int, C.Count>): C.Count {
    if fd !in table || table[fd] == C.ONE then C.MORE else C.MOREPLUS
  }

  /** How many tasks a counter asks for. */
  function Worth(c: C.Count): nat {
    match c
    case ONE => 0
    case MORE => 1
    case MOREPLUS => 2
  }

  function LessBy(n: nat, k: nat): nat {
    if n < k then 0 else n - k
  }

  /** The table after k undisturbed batches. */
  ghost predicate Served(start: map<int, C.Count>, present: set<int>, table: map<int, C.Count>, k: nat) {
    && table.Keys == start.Keys
    && forall fd :: fd in table ==>
         if fd !in present then table[fd] == start[fd] else Worth(table[fd]) == LessBy(Worth(start[fd]), k)
  }

  lemma SomeElement(fds: set<int>)
    ensures fds == {} || exists fd :: fd in fds
  {
    if fd :| fd in fds {
    } else {
      assert forall fd :: fd !in fds;
      assert fds <= {};
    }
  }

  /** The unordered loop over the copied table. */
  method AnyOf(fds: set<int>) returns (fd: int)
    requires fds != {}
    ensures fd in fds
  {
    SomeElement(fds);
    fd :| fd in fds;
  }

  /** In every reachable state threads inside an update are within the barrier, and entries in use exist. */
  lemma Structure(size: nat, s: State)
    requires Reaches(Next, Init(true, size), s)
    ensures Placed(s) && C.EntriesInv(s.center) && |s.center.readers| == size
  {
    var inv := (t: State) => Placed(t) && C.EntriesInv(t.center) && |t.center.readers| == size;
    forall t, l | inv(t) && Next(t, l).Some? ensures inv(Next(t, l).value) {
      match l
      case Center(step) =>
        PlacedCenter(t, step);
        C.EntriesInvStep(t.center, step);
      case Gate(turn) =>
        PlacedGate(t, turn);
    }
    ReachesKeeps(Next, inv, Init(true, size), s);
  }

  /** The step is one of thread `me`. */
  predicate Mine(s: State, me: nat, l: Label) {
    match l
    case Center(step) => Actor(s.center, step) == Some(me)
    case Gate(turn) => turn.t == me
  }

  /** What is thread `me`'s own is the same in both states. */
  predicate Kept(me: nat, s: State, t: State) {
    && |t.center.readers| == |s.center.readers| && |t.gate.place| == |s.gate.place| == |s.center.readers| + 1 > me
    && t.gate.place[me] == s.gate.place[me]
    && if me < |s.center.readers| then t.center.readers[me] == s.center.readers[me]
       else t.center.handler == s.center.handler && t.center.delivered == s.center.delivered
  }

  /** What the threads other than `me` do that perform the given steps, as far as they are possible. */
  function OthersDo(me: nat, s: State, ls: seq<Label>): State {
    if ls == [] then s
    else
      var n := |ls| - 1;
      var t := OthersDo(me, s, ls[..n]);
      if !Mine(t, me, ls[n]) && Next(t, ls[n]).Some? then Next(t, ls[n]).value else t
  }

  lemma OthersKeepCenter(s: State, me: nat, l: C.Label)
    requires me < |s.gate.place| == |s.center.readers| + 1 && !Mine(s, me, Center(l)) && Next(s, Center(l)).Some?
    ensures Kept(me, s, Next(s, Center(l)).value)
  {
  }

  lemma OthersKeep(s: State, me: nat, l: Label)
    requires me < |s.gate.place| == |s.center.readers| + 1 && !Mine(s, me, l) && Next(s, l).Some?
    ensures Kept(me, s, Next(s, l).value)
  {
    match l
    case Center(step) => OthersKeepCenter(s, me, step);
    case Gate(turn) =>
  }

  class NotificationCenter {
    const size: nat
    var waitToHandleFD: map<int, C.Count>
    var barrier: bool

    var place: seq<B.Place>
    var readers: seq<C.Reader>
    var handler: C.Handler
    var present: set<int>
    var buffered: map<int, seq<char>>
    var received: map<int, seq<char>>
    var delivered: map<int, seq<char>>

    function Threads(): C.State
      reads this
    {
      C.State(C.Rules(false, true, true), waitToHandleFD, readers, handler, present, buffered, received, delivered)
    }

    function Abs(): State
      reads this
    {
      State(Threads(), B.State(barrier, place))
    }

    ghost predicate Valid()
      reads this
    {
      |readers| == size && |place| == size + 1 && Reaches(Next, Init(true, size), Abs())
    }

    /** No two threads have been within the barrier together so far. */
    ghost predicate Unmet()
      reads this
    {
      Reaches(Apart, Init(true, size), Abs())
    }

    constructor (size: nat)
      ensures Valid() && Unmet() && this.size == size && Abs() == GuardedReadiness.Init(true, size)
    {
      this.size, barrier, place := size, false, seq(size + 1, _ => B.Outside);
      waitToHandleFD, readers, handler, present := map[], seq(size, _ => C.Idle), C.Resting, {};
      buffered, received, delivered := map[], map[], map[];
      new;
      ReachesSelf(Next, GuardedReadiness.Init(true, size));
      ReachesSelf(Apart, GuardedReadiness.Init(true, size));
    }

    ghost method Advance(before: State, l: Label)
      requires Reaches(Next, GuardedReadiness.Init(true, size), before) && Next(before, l) == Some(Abs())
      ensures Reaches(Next, GuardedReadiness.Init(true, size), Abs())
    {
      var after := ReachesStep(Next, GuardedReadiness.Init(true, size), before, l);
    }

    // ---------------------------------------------------------------- steps of the readers

    /** Channel::Read has appended bytes to the receive buffer. */
    method ReceiveBytes(r: nat, fd: int, bytes: seq<char>)
      requires Valid() && Next(Abs(), Center(C.Receive(r, fd, bytes))).Some?
      modifies this
      ensures Valid() && Next(old(Abs()), Center(C.Receive(r, fd, bytes))) == Some(Abs())
    {
      readers := readers[r := C.Owes(fd)];
      buffered := buffered[fd := C.Get(buffered, fd) + bytes];
      received := received[fd := C.Get(received, fd) + bytes];
      Advance(old(Abs()), Center(C.Receive(r, fd, bytes)));
    }

    method FindEntry(r: nat) returns (found: bool)
      requires Valid() && Next(Abs(), Center(C.Find(r))).Some?
      modifies this
      ensures Valid() && Next(old(Abs()), Center(C.Find(r))) == Some(Abs())
      ensures if found then readers[r].Found? else readers[r].Inserting?
    {
      var fd := readers[r].fd;
      found := fd in waitToHandleFD;
      readers := readers[r := if found then C.Found(fd) else C.Inserting(fd)];
      Advance(old(Abs()), Center(C.Find(r)));
    }

    /** emplace: an existing entry stays. */
    method InsertEntry(r: nat)
      requires Valid() && Next(Abs(), Center(C.Insert(r))).Some?
      modifies this
      ensures Valid() && Next(old(Abs()), Center(C.Insert(r))) == Some(Abs())
    {
      var fd := readers[r].fd;
      if fd !in waitToHandleFD {
        waitToHandleFD := waitToHandleFD[fd := C.MORE];
      }
      readers := readers[r := C.Idle];
      Advance(old(Abs()), Center(C.Insert(r)));
    }

    method LoadCounter(r: nat)
      requires Valid() && Next(Abs(), Center(C.Load(r))).Some?
      modifies this
      ensures Valid() && Next(old(Abs()), Center(C.Load(r))) == Some(Abs())
    {
      var fd := readers[r].fd;
      readers := readers[r := C.Raising(fd, waitToHandleFD[fd])];
      Advance(old(Abs()), Center(C.Load(r)));
    }

    method StoreCounter(r: nat)
      requires Valid() && Next(Abs(), Center(C.Store(r))).Some?
      modifies this
      ensures Valid() && Next(old(Abs()), Center(C.Store(r))) == Some(Abs())
    {
      var fd, seen := readers[r].fd, readers[r].seen;
      if seen == C.MORE {
        waitToHandleFD := waitToHandleFD[fd := C.MOREPLUS];
      } else if seen == C.ONE {
        waitToHandleFD := waitToHandleFD[fd := C.MORE];
      }
      readers := readers[r := C.Idle];
      Advance(old(Abs()), Center(C.Store(r)));
    }

    /** Channel::Read has met the end of the stream behind `bytes`; NotifyClose erases the entry. */
    method NotifyClose(r: nat, fd: int, bytes: seq<char>)
      requires Valid() && Next(Abs(), Center(C.Close(r, fd, bytes))).Some?
      modifies this
      ensures Valid() && Next(old(Abs()), Center(C.Close(r, fd, bytes))) == Some(Abs())
    {
      if fd in waitToHandleFD {
        waitToHandleFD := waitToHandleFD - {fd};
      }
      assert waitToHandleFD == old(waitToHandleFD) - {fd};
      buffered := buffered[fd := []];
      received := received[fd := C.Get(received, fd) + bytes];
      Advance(old(Abs()), Center(C.Close(r, fd, bytes)));
    }

    /** Channels are taken out of the dispatcher's table or put back. */
    method SetPresent(fds: set<int>)
      requires Valid()
      modifies this
      ensures Valid() && Next(old(Abs()), Center(C.Present(fds))) == Some(Abs())
    {
      present := fds;
      Advance(old(Abs()), Center(C.Present(fds)));
    }

    // ---------------------------------------------------------------- steps of the handler

    method CopyTable()
      requires Valid() && Next(Abs(), Center(C.Copy)).Some?
      modifies `handler
      ensures Valid() && Next(old(Abs()), Center(C.Copy)) == Some(Abs())
    {
      handler := C.Looping(waitToHandleFD, waitToHandleFD.Keys);
      Advance(old(Abs()), Center(C.Copy));
    }

    method SkipEntry(fd: int)
      requires Valid() && Next(Abs(), Center(C.Skip(fd))).Some?
      modifies this
      ensures Valid() && Next(old(Abs()), Center(C.Skip(fd))) == Some(Abs())
    {
      handler := C.Looping(handler.copy, handler.todo - {fd});
      Advance(old(Abs()), Center(C.Skip(fd)));
    }

    /** GetReceivedData of the channel, handed to the thread pool. */
    method TakeBytes(fd: int) returns (data: seq<char>)
      requires Valid() && Next(Abs(), Center(C.Take(fd))).Some?
      modifies this
      ensures Valid() && Next(old(Abs()), Center(C.Take(fd))) == Some(Abs())
      ensures data == RS.Payload(C.Get(old(buffered), fd))
    {
      data := RS.Payload(C.Get(buffered, fd));
      handler := C.Took(handler.copy, handler.todo - {fd}, fd);
      buffered := buffered[fd := []];
      delivered := delivered[fd := C.Get(delivered, fd) + data];
      Advance(old(Abs()), Center(C.Take(fd)));
    }

    method LoadForLowering()
      requires Valid() && Next(Abs(), Center(C.LoadDown)).Some?
      modifies this
      ensures Valid() && Next(old(Abs()), Center(C.LoadDown)) == Some(Abs())
    {
      handler := C.Lowering(handler.copy, handler.todo, handler.fd, waitToHandleFD[handler.fd]);
      Advance(old(Abs()), Center(C.LoadDown));
    }

    method StoreLowered()
      requires Valid() && Next(Abs(), Center(C.StoreDown)).Some?
      modifies this
      ensures Valid() && Next(old(Abs()), Center(C.StoreDown)) == Some(Abs())
    {
      var fd, seen := handler.fd, handler.seen;
      if seen == C.MOREPLUS {
        waitToHandleFD := waitToHandleFD[fd := C.MORE];
      } else if seen == C.MORE {
        waitToHandleFD := waitToHandleFD[fd := C.ONE];
      }
      handler := C.Looping(handler.copy, handler.todo);
      Advance(old(Abs()), Center(C.StoreDown));
    }

    method EndBatch()
      requires Valid() && Next(Abs(), Center(C.Done)).Some?
      modifies `handler
      ensures Valid() && Next(old(Abs()), Center(C.Done)) == Some(Abs())
    {
      handler := C.Resting;
      Advance(old(Abs()), Center(C.Done));
    }

    // ---------------------------------------------------------------- steps of the barrier

    method Arrive(t: nat)
      requires Valid() && Next(Abs(), Gate(B.Arrive(t))).Some?
      modifies this
      ensures Valid() && Next(old(Abs()), Gate(B.Arrive(t))) == Some(Abs())
    {
      place := place[t := B.Entering];
      Advance(old(Abs()), Gate(B.Arrive(t)));
    }

    /** exchange(true) of the entering loop or exchange(false) of the leaving one; `was` is what it returns. */
    method Exchange(t: nat) returns (was: bool)
      requires Valid() && Next(Abs(), Gate(B.Exchange(t))).Some?
      modifies this
      ensures Valid() && Next(old(Abs()), Gate(B.Exchange(t))) == Some(Abs()) && was == old(barrier)
    {
      var entering := place[t].Entering?;
      was, barrier := barrier, entering;
      if was {
        place := place[t := if entering then B.Within else B.Outside];
      }
      Advance(old(Abs()), Gate(B.Exchange(t)));
    }

    method FinishUpdate(t: nat)
      requires Valid() && Next(Abs(), Gate(B.Finish(t))).Some?
      modifies this
      ensures Valid() && Next(old(Abs()), Gate(B.Finish(t))) == Some(Abs())
    {
      place := place[t := B.Leaving];
      Advance(old(Abs()), Gate(B.Finish(t)));
    }

    // ---------------------------------------------------------------- other threads

    /** Any step of any thread. */
    method Perform(l: Label)
      requires Valid() && Next(Abs(), l).Some?
      modifies this
      ensures Valid() && Next(old(Abs()), l) == Some(Abs())
    {
      match l
      case Center(step) => PerformCenter(step);
      case Gate(Arrive(t)) => Arrive(t);
      case Gate(Exchange(t)) => var was := Exchange(t);
      case Gate(Finish(t)) => FinishUpdate(t);
    }

    method PerformCenter(l: C.Label)
      requires Valid() && Next(Abs(), Center(l)).Some?
      modifies this
      ensures Valid() && Next(old(Abs()), Center(l)) == Some(Abs())
    {
      match l
      case Receive(r, fd, bytes) => ReceiveBytes(r, fd, bytes);
      case Find(r) => var found := FindEntry(r);
      case Insert(r) => InsertEntry(r);
      case Load(r) => LoadCounter(r);
      case Store(r) => StoreCounter(r);
      case Close(r, fd, bytes) => NotifyClose(r, fd, bytes);
      case Present(fds) => SetPresent(fds);
      case Copy => CopyTable();
      case Skip(fd) => SkipEntry(fd);
      case Take(fd) => var data := TakeBytes(fd);
      case LoadDown => LoadForLowering();
      case StoreDown => StoreLowered();
      case Done => EndBatch();
    }

    /** What other threads leave as it is for thread `me`. */
    predicate Untouched(me: nat, before: State)
      reads this
    {
      Kept(me, before, Abs())
    }

    /** A step of another thread than `me`, if it is possible. */
    method OtherThread(me: nat, l: Label)
      requires Valid() && me <= size
      modifies this
      ensures Valid() && Untouched(me, old(Abs()))
      ensures Abs() == OthersDo(me, old(Abs()), [l])
    {
      assert [l][..0] == [];
      if !Mine(Abs(), me, l) && Next(Abs(), l).Some? {
        OthersKeep(Abs(), me, l);
        Perform(l);
      }
    }

    /** A point where a thread can be interrupted: the others perform the next slice of the schedule,
        nothing once the schedule is used up. */
    method Yield(me: nat, schedule: seq<seq<Label>>, before: nat) returns (used: nat)
      requires Valid() && me <= size && before <= |schedule|
      modifies this
      ensures Valid() && Untouched(me, old(Abs()))
      ensures used == if before < |schedule| then before + 1 else before
      ensures Abs() == if before < |schedule| then OthersDo(me, old(Abs()), schedule[before]) else old(Abs())
    {
      used := before;
      if used < |schedule| {
        OtherThreads(me, schedule[used]);
        used := used + 1;
      }
    }

    method OtherThreads(me: nat, ls: seq<Label>)
      requires Valid() && me <= size
      modifies this
      ensures Valid() && Untouched(me, old(Abs())) && Abs() == OthersDo(me, old(Abs()), ls)
    {
      for i := 0 to |ls|
        invariant Valid() && Untouched(me, old(Abs())) && Abs() == OthersDo(me, old(Abs()), ls[..i])
      {
        assert ls[..i + 1][..i] == ls[..i];
        OtherThread(me, ls[i]);
      }
      assert ls[..|ls|] == ls;
    }

    // ---------------------------------------------------------------- the exchange loops

    /** The loop before the update: exchange with true until the old value was true. */
    method Enter(me: nat, schedule: seq<seq<Label>>, before: nat) returns (used: nat)
      requires Valid() && me <= size && before <= |schedule|
      requires place[me].Outside? && Arriving(Threads(), me)
      modifies this
      ensures Valid() && used <= |schedule| && place[me].Within?
      ensures if me < size then readers[me] == old(readers[me])
              else handler == old(handler) && delivered == old(delivered)
      ensures schedule == [] ==> Abs() == old(State(Threads(), B.State(true, place[me := B.Within])))
    {
      Arrive(me);
      used := before;
      var was := false;
      while !was
        invariant Valid() && used <= |schedule| && place[me] == if was then B.Within else B.Entering
        invariant if me < size then readers[me] == old(readers[me])
                  else handler == old(handler) && delivered == old(delivered)
        invariant schedule == [] ==>
                    && Threads() == old(Threads()) && (was ==> barrier)
                    && place == old(place)[me := if was then B.Within else B.Entering]
        decreases |schedule| - used, !barrier, !was
      {
        used := Yield(me, schedule, used);
        was := Exchange(me);
      }
    }

    /** The loop after the update: exchange with false until the old value was true.  It is not left if, when
        the schedule is over, the flag is not set: then the thread spins. */
    method Leave(me: nat, schedule: seq<seq<Label>>, before: nat) returns (left: bool, used: nat)
      requires Valid() && me <= size && before <= |schedule|
      requires place[me].Within? && Updated(Threads(), me)
      modifies this
      ensures Valid() && used <= |schedule| && place[me] == if left then B.Outside else B.Leaving
      ensures if me < size then readers[me] == old(readers[me])
              else handler == old(handler) && delivered == old(delivered)
      ensures !left ==> used == |schedule| && !barrier
      ensures schedule == [] ==> left == old(barrier) && Threads() == old(Threads())
      ensures schedule == [] && left ==> place == old(place)[me := B.Outside]
    {
      FinishUpdate(me);
      left, used := false, before;
      var over := false;
      while !left && !over
        invariant Valid() && used <= |schedule| && place[me] == if left then B.Outside else B.Leaving
        invariant if me < size then readers[me] == old(readers[me])
                  else handler == old(handler) && delivered == old(delivered)
        invariant over ==> used == |schedule| && (left || !barrier)
        invariant schedule == [] ==>
                    && Threads() == old(Threads()) && (over ==> left == old(barrier))
                    && (left ==> over) && (!over ==> barrier == old(barrier))
                    && place == old(place)[me := if left then B.Outside else B.Leaving]
        decreases |schedule| - used, !over
      {
        over := used == |schedule|;
        used := Yield(me, schedule, used);
        left := Exchange(me);
      }
    }

    // ---------------------------------------------------------------- the handler

    /** The update within the barrier after the bytes of a descriptor were taken. */
    method Lower(schedule: seq<seq<Label>>, before: nat) returns (used: nat)
      requires Valid() && before <= |schedule| && place[size].Within? && handler.Took?
      modifies this
      ensures Valid() && used <= |schedule| && place[size].Within? && delivered == old(delivered)
      ensures handler == C.Looping(old(handler).copy, old(handler).todo)
      ensures schedule == [] ==>
                && present == old(present) && buffered == old(buffered)
                && place == old(place) && barrier == old(barrier)
      ensures schedule == [] ==> LoweredAt(old(handler).fd, old(waitToHandleFD), waitToHandleFD)
    {
      Structure(size, Abs());
      LoadForLowering();
      used := Yield(size, schedule, before);
      Structure(size, Abs());
      StoreLowered();
    }

    /** The guarded update.  It is not left if the handler ends up spinning in the barrier. */
    method LowerCounter(schedule: seq<seq<Label>>, before: nat) returns (left: bool, used: nat)
      requires Valid() && before <= |schedule| && place[size].Outside? && handler.Took?
      modifies this
      ensures Valid() && used <= |schedule| && delivered == old(delivered)
      ensures handler == C.Looping(old(handler).copy, old(handler).todo)
      ensures if left then place[size].Outside? else place[size].Leaving? && !barrier && used == |schedule|
      ensures schedule == [] ==> left && present == old(present) && buffered == old(buffered)
      ensures schedule == [] ==> LoweredAt(old(handler).fd, old(waitToHandleFD), waitToHandleFD)
    {
      used := Enter(size, schedule, before);
      used := Lower(schedule, used);
      left, used := Leave(size, schedule, used);
    }

    /** The turn that takes bytes. */
    method TakeAndLower(fd: int, schedule: seq<seq<Label>>, before: nat)
      returns (left: bool, used: nat, data: seq<char>)
      requires Valid() && before <= |schedule| && place[size].Outside?
      requires handler.Looping? && fd in handler.todo && fd in handler.copy
      requires fd in present && handler.copy[fd] != C.ONE
      modifies this
      ensures Valid() && used <= |schedule| && HandedOne(old(delivered), delivered, (fd, data))
      ensures handler == C.Looping(old(handler).copy, old(handler).todo - {fd})
      ensures if left then place[size].Outside? else place[size].Leaving? && !barrier && used == |schedule|
      ensures schedule == [] ==>
                && left && present == old(present)
                && data == RS.Payload(C.Get(old(buffered), fd)) && Without(old(buffered), buffered, fd)
      ensures schedule == [] ==> LoweredAt(fd, old(waitToHandleFD), waitToHandleFD)
    {
      data := TakeBytes(fd);
      left, used := LowerCounter(schedule, before);
    }

    /** One turn of the loop of HandleReadyData. */
    method Visit(fd: int, schedule: seq<seq<Label>>, before: nat)
      returns (left: bool, used: nat, took: bool, data: seq<char>)
      requires Valid() && before <= |schedule| && place[size].Outside?
      requires handler.Looping? && fd in handler.todo && fd in handler.copy
      modifies this
      ensures Valid() && used <= |schedule|
      ensures if took then HandedOne(old(delivered), delivered, (fd, data)) else delivered == old(delivered)
      ensures handler == C.Looping(old(handler).copy, old(handler).todo - {fd})
      ensures if left then place[size].Outside? else place[size].Leaving? && !barrier && used == |schedule|
      ensures schedule == [] ==>
                && left && present == old(present) && took == (fd in present && old(handler).copy[fd] != C.ONE)
                && if took then
                     && data == RS.Payload(C.Get(old(buffered), fd)) && Without(old(buffered), buffered, fd)
                     && LoweredAt(fd, old(waitToHandleFD), waitToHandleFD)
                   else buffered == old(buffered) && waitToHandleFD == old(waitToHandleFD)
    {
      used := Yield(size, schedule, before);
      took := fd in present && handler.copy[fd] != C.ONE;
      if took {
        left, used, data := TakeAndLower(fd, schedule, used);
      } else {
        SkipEntry(fd);
        left, data := true, [];
      }
    }

    /** The readers are idle, every channel with waiting bytes can be found, the handler is outside of the
        barrier, and no two threads have met in it so far. */
    ghost predicate QuietWithChannels()
      reads this
    {
      && Valid() && Unmet() && place[size].Outside?
      && (forall r :: 0 <= r < |readers| ==> readers[r].Idle?)
      && forall fd :: C.Get(buffered, fd) != [] ==> fd in present
    }

    method StartBatch()
      requires Valid() && handler.Resting? && place[size].Outside?
      modifies `handler
      ensures Valid() && place[size].Outside? && handler == C.Looping(waitToHandleFD, waitToHandleFD.Keys)
    {
      CopyTable();
    }

    /** Where nobody has met in the barrier and the readers are idle, the batch will visit all waiting bytes. */
    lemma AllFlagged()
      requires QuietWithChannels() && handler.Resting?
      ensures forall fd :: C.Get(buffered, fd) != [] ==> Visited(waitToHandleFD, {}, present, fd)
    {
      ApartInv(size, Abs());
      forall fd | C.Get(buffered, fd) != [] ensures Visited(waitToHandleFD, {}, present, fd) {
        T.IdleReadersFlagged(Exclusively(Threads()), fd);
      }
    }

    /** What the batch has done so far, undisturbed: see RoundAt. */
    ghost predicate InRound(start: map<int, seq<char>>, there: set<int>, batch: seq<(int, seq<char>)>)
      reads this
    {
      && handler.Looping? && handler.todo <= handler.copy.Keys && present == there
      && Round(handler.copy, handler.todo, present, waitToHandleFD, start, buffered, batch)
      && Tasks(handler.copy, handler.todo, present, batch)
    }

    /** Some turn of the loop. */
    method VisitNext(schedule: seq<seq<Label>>, before: nat, batch: seq<(int, seq<char>)>,
                     ghost handed: map<int, seq<char>>, ghost start: map<int, seq<char>>, ghost there: set<int>)
      returns (left: bool, used: nat, result: seq<(int, seq<char>)>)
      requires Valid() && before <= |schedule| && place[size].Outside?
      requires handler.Looping? && handler.todo != {} && handler.todo <= handler.copy.Keys
      requires Handed(handed, delivered, batch)
      modifies this
      ensures Valid() && used <= |schedule| && Handed(handed, delivered, result)
      ensures handler.Looping? && handler.copy == old(handler).copy && handler.todo < old(handler).todo
      ensures if left then place[size].Outside? else place[size].Leaving? && !barrier && used == |schedule|
      ensures schedule == [] && old(InRound(start, there, batch)) ==> left && InRound(start, there, result)
    {
      var fd := AnyOf(handler.todo);
      ghost var alone := schedule == [] && InRound(start, there, batch);
      ghost var copy, todo, table, now := handler.copy, handler.todo, waitToHandleFD, buffered;
      var took, data;
      left, used, took, data := Visit(fd, schedule, before);
      result := if took then batch + [(fd, data)] else batch;
      if took {
        HandedMore(handed, old(delivered), delivered, batch, (fd, data));
      }
      if alone {
        TasksMore(copy, todo, there, batch, fd, data);
        if took {
          RoundMore(copy, todo, there, table, start, now, batch, fd, waitToHandleFD, buffered, data);
        } else {
          RoundSkip(copy, todo, there, table, start, now, batch, fd);
        }
      }
    }

    method FinishBatch()
      requires Valid() && handler.Looping? && handler.todo == {} && place[size].Outside?
      modifies `handler
      ensures Valid() && handler.Resting? && place[size].Outside?
    {
      EndBatch();
    }

    /** HandleReadyData, with the other threads running between its steps as the schedule says.  What it
        hands to the thread pool is exactly what the protocol counts as delivered; if it is not done, it
        spins in the barrier.  Undisturbed, it makes one task for each descriptor whose channel is in place and
        whose counter is above ONE, with the first 128 waiting bytes or all of them, empties its buffer and
        lowers its counter by one; nothing else changes.  If nobody has met in the barrier so far, the readers
        are idle and every channel is in place, this empties all buffers. */
    method HandleReadyData(schedule: seq<seq<Label>>) returns (done: bool, result: seq<(int, seq<char>)>)
      requires Valid() && handler.Resting? && place[size].Outside?
      modifies this
      ensures Valid() && if done then handler.Resting? && place[size].Outside? else place[size].Leaving? && !barrier
      ensures Handed(old(delivered), delivered, result)
      ensures schedule == [] ==>
                && done && present == old(present)
                && Round(old(waitToHandleFD), {}, present, waitToHandleFD, old(buffered), buffered, result)
                && Tasks(old(waitToHandleFD), {}, present, result)
      ensures schedule == [] ==>
                && waitToHandleFD.Keys == old(waitToHandleFD).Keys
                && forall fd :: fd in waitToHandleFD ==>
                     waitToHandleFD[fd] == if fd !in present then old(waitToHandleFD)[fd]
                                           else if old(waitToHandleFD)[fd] == C.MOREPLUS then C.MORE else C.ONE
      ensures schedule == [] && old(QuietWithChannels()) ==> forall fd :: C.Get(buffered, fd) == []
    {
      if QuietWithChannels() {
        AllFlagged();
      }
      StartBatch();
      result, done := [], true;
      var used: nat := 0;
      while done && handler.todo != {}
        invariant Valid() && used <= |schedule| && Handed(old(delivered), delivered, result)
        invariant handler.Looping? && handler.todo <= handler.copy.Keys && handler.copy == old(waitToHandleFD)
        invariant if done then place[size].Outside? else place[size].Leaving? && !barrier
        invariant schedule == [] ==> done && InRound(old(buffered), old(present), result)
        decreases handler.todo
      {
        done, used, result := VisitNext(schedule, used, result, old(delivered), old(buffered), old(present));
      }
      if done {
        FinishBatch();
      }
      if schedule == [] {
        RoundMeans(old(waitToHandleFD), present, waitToHandleFD, old(buffered), buffered, result);
      }
    }

    /** The serving loop of the example, undisturbed, for a number of rounds.  A descriptor whose channel is in
        place gets a task in as many of the first rounds as its counter says (one for MORE, two for MOREPLUS),
        and none later; what is left of the counter is what has not been served. */
    method Serve(rounds: nat) returns (batches: seq<seq<(int, seq<char>)>>)
      requires Valid() && handler.Resting? && place[size].Outside?
      modifies this
      ensures Valid() && handler.Resting? && place[size].Outside? && present == old(present)
      ensures |batches| == rounds && waitToHandleFD.Keys == old(waitToHandleFD).Keys
      ensures forall k, fd :: 0 <= k < rounds ==>
                (TaskFor(batches[k], fd)
                 <==> fd in old(waitToHandleFD) && fd in present && k < Worth(old(waitToHandleFD)[fd]))
      ensures forall fd :: fd in waitToHandleFD ==>
                if fd !in present then waitToHandleFD[fd] == old(waitToHandleFD)[fd]
                else Worth(waitToHandleFD[fd]) == LessBy(Worth(old(waitToHandleFD)[fd]), rounds)
      ensures rounds >= 2 ==> forall fd :: fd in waitToHandleFD && fd in present ==> waitToHandleFD[fd] == C.ONE
    {
      batches := [];
      for k := 0 to rounds
        invariant Valid() && handler.Resting? && place[size].Outside? && present == old(present)
        invariant |batches| == k && Served(old(waitToHandleFD), present, waitToHandleFD, k)
        invariant forall i, fd :: 0 <= i < k ==>
                    (TaskFor(batches[i], fd)
                     <==> fd in old(waitToHandleFD) && fd in present && i < Worth(old(waitToHandleFD)[fd]))
      {
        var done, batch := HandleReadyData([]);
        batches := batches + [batch];
      }
    }

    // ---------------------------------------------------------------- the readers

    /** The update within the barrier of an entry that was found. */
    method RaiseWithin(r: nat, schedule: seq<seq<Label>>, before: nat) returns (used: nat)
      requires Valid() && before <= |schedule| && r < size && place[r].Within? && readers[r].Found?
      modifies this
      ensures Valid() && used <= |schedule| && place[r].Within? && readers[r].Idle?
      ensures schedule == [] ==>
                var fd := old(readers[r].fd);
                && readers == old(readers)[r := C.Idle] && fd in old(waitToHandleFD)
                && waitToHandleFD == old(waitToHandleFD)[fd := Raised(fd, old(waitToHandleFD))]
                && place == old(place) && barrier == old(barrier)
    {
      Structure(size, Abs());
      LoadCounter(r);
      used := Yield(r, schedule, before);
      Structure(size, Abs());
      StoreCounter(r);
    }

    /** The guarded update.  It is not left if the reader ends up spinning in the barrier. */
    method RaiseCounter(r: nat, schedule: seq<seq<Label>>, before: nat) returns (left: bool)
      requires Valid() && before <= |schedule| && r < size && place[r].Outside? && readers[r].Found?
      modifies this
      ensures Valid() && readers[r].Idle? && if left then place[r].Outside? else place[r].Leaving? && !barrier
      ensures schedule == [] ==>
                var fd := old(readers[r].fd);
                && left && readers == old(readers)[r := C.Idle] && place == old(place)
                && waitToHandleFD == old(waitToHandleFD)[fd := Raised(fd, old(waitToHandleFD))]
    {
      var used := Enter(r, schedule, before);
      used := RaiseWithin(r, schedule, used);
      left, used := Leave(r, schedule, used);
    }

    method LookUpEntry(r: nat) returns (found: bool)
      requires Valid() && r < size && place[r].Outside? && readers[r].Owes?
      modifies this
      ensures Valid() && place == old(place) && waitToHandleFD == old(waitToHandleFD)
      ensures var fd := old(readers)[r].fd;
              readers == old(readers)[r := if found then C.Found(fd) else C.Inserting(fd)]
      ensures found == (old(readers)[r].fd in waitToHandleFD)
    {
      found := FindEntry(r);
    }

    method AddEntry(r: nat)
      requires Valid() && r < size && place[r].Outside? && readers[r].Inserting?
      modifies this
      ensures Valid() && place == old(place) && readers == old(readers)[r := C.Idle]
      ensures var fd := old(readers)[r].fd;
              waitToHandleFD == if fd in old(waitToHandleFD) then old(waitToHandleFD)
                                else old(waitToHandleFD)[fd := C.MORE]
    {
      InsertEntry(r);
    }

    /** NotifyDataReady, with other threads running between its steps as the schedule says.  Afterwards the
        reader owes nothing more; if it is not done, it spins in the barrier.  Undisturbed, it makes the
        counter one higher, up to MOREPLUS, starting at MORE. */
    method NotifyDataReady(r: nat, schedule: seq<seq<Label>>) returns (done: bool)
      requires Valid() && r < size && place[r].Outside? && readers[r].Owes?
      modifies this
      ensures Valid() && readers[r].Idle? && if done then place[r].Outside? else place[r].Leaving? && !barrier
      ensures schedule == [] ==>
                var fd := old(readers[r].fd);
                && done && readers == old(readers)[r := C.Idle] && place == old(place)
                && waitToHandleFD == old(waitToHandleFD)[fd := Raised(fd, old(waitToHandleFD))]
    {
      var used := Yield(r, schedule, 0);
      var found := LookUpEntry(r);
      used := Yield(r, schedule, used);
      if found {
        done := RaiseCounter(r, schedule, used);
      } else {
        AddEntry(r);
        done := true;
      }
    }
  }
}
