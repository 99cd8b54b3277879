/** The readiness protocol between the threads that read sockets and the one thread that handles the
    bytes: a saturating counter per descriptor in a shared table.  Finding an entry, loading its counter
    and storing it back are separate steps, so threads can interleave inside an update unless the barrier
    around it is exclusive.  What the barrier does, how far the counter counts, and when a descriptor may
    be closed are parameters; see GuardedReadiness for the barrier as it is written. */
module Readiness {
  import RS = ReceiveStream

  import opened Runs

  datatype Count = ONE | MORE | MOREPLUS

  /** A thread in Channel::Read followed by NotifyDataReady. */
  datatype Reader =
    | Idle
    | Owes(fd: int)                    // has read bytes, has not looked for the entry
    | Inserting(fd: int)               // found no entry
    | Found(fd: int)                   // found an entry
    | Raising(fd: int, seen: Count)    // inside the barrier, has loaded the counter

  /** The thread in HandleReadyData. */
  datatype Handler =
    | Resting
    | Looping(copy: map<int, Count>, todo: set<int>)
    | Took(copy: map<int, Count>, todo: set<int>, fd: int)
    | Lowering(copy: map<int, Count>, todo: set<int>, fd: int, seen: Count)

  datatype Rules = Rules(
    exclusive: bool,  // the barrier keeps a second thread out
    three: bool,      // the counter knows MOREPLUS
    polite: bool      // no descriptor is closed during a batch, or while a reader holds its entry
  )

  datatype State = State(
    rules: Rules,
    table: map<int, Count>,       // _waitToHandleFD
    readers: seq<Reader>,
    handler: Handler,
    present: set<int>,            // descriptors whose channel GetChannel finds
    buffered: map<int, seq<char>>,   // bytes in the channels' receive buffers
    received: map<int, seq<char>>,   // history: bytes read from the sockets
    delivered: map<int, seq<char>>   // history: bytes given to tasks
  )

  datatype Label =
    | Receive(r: nat, fd: int, bytes: seq<char>)
    | Find(r: nat) | Insert(r: nat) | Load(r: nat) | Store(r: nat)
    | Close(r: nat, fd: int, bytes: seq<char>)  // the last read, which also meets the end of the stream
    | Present(fds: set<int>)
    | Copy | Skip(fd: int) | Take(fd: int) | LoadDown | StoreDown | Done

  function Init(rules: Rules, readers: nat): State {
    State(rules, map[], seq(readers, _ => Idle), Resting, {}, map[], map[], map[])
  }

  function Get(m: map<int, seq<char>>, fd: int): seq<char> {
    if fd in m then m[fd] else []
  }

  function Raise(three: bool, c: Count): Count {
    if c == MORE && three then MOREPLUS else if c == ONE then MORE else c
  }

  function Lower(c: Count): Count {
    if c == MOREPLUS then MORE else if c == MORE then ONE else c
  }

  /** Some thread is between loading and storing a counter. */
  predicate Inside(s: State) {
    s.handler.Lowering? || exists r :: 0 <= r < |s.readers| && s.readers[r].Raising?
  }

  predicate CanEnter(s: State) {
    s.rules.exclusive ==> !Inside(s)
  }

  predicate CanClose(s: State, fd: int) {
    s.rules.polite ==>
      && s.handler.Resting?
      && forall r :: 0 <= r < |s.readers| && (s.readers[r].Found? || s.readers[r].Raising?) ==> s.readers[r].fd != fd
  }

  function Put(s: State, r: nat, phase: Reader): State
    requires r < |s.readers|
  {
    s.(readers := s.readers[r := phase])
  }

  function Next(s: State, l: Label): Option<State> {
    match l
    case Receive(r, fd, bytes) =>
      if r < |s.readers| && s.readers[r].Idle? then
        Some(Put(s, r, Owes(fd)).(
          buffered := s.buffered[fd := Get(s.buffered, fd) + bytes],
          received := s.received[fd := Get(s.received, fd) + bytes]))
      else None
    case Find(r) =>
      if r < |s.readers| && s.readers[r].Owes? then
        var fd := s.readers[r].fd;
        Some(Put(s, r, if fd in s.table then Found(fd) else Inserting(fd)))
      else None
    case Insert(r) =>
      if r < |s.readers| && s.readers[r].Inserting? then
        var fd := s.readers[r].fd;
        Some(Put(s, r, Idle).(table := if fd in s.table then s.table else s.table[fd := MORE]))
      else None
    case Load(r) =>
      if r < |s.readers| && s.readers[r].Found? && s.readers[r].fd in s.table && CanEnter(s) then
        var fd := s.readers[r].fd;
        Some(Put(s, r, Raising(fd, s.table[fd])))
      else None
    case Store(r) =>
      if r < |s.readers| && s.readers[r].Raising? && s.readers[r].fd in s.table then
        var Raising(fd, seen) := s.readers[r];
        var after := Raise(s.rules.three, seen);
        Some(Put(s, r, Idle).(table := if after == seen then s.table else s.table[fd := after]))
      else None
    case Close(r, fd, bytes) =>
      if r < |s.readers| && s.readers[r].Idle? && CanClose(s, fd) then
        Some(s.(
          table := s.table - {fd},
          buffered := s.buffered[fd := []],
          received := s.received[fd := Get(s.received, fd) + bytes]))
      else None
    case Present(fds) => Some(s.(present := fds))
    case Copy =>
      if s.handler.Resting? then Some(s.(handler := Looping(s.table, s.table.Keys))) else None
    case Skip(fd) =>
      if s.handler.Looping? && fd in s.handler.todo && fd in s.handler.copy
         && (fd !in s.present || s.handler.copy[fd] == ONE) then
        Some(s.(handler := Looping(s.handler.copy, s.handler.todo - {fd})))
      else None
    case Take(fd) =>
      if s.handler.Looping? && fd in s.handler.todo && fd in s.handler.copy
         && fd in s.present && s.handler.copy[fd] != ONE then
        Some(s.(
          handler := Took(s.handler.copy, s.handler.todo - {fd}, fd),
          buffered := s.buffered[fd := []],
          delivered := s.delivered[fd := Get(s.delivered, fd) + RS.Payload(Get(s.buffered, fd))]))
      else None
    case LoadDown =>
      if s.handler.Took? && s.handler.fd in s.table && CanEnter(s) then
        var Took(copy, todo, fd) := s.handler;
        Some(s.(handler := Lowering(copy, todo, fd, s.table[fd])))
      else None
    case StoreDown =>
      if s.handler.Lowering? && s.handler.fd in s.table then
        var Lowering(copy, todo, fd, seen) := s.handler;
        Some(s.(handler := Looping(copy, todo),
                table := if Lower(seen) == seen then s.table else s.table[fd := Lower(seen)]))
      else None
    case Done =>
      if s.handler.Looping? && s.handler.todo == {} then Some(s.(handler := Resting)) else None
  }

  /** The steps made inside the barrier. */
  predicate Guarded(l: Label) {
    l.Load? || l.Store? || l.LoadDown? || l.StoreDown?
  }

  /** The other steps, as a machine of their own. */
  function Unguarded(s: State, l: Label): Option<State> {
    if Guarded(l) then None else Next(s, l)
  }

  // ---------------------------------------------------------------- the invariant

  /** Between taking the bytes of fd and storing its lowered counter. */
  predicate HandlerAt(s: State, fd: int) {
    (s.handler.Took? || s.handler.Lowering?) && s.handler.fd == fd
  }

  /** The counter tells the handler to come (again). */
  predicate Flagged(s: State, fd: int) {
    fd in s.table && s.table[fd] != ONE && (HandlerAt(s, fd) ==> s.table[fd] == MOREPLUS)
  }

  /** Reader r still has to raise the counter of fd, or insert it. */
  predicate Owing(s: State, r: nat, fd: int) {
    && r < |s.readers| && !s.readers[r].Idle? && s.readers[r].fd == fd
    && (s.readers[r].Inserting? ==> fd !in s.table)
  }

  ghost predicate Covered(s: State, fd: int) {
    Flagged(s, fd) || exists r :: Owing(s, r, fd)
  }

  /** No entry is erased while somebody holds or copies it. */
  ghost predicate EntriesInv(s: State) {
    && s.rules.polite
    && (!s.handler.Resting? ==> s.handler.todo <= s.handler.copy.Keys <= s.table.Keys)
    && (s.handler.Took? || s.handler.Lowering? ==> s.handler.fd in s.table)
    && forall r :: 0 <= r < |s.readers| && (s.readers[r].Found? || s.readers[r].Raising?) ==> s.readers[r].fd in s.table
  }

  /** What was to be visited and is flagged in the copy is flagged in the table, and so is what was taken. */
  ghost predicate HandlerInv(s: State)
    requires EntriesInv(s)
  {
    && (!s.handler.Resting? ==> forall fd :: fd in s.handler.todo && s.handler.copy[fd] != ONE ==> s.table[fd] != ONE)
    && (s.handler.Took? || s.handler.Lowering? ==> s.handler.fd !in s.handler.todo && s.table[s.handler.fd] != ONE)
  }

  ghost predicate Inv(s: State) {
    && s.rules.three
    && EntriesInv(s)
    && HandlerInv(s)
    && (forall fd :: Get(s.buffered, fd) != [] ==> Covered(s, fd))
  }

  /** A store of a counter that has changed since it was loaded. */
  predicate Stale(s: State, l: Label) {
    match l
    case Store(r) =>
      && r < |s.readers| && s.readers[r].Raising? && s.readers[r].fd in s.table
      && s.table[s.readers[r].fd] != s.readers[r].seen
    case StoreDown => s.handler.Lowering? && s.handler.fd in s.table && s.table[s.handler.fd] != s.handler.seen
    case _ => false
  }

  lemma EntriesInvStep(s: State, l: Label)
    requires EntriesInv(s) && Next(s, l).Some?
    ensures EntriesInv(Next(s, l).value)
  {
  }

  lemma CoveredStep(s: State, l: Label, fd: int)
    requires Inv(s) && Next(s, l).Some? && !Stale(s, l)
    ensures var t := Next(s, l).value; Get(t.buffered, fd) != [] ==> Covered(t, fd)
  {
    var t := Next(s, l).value;
    if Get(t.buffered, fd) != [] {
      if l.Receive? && l.fd == fd {
        assert Owing(t, l.r, fd);
      } else {
        assert Covered(s, fd);
        if Flagged(s, fd) {
          assert !l.Take? || l.fd != fd;
          assert Flagged(t, fd);
        } else {
          var r :| Owing(s, r, fd);
          assert Owing(t, r, fd) || Flagged(t, fd);
        }
      }
    }
  }

  lemma HandlerInvStep(s: State, l: Label)
    requires Inv(s) && Next(s, l).Some? && !Stale(s, l)
    ensures EntriesInv(Next(s, l).value) && HandlerInv(Next(s, l).value)
  {
    EntriesInvStep(s, l);
  }

  /** Whatever the barrier does, waiting bytes stay covered by every step but a stale store. */
  lemma InvStep(s: State, l: Label)
    requires Inv(s) && Next(s, l).Some? && !Stale(s, l)
    ensures Inv(Next(s, l).value)
  {
    var t := Next(s, l).value;
    HandlerInvStep(s, l);
    forall fd | Get(t.buffered, fd) != [] ensures Covered(t, fd) {
      CoveredStep(s, l, fd);
    }
  }

  // ---------------------------------------------------------------- an excluding barrier

  ghost predicate ReaderAlone(s: State, r: nat)
    requires r < |s.readers| && EntriesInv(s)
  {
    && (s.readers[r].Raising? ==>
      && s.readers[r].seen == s.table[s.readers[r].fd]
      && !s.handler.Lowering?
      && forall q :: 0 <= q < |s.readers| && s.readers[q].Raising? ==> q == r)
  }

  /** At most one thread is inside an update, and the counter it has loaded is current. */
  ghost predicate Excluded(s: State)
    requires EntriesInv(s)
  {
    && s.rules.exclusive
    && (forall r :: 0 <= r < |s.readers| ==> ReaderAlone(s, r))
    && (s.handler.Lowering? ==> s.handler.seen == s.table[s.handler.fd])
  }

  lemma ReaderAloneStep(s: State, l: Label, r: nat)
    requires EntriesInv(s) && Excluded(s) && Next(s, l).Some? && r < |s.readers|
    ensures EntriesInv(Next(s, l).value) && ReaderAlone(Next(s, l).value, r)
  {
    EntriesInvStep(s, l);
    assert ReaderAlone(s, r);
    if (l.Store? || l.Load? || l.Insert? || l.Receive? || l.Find?) && l.r != r {
      assert ReaderAlone(s, l.r);
    }
  }

  /** So no store is stale. */
  lemma ExcludedStep(s: State, l: Label)
    requires EntriesInv(s) && Excluded(s) && Next(s, l).Some?
    ensures !Stale(s, l) && EntriesInv(Next(s, l).value) && Excluded(Next(s, l).value)
  {
    var t := Next(s, l).value;
    EntriesInvStep(s, l);
    forall r | 0 <= r < |t.readers| ensures ReaderAlone(t, r) {
      ReaderAloneStep(s, l, r);
    }
    if l.Store? {
      assert ReaderAlone(s, l.r);
    }
  }
}
