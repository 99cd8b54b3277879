/** What the readiness protocol guarantees: exactly which steps lose bytes of a stream, and that none of
    the others are left behind without a thread that will deliver them, exactly if the barrier excludes,
    the counter has its third value, and descriptors are not closed in the middle of a batch. */
module ReadinessTheorems {
  import RS = ReceiveStream

  import opened Runs
  import opened Readiness

  // ---------------------------------------------------------------- the streams

  /** The bytes delivered for fd, followed by those still buffered, are those read from its socket. */
  predicate InOrder(s: State, fd: int) {
    Get(s.received, fd) == Get(s.delivered, fd) + Get(s.buffered, fd)
  }

  /** The step takes while more than 128 bytes are waiting, or closes while any are. */
  predicate Loses(s: State, l: Label, fd: int) {
    || (l == Take(fd) && |Get(s.buffered, fd)| > RS.BUFSIZE)
    || (l.Close? && l.fd == fd && Get(s.buffered, fd) + l.bytes != [])
  }

  function Losing(fd: int): (State, Label) -> bool {
    (s, l) => Loses(s, l, fd)
  }

  /** More bytes were read than are delivered or buffered. */
  predicate Behind(s: State, fd: int) {
    |Get(s.delivered, fd)| + |Get(s.buffered, fd)| < |Get(s.received, fd)|
  }

  /** What the steps do to the stream of fd. */
  lemma StreamStep(s: State, l: Label, fd: int)
    requires Next(s, l).Some?
    ensures
      var t := Next(s, l).value;
      var bytes := if (l.Receive? || l.Close?) && l.fd == fd then l.bytes else [];
      && Get(t.received, fd) == Get(s.received, fd) + bytes
      && Get(t.delivered, fd) == Get(s.delivered, fd) + (if l == Take(fd) then RS.Payload(Get(s.buffered, fd)) else [])
      && Get(t.buffered, fd) == if l == Take(fd) || (l.Close? && l.fd == fd) then [] else Get(s.buffered, fd) + bytes
  {
  }

  lemma SameTail(a: seq<char>, b: seq<char>, x: seq<char>)
    ensures a + x == b + x <==> a == b
  {
    assert |a| == |b| ==> (a + x)[..|a|] == a && (b + x)[..|a|] == b;
  }

  /** The streams r, d and b after x was read, and b was taken from or dropped. */
  lemma OrderAfter(r: seq<char>, d: seq<char>, b: seq<char>, x: seq<char>, take: bool, close: bool)
    requires (r == d + b || |d| + |b| < |r|) && (take ==> x == [] && !close)
    ensures
      var r', d', b' := r + x, d + (if take then RS.Payload(b) else []), if take || close then [] else b + x;
      && (r' == d' + b' || |d'| + |b'| < |r'|)
      && (r' == d' + b' <==> r == d + b && !(take && |b| > RS.BUFSIZE) && !(close && b + x != []))
  {
    assert r + [] == r && d + [] == d && (d + RS.Payload(b)) + [] == d + RS.Payload(b);
    if !take && !close {
      SameTail(r, d + b, x);
      assert (d + b) + x == d + (b + x);
    }
  }

  lemma OrderStep(s: State, l: Label, fd: int)
    requires (InOrder(s, fd) || Behind(s, fd)) && Next(s, l).Some?
    ensures var t := Next(s, l).value; InOrder(t, fd) || Behind(t, fd)
    ensures var t := Next(s, l).value; InOrder(t, fd) <==> InOrder(s, fd) && !Loses(s, l, fd)
  {
    StreamStep(s, l, fd);
    var x := if (l.Receive? || l.Close?) && l.fd == fd then l.bytes else [];
    OrderAfter(Get(s.received, fd), Get(s.delivered, fd), Get(s.buffered, fd), x,
               l == Take(fd), l.Close? && l.fd == fd);
  }

  /** For every run, whatever the barrier, the counter and the closes do: per descriptor, the bytes delivered
      followed by those still buffered are the bytes read from its socket, exactly if no take found more
      than 128 bytes waiting and no close found any. */
  lemma {:induction false} StreamConservationIff(rules: Rules, readers: nat, ls: seq<Label>, s: State, fd: int)
    requires Run(Next, Init(rules, readers), ls) == Some(s)
    ensures InOrder(s, fd) <==> forall i :: !HappensAt(Next, Losing(fd), Init(rules, readers), ls, i)
  {
    var inv, good := (t: State) => InOrder(t, fd) || Behind(t, fd), (t: State) => InOrder(t, fd);
    forall t, l | inv(t) && Next(t, l).Some?
      ensures inv(Next(t, l).value) && (good(Next(t, l).value) <==> good(t) && !Losing(fd)(t, l))
    {
      OrderStep(t, l, fd);
    }
    RunUnspoilt(Next, inv, good, Losing(fd), Init(rules, readers), ls);
  }

  // ---------------------------------------------------------------- nobody is left behind

  lemma ReachableInv(readers: nat, s: State)
    requires Reaches(Next, Init(Rules(true, true, true), readers), s)
    ensures Inv(s)
  {
    var inv := (t: State) => Inv(t) && Excluded(t);
    forall t, l | inv(t) && Next(t, l).Some? ensures inv(Next(t, l).value) {
      ExcludedStep(t, l);
      InvStep(t, l);
    }
    ReachesKeeps(Next, inv, Init(Rules(true, true, true), readers), s);
  }

  /** Bytes wait in the buffer of fd, nobody is about to raise or lower its counter, and the counter
      tells the handler that there is nothing to do. */
  ghost predicate Stranded(s: State, fd: int) {
    && Get(s.buffered, fd) != []
    && (forall r :: 0 <= r < |s.readers| ==> s.readers[r].Idle? || s.readers[r].fd != fd)
    && !HandlerAt(s, fd)
    && (fd in s.table ==> s.table[fd] == ONE)
  }

  ghost predicate NeverStrands(rules: Rules, readers: nat) {
    forall s, fd :: Reaches(Next, Init(rules, readers), s) ==> !Stranded(s, fd)
  }

  /** The handler has just taken the bytes of the first notification. */
  predicate FirstTake(s: State) {
    && |s.readers| >= 1 && s.table == map[5 := MORE]
    && s.handler == Took(map[5 := MORE], {}, 5) && Get(s.buffered, 5) == []
    && forall r :: 0 <= r < |s.readers| ==> s.readers[r].Idle?
  }

  /** Reader 0 reads a byte for a descriptor without an entry, and inserts one. */
  lemma ToInsert(init: State, s: State) returns (t: State)
    requires Reaches(Unguarded, init, s) && |s.readers| >= 1 && s.readers[0].Idle?
    requires s.table == map[] && Get(s.buffered, 5) == []
    ensures Reaches(Unguarded, init, t) && Get(t.buffered, 5) == "b"
    ensures t == s.(table := map[5 := MORE], buffered := t.buffered, received := t.received)
  {
    t := ReachesStep(Unguarded, init, s, Receive(0, 5, "b"));
    assert Get(t.buffered, 5) == [] + "b" == "b";
    t := ReachesStep(Unguarded, init, t, Find(0));
    t := ReachesStep(Unguarded, init, t, Insert(0));
    assert t.readers == s.readers;
  }

  lemma ToFirstTake(init: State) returns (s: State)
    requires init == Init(init.rules, |init.readers|) && |init.readers| >= 1
    ensures Reaches(Unguarded, init, s) && FirstTake(s)
    ensures s.rules == init.rules && |s.readers| == |init.readers|
  {
    ReachesSelf(Unguarded, init);
    s := ReachesStep(Unguarded, init, init, Present({5}));
    s := ToInsert(init, s);
    s := ReachesStep(Unguarded, init, s, Copy);
    s := ReachesStep(Unguarded, init, s, Take(5));
    assert s.handler.todo == {};
  }

  /** Reader 0 reads a byte more and finds the entry. */
  lemma ToSecondFind(s: State) returns (t: State)
    requires |s.readers| >= 1 && s.readers[0].Idle? && 5 in s.table && Get(s.buffered, 5) == []
    ensures Reaches(Unguarded, s, t) && Get(t.buffered, 5) == "b"
    ensures t == Put(s, 0, Found(5)).(buffered := t.buffered, received := t.received)
  {
    ReachesSelf(Unguarded, s);
    t := ReachesStep(Unguarded, s, s, Receive(0, 5, "b"));
    assert Get(t.buffered, 5) == [] + "b" == "b";
    t := ReachesStep(Unguarded, s, t, Find(0));
  }

  lemma Onward(init: State, s: State, t: State)
    requires Reaches(Next, init, s) && Reaches(Unguarded, s, t)
    ensures Reaches(Next, init, t)
  {
    forall u, l | Unguarded(u, l).Some? ensures exists m :: Next(u, m) == Some(Unguarded(u, l).value) {
      assert Next(u, l) == Unguarded(u, l);
    }
    ReachesMapped(Unguarded, (u: State) => true, Next, (u: State) => u, init, s, t);
  }

  /** Entering the barrier and leaving it raises the counter reader 0 has found. */
  lemma LoadAndStore(s: State)
    requires |s.readers| >= 1 && s.readers[0] == Found(5) && CanEnter(s) && s.table == map[5 := MORE]
    ensures Next(s, Load(0)) == Some(Put(s, 0, Raising(5, MORE)))
    ensures Next(Put(s, 0, Raising(5, MORE)), Store(0))
            == Some(Put(s, 0, Idle).(table := map[5 := Raise(s.rules.three, MORE)]))
  {
    assert Put(s, 0, Raising(5, MORE)).readers[0 := Idle] == s.readers[0 := Idle];
    assert s.table[5 := MOREPLUS] == map[5 := MOREPLUS];
  }

  /** Lowering a counter of MORE, as the handler does. */
  lemma LoadAndLower(s: State)
    requires s.handler == Took(map[5 := MORE], {}, 5) && s.table == map[5 := MORE] && CanEnter(s)
    ensures
      var t := s.(handler := Lowering(map[5 := MORE], {}, 5, MORE));
      && Next(s, LoadDown) == Some(t)
      && Next(t, StoreDown) == Some(s.(handler := Looping(map[5 := MORE], {}), table := map[5 := ONE]))
  {
    assert s.table[5 := ONE] == map[5 := ONE];
  }

  lemma ToSecondNotice(init: State, s: State) returns (t: State)
    requires Reaches(Next, init, s) && CanEnter(s) && s.table == map[5 := MORE] && Get(s.buffered, 5) == []
    requires |s.readers| >= 1 && forall r :: 0 <= r < |s.readers| ==> s.readers[r].Idle?
    ensures Reaches(Next, init, t) && Get(t.buffered, 5) == "b"
    ensures t == s.(table := map[5 := Raise(s.rules.three, MORE)], buffered := t.buffered, received := t.received)
  {
    var u := ToSecondFind(s);
    Onward(init, s, u);
    assert Put(u, 0, Idle).readers == s.readers;
    LoadAndStore(u);
    t := ReachesStep(Next, init, u, Load(0));
    t := ReachesStep(Next, init, t, Store(0));
  }

  /** With two values the notification that arrives between taking and lowering is absorbed. */
  lemma TwoValuesStrand(init: State) returns (s: State)
    requires init == Init(init.rules, |init.readers|) && |init.readers| >= 1 && !init.rules.three
    ensures Reaches(Next, init, s) && Stranded(s, 5)
  {
    ReachesSelf(Next, init);
    s := ToFirstTake(init);
    Onward(init, init, s);
    s := ToSecondNotice(init, s);
    LoadAndLower(s);
    s := ReachesStep(Next, init, s, LoadDown);
    s := ReachesStep(Next, init, s, StoreDown);
  }

  /** Without exclusion the handler overwrites a counter that was raised after it had loaded it. */
  lemma LostUpdateStrands(init: State) returns (s: State)
    requires init == Init(init.rules, |init.readers|) && |init.readers| >= 1 && !init.rules.exclusive
    ensures Reaches(Next, init, s) && Stranded(s, 5)
  {
    ReachesSelf(Next, init);
    s := ToFirstTake(init);
    Onward(init, init, s);
    s := ReachesStep(Next, init, s, LoadDown);
    s := ToSecondNotice(init, s);
    s := ReachesStep(Next, init, s, StoreDown);
  }

  /** A close between taking and lowering erases the entry; the handler then finds no entry. */
  lemma ToDangling(init: State) returns (s: State)
    requires init == Init(init.rules, |init.readers|) && |init.readers| >= 1 && !init.rules.polite
    ensures Reaches(Next, init, s) && s.table == map[] && s.handler.Took? && s.handler.fd == 5 && s.rules == init.rules
    ensures Get(s.buffered, 5) == [] && |s.readers| >= 1 && forall r :: 0 <= r < |s.readers| ==> s.readers[r].Idle?
  {
    ReachesSelf(Next, init);
    s := ToFirstTake(init);
    Onward(init, init, s);
    s := ReachesStep(Next, init, s, Close(0, 5, []));
    assert s.table == map[];
  }

  /** And if the number is used again before it looks, it lowers the counter of the new connection. */
  lemma CloseStrands(init: State) returns (s: State)
    requires init == Init(init.rules, |init.readers|) && |init.readers| >= 1 && !init.rules.polite
    ensures Reaches(Next, init, s) && Stranded(s, 5)
  {
    var t := ToDangling(init);
    ReachesSelf(Unguarded, t);
    s := ToInsert(t, t);
    Onward(init, t, s);
    s := ReachesStep(Next, init, s, LoadDown);
    s := ReachesStep(Next, init, s, StoreDown);
  }

  /** No bytes are ever stranded, for every interleaving of readers, closes and handler, exactly if the
      barrier keeps a second thread out, the counter has three values, and closes are polite. */
  lemma NeverStrandsIff(rules: Rules, readers: nat)
    requires readers >= 1
    ensures NeverStrands(rules, readers) <==> rules == Rules(true, true, true)
  {
    var init := Init(rules, readers);
    if !rules.three {
      var s := TwoValuesStrand(init);
    } else if !rules.exclusive {
      var s := LostUpdateStrands(init);
    } else if !rules.polite {
      var s := CloseStrands(init);
    } else {
      forall s, fd | Reaches(Next, init, s) ensures !Stranded(s, fd) {
        ReachableInv(readers, s);
        assert Get(s.buffered, fd) != [] ==> Covered(s, fd);
      }
    }
  }

  // ---------------------------------------------------------------- which stores leave bytes behind

  /** Bytes wait in the buffer of fd, and neither the counter nor a reader will bring the handler there. */
  ghost predicate Uncovered(s: State, fd: int) {
    Get(s.buffered, fd) != [] && !Covered(s, fd)
  }

  /** Readers and handler are not in the middle of anything with fd. */
  ghost predicate NobodyAt(s: State, fd: int) {
    (forall r :: 0 <= r < |s.readers| ==> s.readers[r].Idle? || s.readers[r].fd != fd) && !HandlerAt(s, fd)
  }

  lemma StrandedMeans(s: State, fd: int)
    ensures Stranded(s, fd) <==> Uncovered(s, fd) && NobodyAt(s, fd)
  {
  }

  /** A reader other than r owes a notification. */
  ghost predicate OthersOwe(s: State, r: nat, fd: int) {
    exists q :: q != r && Owing(s, q, fd)
  }

  /** A store that leaves the counter of fd too low for the bytes waiting there, with nobody else to raise it:
      a reader that has loaded MOREPLUS and stores nothing, although the counter has been lowered since; a
      reader that raises ONE while the handler is about to lower; or the handler storing ONE. */
  ghost predicate Uncovers(s: State, l: Label, fd: int) {
    && Get(s.buffered, fd) != [] && fd in s.table
    && match l
       case Store(r) =>
         && r < |s.readers| && s.readers[r].Raising? && s.readers[r].fd == fd && !OthersOwe(s, r, fd)
         && (match s.readers[r].seen
             case ONE => HandlerAt(s, fd)
             case MORE => false
             case MOREPLUS => s.table[fd] == ONE || (s.table[fd] == MORE && HandlerAt(s, fd)))
       case StoreDown =>
         && s.handler.Lowering? && s.handler.fd == fd && (forall r :: !Owing(s, r, fd))
         && (s.handler.seen == MORE || (s.handler.seen == ONE && s.table[fd] == ONE))
       case _ => false
  }

  /** A step that brings nobody to fd, does not take from it or close it, and stores no higher counter. */
  predicate LeavesBehind(s: State, l: Label, fd: int) {
    match l
    case Receive(_, f, _) => f != fd
    case Take(f) => f != fd
    case Close(_, f, _) => f != fd
    case StoreDown =>
      HandlerAt(s, fd) && fd in s.table && s.handler.Lowering? ==>
        s.handler.seen == MORE || (s.handler.seen == ONE && s.table[fd] == ONE)
    case _ => true
  }

  ghost function Uncovering(fd: int): (State, Label) -> bool {
    (s, l) => Uncovers(s, l, fd)
  }

  function LeavingBehind(fd: int): (State, Label) -> bool {
    (s, l) => LeavesBehind(s, l, fd)
  }

  /** The counter has three values, and no entry in use is missing. */
  ghost predicate Sound(s: State) {
    s.rules.three && EntriesInv(s)
  }

  lemma SoundStep(s: State, l: Label)
    requires Sound(s) && Next(s, l).Some?
    ensures Sound(Next(s, l).value)
  {
    EntriesInvStep(s, l);
  }

  /** Steps that neither bring a reader to fd, nor close it, nor may be a reader's last, change nobody's debt. */
  lemma SameOwing(s: State, l: Label, fd: int, q: nat)
    requires EntriesInv(s) && Next(s, l).Some? && !l.Insert? && !l.Store?
    requires l.Receive? || l.Close? ==> l.fd != fd
    ensures Owing(Next(s, l).value, q, fd) <==> Owing(s, q, fd)
  {
  }

  lemma StoreUncovers(s: State, r: nat, fd: int)
    requires Sound(s) && Next(s, Store(r)).Some?
    ensures Uncovered(Next(s, Store(r)).value, fd) <==> Uncovers(s, Store(r), fd) || Uncovered(s, fd)
  {
    var t := Next(s, Store(r)).value;
    forall q | q != r ensures Owing(t, q, fd) <==> Owing(s, q, fd) {
    }
    assert !Owing(t, r, fd);
    assert s.readers[r].fd == fd <==> Owing(s, r, fd);
  }

  lemma InsertUncovers(s: State, r: nat, fd: int)
    requires EntriesInv(s) && Next(s, Insert(r)).Some?
    ensures Uncovered(Next(s, Insert(r)).value, fd) <==> Uncovered(s, fd)
  {
    var t := Next(s, Insert(r)).value;
    if s.readers[r].fd == fd && fd !in s.table {
      assert Owing(s, r, fd) && Flagged(t, fd);
    } else {
      forall q ensures Owing(t, q, fd) <==> Owing(s, q, fd) {
      }
    }
  }

  /** Bytes are left behind after a step exactly if the step is such a store, or they were and it leaves them. */
  lemma UncoveredStep(s: State, l: Label, fd: int)
    requires Sound(s) && Next(s, l).Some?
    ensures Uncovered(Next(s, l).value, fd) <==> Uncovers(s, l, fd) || (Uncovered(s, fd) && LeavesBehind(s, l, fd))
  {
    if l.Store? {
      StoreUncovers(s, l.r, fd);
    } else if l.Insert? {
      InsertUncovers(s, l.r, fd);
    } else if l.Receive? && l.fd == fd {
      assert Owing(Next(s, l).value, l.r, fd);
    } else if !l.Close? || l.fd != fd {
      forall q ensures Owing(Next(s, l).value, q, fd) <==> Owing(s, q, fd) {
        SameOwing(s, l, fd, q);
      }
    }
  }

  /** Whatever the barrier does: over a whole run, bytes are left behind at the end exactly if some store left
      the counter too low for them, and nothing has led back to them since. */
  lemma {:induction false} UncoveredIff(exclusive: bool, readers: nat, ls: seq<Label>, s: State, fd: int)
    requires Run(Next, Init(Rules(exclusive, true, true), readers), ls) == Some(s)
    ensures
      Uncovered(s, fd)
      <==> exists i :: LastsFrom(Next, Uncovering(fd), LeavingBehind(fd),
                                 Init(Rules(exclusive, true, true), readers), ls, i)
  {
    var left := (t: State) => Uncovered(t, fd);
    forall t, l | Sound(t) && Next(t, l).Some?
      ensures Sound(Next(t, l).value)
      ensures left(Next(t, l).value) <==> Uncovering(fd)(t, l) || (left(t) && LeavingBehind(fd)(t, l))
    {
      SoundStep(t, l);
      UncoveredStep(t, l, fd);
    }
    RunLasting(Next, Sound, left, Uncovering(fd), LeavingBehind(fd), Init(Rules(exclusive, true, true), readers), ls);
  }

  /** The steps that are not stale stores. */
  function Current(s: State, l: Label): Option<State> {
    if Stale(s, l) then None else Next(s, l)
  }

  /** So the first store of a run that leaves bytes behind is a stale one: without those, none does. */
  lemma CurrentStoresCover(exclusive: bool, readers: nat, s: State, fd: int)
    requires Reaches(Current, Init(Rules(exclusive, true, true), readers), s)
    ensures !Uncovered(s, fd) && forall l :: Next(s, l).Some? && Uncovers(s, l, fd) ==> Stale(s, l)
  {
    forall t, l | Inv(t) && Current(t, l).Some? ensures Inv(Current(t, l).value) {
      InvStep(t, l);
    }
    ReachesKeeps(Current, Inv, Init(Rules(exclusive, true, true), readers), s);
    forall l | Next(s, l).Some? && Uncovers(s, l, fd) ensures Stale(s, l) {
      UncoveredStep(s, l, fd);
      if !Stale(s, l) {
        CoveredStep(s, l, fd);
      }
    }
  }

  /** Somebody goes on with an entry that was erased: undefined behaviour. */
  ghost predicate Dangling(s: State) {
    || ((s.handler.Took? || s.handler.Lowering?) && s.handler.fd !in s.table)
    || exists r :: 0 <= r < |s.readers| && (s.readers[r].Found? || s.readers[r].Raising?)
                   && s.readers[r].fd !in s.table
  }

  /** No thread goes on with an erased entry, in any run, exactly if closes are polite. */
  lemma NeverDanglesIff(rules: Rules, readers: nat)
    requires readers >= 1
    ensures (forall s :: Reaches(Next, Init(rules, readers), s) ==> !Dangling(s)) <==> rules.polite
  {
    if !rules.polite {
      var s := ToDangling(Init(rules, readers));
      assert Dangling(s);
    } else {
      forall t, l | EntriesInv(t) && Next(t, l).Some? ensures EntriesInv(Next(t, l).value) {
        EntriesInvStep(t, l);
      }
      forall s | Reaches(Next, Init(rules, readers), s) ensures !Dangling(s) {
        ReachesKeeps(Next, EntriesInv, Init(rules, readers), s);
      }
    }
  }

  /** While no reader has anything left to do, every descriptor with waiting bytes is one the handler
      will visit. */
  lemma IdleReadersFlagged(s: State, fd: int)
    requires Inv(s) && Get(s.buffered, fd) != []
    requires forall r :: 0 <= r < |s.readers| ==> s.readers[r].Idle?
    ensures Flagged(s, fd)
  {
    assert Covered(s, fd);
  }
}
