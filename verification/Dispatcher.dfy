/** The dispatcher object.  Each critical section of the registry is a method performing one step of it;
    the event handling of Dispatch is the code's control flow over those steps, with user threads that
    extract and restore channel tables and add functors running in between. */
module Dispatchers {
  import opened Runs
  import opened Registry

  type Functor = int

  /** One event as the kernel reports it: whether it carries EPOLLIN, and an error or hang-up, and what accept
      returns if it is called; with the functors added before it, and what other threads do meanwhile. */
  datatype Event = Event(fd: int, incoming: bool, failed: bool, result: int, adds: seq<Functor>,
                         users: seq<Label>, more: seq<Label>, others: seq<seq<Functor>>)

  /** Accept does not return a descriptor in use, and without EPOLLIN the listening descriptor reports nothing
      unless it is said to. */
  predicate Possible(s: State, fd: int, incoming: bool, result: int) {
    (incoming ==> result < 0 || Fresh(s, result)) && (fd == s.master && !incoming ==> s.stale)
  }

  predicate HasHandler(s: State, fd: int) {
    if fd == s.master then s.masterLive else fd in s.handlers
  }

  /** What an event on a descriptor with a handler does to the handlers: the listening descriptor gains one for
      what the accept handler holds, unless that failed or has one; an error or hang-up drops the handler. */
  ghost predicate Handled(s: State, fd: int, incoming: bool, failed: bool, result: int, t: State) {
    HasHandler(s, fd) ==>
      if fd == s.master then
        var c := if incoming then result else s.last;
        && t.masterLive == !failed
        && t.handlers == if c >= 0 && c !in s.handlers then s.handlers[c := s.next] else s.handlers
      else
        t.masterLive == s.masterLive && t.handlers == if failed then s.handlers - {fd} else s.handlers
  }

  /** An event as the loop met it: in which state, whether it found a handler, and what had been added by then. */
  datatype Met = Met(event: Event, state: State, heard: bool, queued: seq<Functor>)

  /** One turn of the event loop that leads to `t`; by the time of the event `before`, what others have added
      since, and what comes with the event have been added. */
  ghost predicate Turn(before: seq<Functor>, m: Met, t: State) {
    var Met(e, s, heard, queued) := m;
    && heard == (Possible(s, e.fd, e.incoming, e.result) && HasHandler(s, e.fd))
    && (if heard then Handled(s, e.fd, e.incoming, e.failed, e.result, t) else t == s)
    && |before| + |e.adds| <= |queued| && before <= queued && queued[|queued| - |e.adds|..] == e.adds
  }

  /** The first n turns of the event loop from `s`, with `first` added, to `t`. */
  ghost predicate Turns(s: State, first: seq<Functor>, log: seq<Met>, n: nat, t: State)
    requires n <= |log|
  {
    if n == 0 then s == t
    else
      && Turn(if n == 1 then first else log[n - 2].queued, log[n - 1], t)
      && Turns(s, first, log, n - 1, log[n - 1].state)
  }

  lemma {:induction false} TurnsKept(s: State, first: seq<Functor>, log: seq<Met>, n: nat, t: State, m: Met)
    requires n <= |log| && Turns(s, first, log, n, t)
    ensures Turns(s, first, log + [m], n, t)
  {
    if n > 0 {
      TurnsKept(s, first, log, n - 1, log[n - 1].state, m);
    }
  }

  lemma TurnsMore(s: State, first: seq<Functor>, log: seq<Met>, m: Met, t: State)
    requires Turns(s, first, log, |log|, m.state)
    requires Turn(if log == [] then first else log[|log| - 1].queued, m, t)
    ensures Turns(s, first, log + [m], |log| + 1, t)
  {
    TurnsKept(s, first, log, |log|, m.state, m);
  }

  lemma TurnSince(before: seq<Functor>, between: seq<Functor>, m: Met, t: State)
    requires before <= between && Turn(between, m, t)
    ensures Turn(before, m, t)
  {
  }

  /** What had been added by the last of the first n events that found a handler. */
  ghost function LastHeard(start: seq<Functor>, log: seq<Met>, n: nat): seq<Functor>
    requires n <= |log|
  {
    if n == 0 then start else if log[n - 1].heard then log[n - 1].queued else LastHeard(start, log, n - 1)
  }

  lemma {:induction false} LastHeardKept(start: seq<Functor>, log: seq<Met>, n: nat, m: Met)
    requires n <= |log|
    ensures LastHeard(start, log + [m], n) == LastHeard(start, log, n)
  {
    if n > 0 {
      LastHeardKept(start, log, n - 1, m);
    }
  }

  /** What is known after the turns in `log`: where they have led, what has been added, and what has run. */
  ghost predicate Looped(s: State, first: seq<Functor>, start: seq<Functor>, log: seq<Met>,
                         t: State, added: seq<Functor>, executed: seq<Functor>) {
    && Turns(s, first, log, |log|, t) && executed == LastHeard(start, log, |log|) && first <= added
    && (log != [] ==> log[|log| - 1].queued <= added)
    && forall k :: 0 <= k < |log| && log[k].heard ==> log[k].queued <= executed
  }

  lemma LoopedMore(s: State, first: seq<Functor>, start: seq<Functor>, log: seq<Met>, before: seq<Functor>,
                   executed: seq<Functor>, m: Met, t: State, added: seq<Functor>)
    requires Looped(s, first, start, log, m.state, before, executed) && Turn(before, m, t)
    requires executed <= m.queued <= added
    ensures Looped(s, first, start, log + [m], t, added, if m.heard then m.queued else executed)
  {
    TurnSince(if log == [] then first else log[|log| - 1].queued, before, m, t);
    TurnsMore(s, first, log, m, t);
    LastHeardKept(start, log, |log|, m);
    assert (log + [m])[|log|] == m && forall k :: 0 <= k < |log| ==> (log + [m])[k] == log[k];
  }

  /** The log is about the first of these events, which found a handler or not. */
  ghost predicate About(log: seq<Met>, events: seq<Event>, heard: seq<bool>) {
    && |log| == |heard| <= |events|
    && forall k :: 0 <= k < |log| ==> log[k].event == events[k] && log[k].heard == heard[k]
  }

  lemma AboutMore(log: seq<Met>, events: seq<Event>, heard: seq<bool>, m: Met)
    requires About(log, events, heard) && |log| < |events| && m.event == events[|log|]
    ensures About(log + [m], events, heard + [m.heard])
  {
  }

  /** What user threads do that perform the given extractions and restorations, as far as they are possible. */
  function Used(s: State, steps: seq<Label>): State {
    if steps == [] then s
    else
      var n := |steps| - 1;
      var t := Used(s, steps[..n]);
      if (steps[n].Extract? || steps[n].Restore?) && Next(t, steps[n]).Some? then Next(t, steps[n]).value else t
  }

  class Dispatcher {
    const limit: nat
    const stale: bool
    const masterfd: nat
    var masterLive: bool
    var open: set<int>            // descriptors accepted and not closed yet
    var handlers: map<int, Chan>
    var allChannel: map<int, Chan>
    var waitToRemovedChannel: seq<int>
    var pendingFn: seq<Functor>

    var out: seq<map<int, Chan>>  // tables in the hands of user threads
    var acting: Acting
    var accepted: int             // _accepted of the accept handler
    var nextChannel: Chan
    var added: seq<Functor>       // history
    var executed: seq<Functor>    // history

    function Abs(): State
      reads this
    {
      State(limit, stale, masterfd, masterLive, open, handlers, allChannel, out, waitToRemovedChannel,
            acting, accepted, nextChannel)
    }

    /** Functors have run once each, in the order they were added, up to those still pending. */
    predicate FunctorsInOrder()
      reads this
    {
      executed + pendingFn == added
    }

    ghost predicate Valid()
      reads this
    {
      Reaches(Next, Init(limit, stale, masterfd), Abs())
    }

    constructor (limit: nat, stale: bool, masterfd: nat)
      ensures Valid() && this.limit == limit && this.stale == stale && this.masterfd == masterfd
      ensures Abs() == Init(limit, stale, masterfd) && FunctorsInOrder() && pendingFn == []
    {
      this.limit, this.stale, this.masterfd, masterLive := limit, stale, masterfd, true;
      open, handlers, allChannel, waitToRemovedChannel, pendingFn := {}, map[], map[], [], [];
      out, acting, accepted, nextChannel, added, executed := [], Resting, -1, 0, [], [];
      new;
      ReachesSelf(Next, Init(limit, stale, masterfd));
    }

    ghost method Advance(before: State, l: Label)
      requires Reaches(Next, Init(limit, stale, masterfd), before) && Next(before, l) == Some(Abs())
      ensures Reaches(Next, Init(limit, stale, masterfd), Abs())
    {
      var after := ReachesStep(Next, Init(limit, stale, masterfd), before, l);
    }

    /** The first half of HandleNewConnection: a fresh channel is put into the table. */
    method EmplaceChannel(fd: int, called: bool)
      requires Valid() && Next(Abs(), Emplace(fd, called)).Some?
      modifies `allChannel, `acting, `accepted, `nextChannel, `open
      ensures Valid() && Next(old(Abs()), Emplace(fd, called)) == Some(Abs())
    {
      open := if called && fd >= 0 then open + {fd} else open;
      if fd !in allChannel {
        allChannel := allChannel[fd := nextChannel];
      }
      acting, accepted, nextChannel := Accepting(fd, nextChannel), fd, nextChannel + 1;
      Advance(old(Abs()), Emplace(fd, called));
    }

    /** RegisterHandler for the descriptor being accepted. */
    method RegisterHandler() returns (registered: bool)
      requires Valid() && acting.Accepting?
      modifies `handlers, `acting
      ensures Valid() && Next(old(Abs()), Register) == Some(Abs())
      ensures registered == (old(acting).fd >= 0 && old(acting).fd !in old(handlers))
    {
      var Accepting(fd, channel) := acting;
      registered := fd >= 0 && fd !in handlers;
      if registered {
        handlers := handlers[fd := channel];
      }
      acting := Resting;
      Advance(old(Abs()), Register);
    }

    /** The unprotected half of HandleUnexpected: drop the handler and close the descriptor. */
    method CloseDescriptor(fd: int)
      requires Valid() && Next(Abs(), EraseHandler(fd)).Some?
      modifies `masterLive, `handlers, `acting, `open
      ensures Valid() && Next(old(Abs()), EraseHandler(fd)) == Some(Abs())
    {
      if fd == masterfd {
        masterLive := false;
      } else {
        handlers, open := handlers - {fd}, open - {fd};
      }
      acting := Closing(fd);
      Advance(old(Abs()), EraseHandler(fd));
    }

    /** Its critical section: drop the channel, or remember to drop it when its table comes back. */
    method DropOrDefer()
      requires Valid() && acting.Closing?
      modifies `allChannel, `waitToRemovedChannel, `acting
      ensures Valid() && Next(old(Abs()), DropChannel) == Some(Abs())
    {
      if acting.fd in allChannel {
        allChannel := allChannel - {acting.fd};
      } else {
        waitToRemovedChannel := waitToRemovedChannel + [acting.fd];
      }
      acting := Resting;
      Advance(old(Abs()), DropChannel);
    }

    method ExtractExistedChannel() returns (channels: map<int, Chan>)
      requires Valid() && |out| < limit
      modifies `allChannel, `out
      ensures Valid() && Next(old(Abs()), Extract) == Some(Abs())
      ensures channels == old(allChannel) && allChannel == map[]
    {
      channels, allChannel := allChannel, map[];
      out := out + [channels];
      Advance(old(Abs()), Extract);
    }

    /** Put the i-th table that is out back, without the descriptors closed in the meantime. */
    method RestoreAllChannel(i: nat)
      requires Valid() && i < |out|
      modifies `allChannel, `waitToRemovedChannel, `out
      ensures Valid() && Next(old(Abs()), Restore(i)) == Some(Abs()) && waitToRemovedChannel == []
      ensures forall fd :: fd in allChannel <==>
                fd in old(allChannel) || (fd in old(out)[i] && fd !in old(waitToRemovedChannel))
      ensures forall fd :: fd in allChannel ==>
                allChannel[fd] == if fd in old(allChannel) then old(allChannel)[fd] else old(out)[i][fd]
    {
      var channels := out[i];
      for k := 0 to |waitToRemovedChannel|
        invariant channels == Without(out[i], waitToRemovedChannel[..k])
        invariant Abs() == old(Abs())
      {
        channels := channels - {waitToRemovedChannel[k]};
      }
      assert waitToRemovedChannel[..|waitToRemovedChannel|] == waitToRemovedChannel;
      waitToRemovedChannel := [];
      allChannel := channels + allChannel;
      out := out[..i] + out[i + 1..];
      Advance(old(Abs()), Restore(i));
    }

    method AddPendingFunctor(fn: Functor)
      requires Valid()
      modifies `pendingFn, `added
      ensures Valid() && pendingFn == old(pendingFn) + [fn] && added == old(added) + [fn]
    {
      pendingFn, added := pendingFn + [fn], added + [fn];
    }

    /** User threads perform the given extractions and restorations, as far as they are possible. */
    method UserThreads(steps: seq<Label>)
      requires Valid()
      modifies `allChannel, `waitToRemovedChannel, `out
      ensures Valid() && Abs() == Used(old(Abs()), steps)
    {
      for k := 0 to |steps|
        invariant Valid() && Abs() == Used(old(Abs()), steps[..k])
      {
        assert steps[..k + 1][..k] == steps[..k];
        match steps[k]
        case Extract =>
          if |out| < limit {
            var channels := ExtractExistedChannel();
          }
        case Restore(i) =>
          if i < |out| {
            RestoreAllChannel(i);
          }
        case _ =>
      }
      assert steps[..|steps|] == steps;
    }

    /** The end of an event: run the functors that were pending, while other threads (or the functors
        themselves) add the given ones. */
    method RunPending(others: seq<seq<Functor>>)
      requires Valid() && FunctorsInOrder()
      modifies `pendingFn, `added, `executed
      ensures Valid() && FunctorsInOrder()
      ensures executed == old(executed) + old(pendingFn) && old(added) <= added
    {
      var batch := pendingFn;
      pendingFn := [];
      for k := 0 to |batch|
        invariant Valid() && old(added) <= added
        invariant executed == old(executed) + batch[..k]
        invariant executed + batch[k..] + pendingFn == added
      {
        if k < |others| {
          for j := 0 to |others[k]|
            invariant Valid() && old(added) <= added && executed == old(executed) + batch[..k]
            invariant executed + batch[k..] + pendingFn == added
          {
            AddPendingFunctor(others[k][j]);
          }
        }
        executed := executed + [batch[k]];
      }
    }

    /** HandleNewConnection, with user threads between its critical sections. */
    method HandleNewConnection(fd: int, called: bool, users: seq<Label>)
      requires Valid() && acting.Resting? && masterLive && Accepted(Abs(), fd, called)
      modifies `allChannel, `acting, `accepted, `nextChannel, `waitToRemovedChannel, `out, `handlers, `open
      ensures Valid() && acting.Resting? && accepted == fd
      ensures handlers == if fd >= 0 && fd !in old(handlers) then old(handlers)[fd := old(nextChannel)]
                          else old(handlers)
    {
      EmplaceChannel(fd, called);
      UserThreads(users);
      var registered := RegisterHandler();
    }

    /** HandleUnexpected for an event with an error or hang-up. */
    method HandleUnexpected(fd: int, users: seq<Label>)
      requires Valid() && acting.Resting? && (if fd == masterfd then masterLive else fd in handlers)
      modifies `masterLive, `handlers, `acting, `allChannel, `waitToRemovedChannel, `out, `open
      ensures Valid() && acting.Resting?
      ensures if fd == masterfd then !masterLive && handlers == old(handlers)
              else masterLive == old(masterLive) && handlers == old(handlers) - {fd}
    {
      CloseDescriptor(fd);
      UserThreads(users);
      DropOrDefer();
    }

    /** One event of Dispatch.  `incoming` and `failed` say whether it carries EPOLLIN, and an error or
        hang-up; `result` is what accept returns if it is called.  User threads run between the critical
        sections.  If there is a handler, the functors pending at the start run, whatever the event; if there is
        none, nothing happens. */
    method HandleEvent(fd: int, incoming: bool, failed: bool, result: int, users: seq<Label>, more: seq<Label>,
                       others: seq<seq<Functor>>) returns (found: bool)
      requires Valid() && acting.Resting? && FunctorsInOrder()
      requires Possible(Abs(), fd, incoming, result)
      modifies this
      ensures Valid() && acting.Resting? && FunctorsInOrder()
      ensures (Benign(limit, stale) ==> Agreement(Abs())) && (!stale ==> HandlersOpen(Abs()))
      ensures found == HasHandler(old(Abs()), fd) && Handled(old(Abs()), fd, incoming, failed, result, Abs())
      ensures executed == (if found then old(executed) + old(pendingFn) else old(executed)) && old(added) <= added
      ensures !found ==> Abs() == old(Abs()) && pendingFn == old(pendingFn) && added == old(added)
    {
      found := if fd == masterfd then masterLive else fd in handlers;
      if found {
        HandleFound(fd, incoming, failed, result, users, more, others);
      }
      Agrees();
    }

    lemma Agrees()
      requires Valid()
      ensures (Benign(limit, stale) ==> Agreement(Abs())) && (!stale ==> HandlersOpen(Abs()))
    {
      HandlersOpenIff(limit, stale, masterfd);
      if Benign(limit, stale) {
        ReachableInv(limit, stale, masterfd, Abs());
      }
    }

    /** What follows the lookup of the handler. */
    method HandleFound(fd: int, incoming: bool, failed: bool, result: int, users: seq<Label>, more: seq<Label>,
                       others: seq<seq<Functor>>)
      requires Valid() && acting.Resting? && FunctorsInOrder()
      requires Possible(Abs(), fd, incoming, result) && HasHandler(Abs(), fd)
      modifies this
      ensures Valid() && acting.Resting? && FunctorsInOrder()
      ensures Handled(old(Abs()), fd, incoming, failed, result, Abs())
      ensures executed == old(executed) + old(pendingFn) && old(added) <= added
    {
      if fd == masterfd {
        HandleNewConnection(if incoming then result else accepted, incoming, users);
      }
      if failed {
        HandleUnexpected(fd, more);
      }
      RunPending(others);
    }

    /** Functors are added, then an event occurs, if it can. */
    method NextEvent(e: Event) returns (heard: bool, ghost m: Met)
      requires Valid() && acting.Resting? && FunctorsInOrder()
      modifies this
      ensures Valid() && acting.Resting? && FunctorsInOrder()
      ensures Turn(old(added), m, Abs()) && m == Met(e, old(Abs()), heard, old(added) + e.adds)
      ensures old(executed) <= m.queued <= added && executed == if heard then m.queued else old(executed)
    {
      for k := 0 to |e.adds|
        invariant Valid() && FunctorsInOrder() && Abs() == old(Abs())
        invariant added == old(added) + e.adds[..k] && executed == old(executed)
      {
        AddPendingFunctor(e.adds[k]);
      }
      assert e.adds[..|e.adds|] == e.adds;
      heard := false;
      if (e.incoming ==> e.result < 0 || Fresh(Abs(), e.result)) && (e.fd == masterfd && !e.incoming ==> stale) {
        heard := HandleEvent(e.fd, e.incoming, e.failed, e.result, e.users, e.more, e.others);
      }
      m := Met(e, old(Abs()), heard, old(added) + e.adds);
    }

    /** The loop of Dispatch over the given events.  Every functor added before an event that finds a handler
        has run after it, and none runs but those added before the last such event. */
    method Dispatch(events: seq<Event>) returns (heard: seq<bool>, ghost log: seq<Met>)
      requires Valid() && acting.Resting? && FunctorsInOrder()
      modifies this
      ensures Valid() && acting.Resting? && FunctorsInOrder() && old(added) <= added
      ensures About(log, events, heard) && |heard| == |events| && Turns(old(Abs()), old(added), log, |log|, Abs())
      ensures forall k :: 0 <= k < |events| && heard[k] ==> log[k].queued <= executed
      ensures executed == LastHeard(old(executed), log, |log|)
    {
      heard, log := [], [];
      for k := 0 to |events|
        invariant Valid() && acting.Resting? && FunctorsInOrder() && About(log, events, heard) && |log| == k
        invariant Looped(old(Abs()), old(added), old(executed), log, Abs(), added, executed)
      {
        heard, log := LoopOnce(events, heard, log, old(Abs()), old(added), old(executed));
      }
    }

    /** One turn of it. */
    method LoopOnce(events: seq<Event>, heard: seq<bool>, ghost log: seq<Met>, ghost s: State,
                    ghost first: seq<Functor>, ghost start: seq<Functor>)
      returns (heard': seq<bool>, ghost log': seq<Met>)
      requires Valid() && acting.Resting? && FunctorsInOrder() && About(log, events, heard) && |heard| < |events|
      requires Looped(s, first, start, log, Abs(), added, executed)
      modifies this
      ensures Valid() && acting.Resting? && FunctorsInOrder() && About(log', events, heard') && |log'| == |log| + 1
      ensures Looped(s, first, start, log', Abs(), added, executed)
    {
      var h;
      ghost var m;
      h, m := MeetEvent(events[|heard|], log, s, first, start);
      AboutMore(log, events, heard, m);
      heard', log' := heard + [h], log + [m];
    }

    method MeetEvent(e: Event, ghost log: seq<Met>, ghost s: State, ghost first: seq<Functor>,
                     ghost start: seq<Functor>)
      returns (heard: bool, ghost m: Met)
      requires Valid() && acting.Resting? && FunctorsInOrder()
      requires Looped(s, first, start, log, Abs(), added, executed)
      modifies this
      ensures Valid() && acting.Resting? && FunctorsInOrder() && m.event == e && m.heard == heard
      ensures Looped(s, first, start, log + [m], Abs(), added, executed)
    {
      ghost var before, ran := added, executed;
      heard, m := NextEvent(e);
      LoopedMore(s, first, start, log, before, ran, m, Abs(), added);
    }
  }
}
