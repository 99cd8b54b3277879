/** The registry of connections: the handlers by descriptor, the shared channel table, the tables user
    code has taken out of it, and the descriptors to drop when such a table comes back.  The dispatcher
    thread accepts and closes, user threads extract and restore; each critical section is a label. */
module Registry {
  import opened Runs

  type Chan = nat  // the identity of a channel object

  /** What the dispatcher thread is in the middle of. */
  datatype Acting =
    | Resting
    | Accepting(fd: int, chan: Chan)  // channel emplaced, handler not registered yet
    | Closing(fd: int)                // handler erased and descriptor closed, channel not dropped yet

  datatype State = State(
    limit: nat,                // parameter: how many tables may be out at a time
    stale: bool,               // parameter: the listening descriptor can report an event without EPOLLIN
    master: int,
    masterLive: bool,          // the accept handler is registered
    open: set<int>,            // descriptors accepted and not closed yet
    handlers: map<int, Chan>,  // _handlers without the master: the channel each handler holds
    all: map<int, Chan>,       // _allChannel
    out: seq<map<int, Chan>>,  // tables returned by ExtractExistedChannel and not restored yet
    wait: seq<int>,            // _waitToRemovedChannel
    acting: Acting,
    last: int,                 // what the accept handler holds as the accepted descriptor
    next: Chan                 // the next channel object
  )

  datatype Label =
    | Emplace(fd: int, called: bool) | Register  // called: accept was called for this event
    | EraseHandler(fd: int) | DropChannel
    | Extract | Restore(i: nat)

  function Init(limit: nat, stale: bool, master: nat): State {
    State(limit, stale, master, true, {}, map[], map[], [], [], Resting, -1, 0)
  }

  function Without(m: map<int, Chan>, fds: seq<int>): map<int, Chan> {
    map fd | fd in m && fd !in fds :: m[fd]
  }

  /** Insertion that leaves existing entries alone: emplace, try_emplace, insert. */
  function Added(m: map<int, Chan>, fd: int, c: Chan): map<int, Chan> {
    if fd in m then m else m[fd := c]
  }

  /** Accepting returned a descriptor that is not in use. */
  predicate Fresh(s: State, fd: int) {
    fd >= 0 && fd != s.master && fd !in s.open
  }

  /** Accepting failed, or returned a descriptor that is not in use; or it was not called at all, and the
      accept handler still holds its last result. */
  predicate Accepted(s: State, fd: int, called: bool) {
    if called then fd < 0 || Fresh(s, fd) else s.stale && fd == s.last
  }

  function Next(s: State, l: Label): Option<State> {
    match l
    case Emplace(fd, called) =>
      if s.acting.Resting? && s.masterLive && Accepted(s, fd, called) then
        Some(s.(all := Added(s.all, fd, s.next), acting := Accepting(fd, s.next), last := fd, next := s.next + 1,
                open := if called && fd >= 0 then s.open + {fd} else s.open))
      else None
    case Register =>
      if s.acting.Accepting? then
        var Accepting(fd, c) := s.acting;
        Some(s.(acting := Resting, handlers := if fd < 0 then s.handlers else Added(s.handlers, fd, c)))
      else None
    case EraseHandler(fd) =>
      if !s.acting.Resting? then
        None
      else if fd == s.master then
        if s.masterLive then Some(s.(masterLive := false, acting := Closing(fd))) else None
      else if fd in s.handlers then
        Some(s.(handlers := s.handlers - {fd}, open := s.open - {fd}, acting := Closing(fd)))
      else None
    case DropChannel =>
      if s.acting.Closing? then
        var fd := s.acting.fd;
        Some(if fd in s.all then s.(all := s.all - {fd}, acting := Resting)
             else s.(wait := s.wait + [fd], acting := Resting))
      else None
    case Extract =>
      if |s.out| < s.limit then Some(s.(out := s.out + [s.all], all := map[])) else None
    case Restore(i) =>
      if i < |s.out| then
        Some(s.(out := s.out[..i] + s.out[i + 1..], all := Without(s.out[i], s.wait) + s.all, wait := []))
      else None
  }

  // ---------------------------------------------------------------- agreement

  function Out(s: State): map<int, Chan> {
    if s.out == [] then map[] else s.out[0]
  }

  /** The one logical table: what is out and not to be dropped, and what is in. */
  function Table(s: State): map<int, Chan> {
    Without(Out(s), s.wait) + s.all
  }

  /** Between two actions of the dispatcher the logical table has exactly the descriptors that have a
      handler, each with the channel object its handler holds. */
  ghost predicate Agreement(s: State) {
    s.acting.Resting? ==>
      forall fd :: fd >= 0 ==>
        && (fd in s.handlers <==> fd in Table(s))
        && (fd in s.handlers ==> s.handlers[fd] == Table(s)[fd])
  }

  /** The descriptor of an accept or a close in progress. */
  predicate InProgress(s: State, fd: int) {
    !s.acting.Resting? && s.acting.fd == fd && fd != s.master
  }

  /** When the tables always agree. */
  predicate Benign(limit: nat, stale: bool) {
    limit == 0 || (limit == 1 && !stale)
  }

  /** Every descriptor with a handler, and the one being accepted, is open. */
  ghost predicate HandlersOpen(s: State) {
    && (forall fd :: fd in s.handlers ==> fd in s.open)
    && (s.acting.Accepting? && s.acting.fd >= 0 ==> s.acting.fd in s.open)
  }

  ghost predicate Inv(s: State) {
    && (!s.stale ==> HandlersOpen(s))
    && |s.out| <= s.limit && Benign(s.limit, s.stale)
    && s.master >= 0
    && s.master !in s.handlers && s.master !in s.all && s.master !in Out(s)
    && (forall fd :: fd in s.handlers ==> fd >= 0)
    && (s.acting.Accepting? ==> s.masterLive && s.acting.fd != s.master)
    && (s.acting.Closing? ==> s.acting.fd >= 0 && (s.acting.fd == s.master ==> !s.masterLive))
    && (forall fd :: fd in s.wait ==> fd in Out(s) || (fd == s.master && !s.masterLive))
    && (s.acting.Closing? ==> s.acting.fd !in s.handlers)
    && s.last != s.master && (s.acting.Accepting? && s.acting.fd in s.handlers ==> s.limit == 0)
    && (forall fd :: fd >= 0 ==>
      && (fd in s.handlers || InProgress(s, fd) <==> fd in Table(s))
      && !(fd in s.all && fd in Without(Out(s), s.wait))
      && (fd in s.handlers ==> s.handlers[fd] == Table(s)[fd]))
    && (s.acting.Accepting? && s.acting.fd >= 0 && s.acting.fd !in s.handlers ==>
        Table(s)[s.acting.fd] == s.acting.chan)
  }

  lemma EmplaceStep(s: State, fd: int, called: bool)
    requires Inv(s) && Next(s, Emplace(fd, called)).Some?
    ensures Inv(Next(s, Emplace(fd, called)).value)
  {
    var t := Next(s, Emplace(fd, called)).value;
    assert Out(t) == Out(s);
    forall f | f >= 0
      ensures f in t.handlers || InProgress(t, f) <==> f in Table(t)
      ensures f in t.handlers ==> t.handlers[f] == Table(t)[f]
    {
      assert f in s.handlers || InProgress(s, f) <==> f in Table(s);
    }
  }

  lemma DropAt(s: State, f: int)
    requires Inv(s) && Next(s, DropChannel).Some? && f >= 0
    ensures
      var t := Next(s, DropChannel).value;
      && (f in t.handlers || InProgress(t, f) <==> f in Table(t))
      && !(f in t.all && f in Without(Out(t), t.wait))
      && (f in t.handlers ==> t.handlers[f] == Table(t)[f])
  {
    var t := Next(s, DropChannel).value;
    assert Out(t) == Out(s);
    assert f in s.handlers || InProgress(s, f) <==> f in Table(s);
  }

  lemma DropStep(s: State)
    requires Inv(s) && Next(s, DropChannel).Some?
    ensures Inv(Next(s, DropChannel).value)
  {
    var t := Next(s, DropChannel).value;
    assert Out(t) == Out(s);
    forall f | f >= 0
      ensures f in t.handlers || InProgress(t, f) <==> f in Table(t)
      ensures !(f in t.all && f in Without(Out(t), t.wait))
      ensures f in t.handlers ==> t.handlers[f] == Table(t)[f]
    {
      DropAt(s, f);
    }
  }

  /** Taking the table out and putting it back leave the logical table as it is. */
  lemma TableStep(s: State, l: Label)
    requires Inv(s) && (l.Extract? || l.Restore?) && Next(s, l).Some?
    ensures
      var t := Next(s, l).value;
      forall fd :: fd >= 0 ==> (fd in Table(t) <==> fd in Table(s)) && (fd in Table(s) ==> Table(t)[fd] == Table(s)[fd])
    ensures Inv(Next(s, l).value)
  {
  }

  lemma RegisterStep(s: State)
    requires Inv(s) && Next(s, Register).Some?
    ensures Inv(Next(s, Register).value)
  {
  }

  lemma EraseStep(s: State, fd: int)
    requires Inv(s) && Next(s, EraseHandler(fd)).Some?
    ensures Inv(Next(s, EraseHandler(fd)).value)
  {
  }

  lemma {:induction false} InvStep(s: State, l: Label)
    requires Inv(s) && Next(s, l).Some?
    ensures Inv(Next(s, l).value)
  {
    match l
    case Emplace(fd, called) => EmplaceStep(s, fd, called);
    case DropChannel => DropStep(s);
    case Register => RegisterStep(s);
    case EraseHandler(fd) => EraseStep(s, fd);
    case Extract => TableStep(s, l);
    case Restore(i) => TableStep(s, l);
  }

  lemma ReachableInv(limit: nat, stale: bool, master: nat, s: State)
    requires Benign(limit, stale) && Reaches(Next, Init(limit, stale, master), s)
    ensures Inv(s)
  {
    forall t, l | Inv(t) && Next(t, l).Some? ensures Inv(Next(t, l).value) {
      InvStep(t, l);
    }
    ReachesKeeps(Next, Inv, Init(limit, stale, master), s);
  }

  /** A descriptor gets a channel and a handler, where it has none yet. */
  lemma ToAccepted(init: State, s: State, fd: int, called: bool) returns (t: State)
    requires Reaches(Next, init, s) && s.acting.Resting? && s.masterLive && Accepted(s, fd, called)
    requires fd >= 0
    ensures Reaches(Next, init, t)
    ensures t == s.(all := Added(s.all, fd, s.next), handlers := Added(s.handlers, fd, s.next), last := fd,
                    next := s.next + 1, open := if called then s.open + {fd} else s.open)
  {
    t := ReachesStep(Next, init, s, Emplace(fd, called));
    t := ReachesStep(Next, init, t, Register);
  }

  /** Two tables are out, the second one with a live descriptor. */
  lemma TwoTablesOut(init: State) returns (s: State)
    requires init.limit >= 2 && init.master >= 0 && init == Init(init.limit, init.stale, init.master)
    ensures Reaches(Next, init, s)
    ensures
      var fd := init.master + 1;
      s == init.(out := [map[], map[fd := 0]], handlers := map[fd := 0], open := {fd}, last := fd, next := 1)
  {
    var fd := init.master + 1;
    ReachesSelf(Next, init);
    s := ReachesStep(Next, init, init, Extract);
    s := ToAccepted(init, s, fd, true);
    s := ReachesStep(Next, init, s, Extract);
  }

  /** With two tables out at a time, restoring the first forgets the close that the second one missed, so
      that restoring the second revives a closed descriptor. */
  lemma TwoTablesRevive(limit: nat, stale: bool, master: nat) returns (s: State)
    requires limit >= 2
    ensures Reaches(Next, Init(limit, stale, master), s) && s.acting.Resting?
    ensures var fd := master + 1; fd in s.all && fd !in s.handlers && fd !in s.open
    ensures !Agreement(s)
  {
    var init := Init(limit, stale, master);
    var fd := master + 1;
    s := TwoTablesOut(init);
    s := ReachesStep(Next, init, s, EraseHandler(fd));
    s := ReachesStep(Next, init, s, DropChannel);
    s := ReachesStep(Next, init, s, Restore(0));
    assert s.out == [map[fd := 0]] && s.wait == [];
    s := ReachesStep(Next, init, s, Restore(0));
    assert fd in Table(s) && fd !in s.handlers;
  }

  /** An event on the listening descriptor without EPOLLIN, while the table is out, puts a second channel
      object for the descriptor accepted last into the table. */
  lemma StaleAcceptReplaces(master: nat) returns (s: State)
    ensures Reaches(Next, Init(1, true, master), s) && s.acting.Resting?
    ensures
      var fd := master + 1;
      fd in s.open && fd in s.handlers && fd in s.all && s.handlers[fd] == 0 && s.all[fd] == 1
    ensures !Agreement(s)
  {
    var init := Init(1, true, master);
    var fd := master + 1;
    ReachesSelf(Next, init);
    s := ToAccepted(init, init, fd, true);
    s := ReachesStep(Next, init, s, Extract);
    s := ToAccepted(init, s, fd, false);
    assert s.handlers[fd] == 0 && s.all == map[fd := 1];
  }

  /** Putting the table back does not mend this: insertion leaves the second channel object where it is. */
  lemma StaleAcceptStays(master: nat) returns (s: State)
    ensures Reaches(Next, Init(1, true, master), s) && s.acting.Resting? && s.out == [] && s.wait == []
    ensures
      var fd := master + 1;
      fd in s.open && fd in s.handlers && fd in s.all && s.handlers[fd] == 0 && s.all[fd] == 1
  {
    var init := Init(1, true, master);
    var fd := master + 1;
    ReachesSelf(Next, init);
    s := ToAccepted(init, init, fd, true);
    s := ReachesStep(Next, init, s, Extract);
    s := ToAccepted(init, s, fd, false);
    s := ReachesStep(Next, init, s, Restore(0));
  }

  /** For every interleaving of accepting, closing, extracting and restoring, handlers and channel tables
      agree, object by object, exactly if no table is ever taken out, or at most one at a time and every
      event on the listening descriptor carries EPOLLIN. */
  lemma AgreementIff(limit: nat, stale: bool, master: nat)
    ensures (forall s :: Reaches(Next, Init(limit, stale, master), s) ==> Agreement(s)) <==> Benign(limit, stale)
  {
    if limit >= 2 {
      var s := TwoTablesRevive(limit, stale, master);
    } else if limit == 1 && stale {
      var s := StaleAcceptReplaces(master);
    } else {
      forall s | Reaches(Next, Init(limit, stale, master), s) ensures Agreement(s) {
        ReachableInv(limit, stale, master, s);
      }
    }
  }

  /** Restoring never brings back a closed descriptor, and never replaces one accepted again under the
      same number: afterwards the channel table holds the handlers' own channel objects and nothing else. */
  lemma RestoreIsExact(limit: nat, stale: bool, master: nat, s: State)
    requires Benign(limit, stale) && Reaches(Next, Init(limit, stale, master), s) && s.acting.Resting? && |s.out| == 1
    ensures
      var t := Next(s, Restore(0)).value;
      && t.out == [] && t.wait == []
      && forall fd :: fd >= 0 ==> (fd in t.all <==> fd in s.handlers) && (fd in t.all ==> t.all[fd] == s.handlers[fd])
  {
    ReachableInv(limit, stale, master, s);
    TableStep(s, Restore(0));
    assert Table(Next(s, Restore(0)).value) == Next(s, Restore(0)).value.all;
  }

  /** One descriptor has been accepted and closed. */
  lemma ToClosed(init: State) returns (s: State)
    requires init.master >= 0 && init == Init(init.limit, init.stale, init.master)
    ensures Reaches(Next, init, s) && s == init.(last := init.master + 1, next := 1)
  {
    var fd := init.master + 1;
    ReachesSelf(Next, init);
    s := ToAccepted(init, init, fd, true);
    assert s == init.(all := map[fd := 0], handlers := map[fd := 0], open := {fd}, last := fd, next := 1);
    s := ReachesStep(Next, init, s, EraseHandler(fd));
    s := ReachesStep(Next, init, s, DropChannel);
    assert s.handlers == map[] && s.all == map[] && s.open == {};
  }

  /** An event without EPOLLIN after the descriptor accepted last has been closed registers it again. */
  lemma StaleAcceptReopens(limit: nat, master: nat) returns (s: State)
    ensures Reaches(Next, Init(limit, true, master), s)
    ensures
      var fd := master + 1;
      s == Init(limit, true, master).(all := map[fd := 1], handlers := map[fd := 1], last := fd, next := 2)
  {
    var init := Init(limit, true, master);
    s := ToClosed(init);
    s := ToAccepted(init, s, master + 1, false);
  }

  /** However many tables are out, every descriptor with a handler is open, in every reachable state, exactly
      if every event on the listening descriptor carries EPOLLIN. */
  lemma HandlersOpenIff(limit: nat, stale: bool, master: nat)
    ensures (forall s :: Reaches(Next, Init(limit, stale, master), s) ==> HandlersOpen(s)) <==> !stale
  {
    if stale {
      var s := StaleAcceptReopens(limit, master);
      assert master + 1 in s.handlers;
    } else {
      var inv := (s: State) => !s.stale && HandlersOpen(s);
      forall t, l | inv(t) && Next(t, l).Some? ensures inv(Next(t, l).value) {
      }
      forall s | Reaches(Next, Init(limit, stale, master), s) ensures HandlersOpen(s) {
        ReachesKeeps(Next, inv, Init(limit, stale, master), s);
      }
    }
  }
}
