/** The sending half of a channel under edge-triggered events: the kernel reports a descriptor once after
    each change, and the events handler reads if the event carries EPOLLIN, and writes only otherwise.
    Writes that take nothing or fail are not part of this machine; see SendProtocol for them. */
module WriteEdges {
  import SP = SendProtocol

  import opened Runs

  datatype State = State(
    send: SP.State,
    unread: bool,     // bytes have arrived that were not read
    full: bool,       // the kernel has no room for more bytes to send
    edge: bool        // a change has not been reported yet
  )

  datatype Label =
    | Notify(step: SP.Label)  // a step of a notifier
    | Arrive                  // bytes arrive
    | Drain                   // the kernel has room again
    | Event(taken: nat)       // the change is reported and handled; a write takes the given number of bytes

  const INIT := State(SP.INIT, false, false, false)

  /** The kernel would report EPOLLOUT. */
  predicate Writable(s: State) {
    s.send.armed && !s.full
  }

  function Next(s: State, l: Label): Option<State> {
    match l
    case Notify(step) =>
      var send := SP.Next(s.send, step);
      if (step.Enter? || step.Append? || step.Arm?) && send.Some? then
        Some(s.(send := send.value, edge := s.edge || (step.Arm? && (s.unread || !s.full))))
      else None
    case Arrive => Some(s.(unread := true, edge := true))
    case Drain => if s.full then Some(s.(full := false, edge := s.edge || s.send.armed)) else None
    case Event(taken) =>
      if !s.edge then
        None
      else if s.unread || !Writable(s) then
        Some(s.(unread := false, edge := false))
      else if s.send.buffer == [] || 1 <= taken <= |s.send.buffer| then
        var send := SP.Next(s.send, SP.Write(taken));
        if send.Some? then Some(s.(send := send.value, full := send.value.buffer != [], edge := false)) else None
      else None
  }

  /** Data is waiting, every notifier has armed, the kernel has room, and nothing will be reported. */
  predicate Unserved(s: State) {
    s.send.buffer != [] && s.send.unarmed == 0 && !s.full && !s.edge
  }

  /** An event that carries both EPOLLIN and EPOLLOUT, while data is waiting and every notifier has armed. */
  predicate HidesWrite(s: State, l: Label) {
    l.Event? && s.unread && Writable(s) && s.send.buffer != [] && s.send.unarmed == 0
  }

  /** A notifier has only seen that the channel is active. */
  predicate OnlyEnters(s: State, l: Label) {
    l == Notify(SP.Enter)
  }

  /** Waiting data keeps the write interest, because no write returns 0. */
  predicate Inv(s: State) {
    SP.Inv(s.send) && !s.send.stalled
  }

  lemma UnservedStep(s: State, l: Label)
    requires Inv(s) && Next(s, l).Some?
    ensures
      var t := Next(s, l).value;
      Inv(t) && (Unserved(t) <==> HidesWrite(s, l) || (Unserved(s) && OnlyEnters(s, l)))
  {
    match l
    case Notify(step) => SP.InvStep(s.send, step);
    case Event(taken) =>
      if !s.unread && Writable(s) {
        SP.InvStep(s.send, SP.Write(taken));
      }
    case _ =>
  }

  /** Over a whole run, data that the kernel has room for waits at the end without a report to come exactly if
      some event carried both EPOLLIN and EPOLLOUT, so that it was handled by Read alone, and since then
      nothing has happened but notifiers entering. */
  lemma {:induction false} UnservedIff(ls: seq<Label>, s: State)
    requires Run(Next, INIT, ls) == Some(s)
    ensures Unserved(s) <==> exists i :: LastsFrom(Next, HidesWrite, OnlyEnters, INIT, ls, i)
  {
    forall t, l | Inv(t) && Next(t, l).Some?
      ensures Inv(Next(t, l).value)
      ensures Unserved(Next(t, l).value) <==> HidesWrite(t, l) || (Unserved(t) && OnlyEnters(t, l))
    {
      UnservedStep(t, l);
    }
    RunLasting(Next, Inv, Unserved, HidesWrite, OnlyEnters, INIT, ls);
  }

  /** A notifier has appended one byte and armed. */
  lemma ToArmed() returns (s: State)
    ensures Reaches(Next, INIT, s)
    ensures s == INIT.(send := SP.INIT.(buffer := "x", armed := true, accepted := "x"), edge := true)
  {
    ReachesSelf(Next, INIT);
    s := ReachesStep(Next, INIT, INIT, Notify(SP.Enter));
    s := ReachesStep(Next, INIT, s, Notify(SP.Append("x")));
    assert s.send.buffer == [] + "x" == "x" && s.send.accepted == [] + "x";
    s := ReachesStep(Next, INIT, s, Notify(SP.Arm));
  }

  /** A run in which an event that carries both flags takes the report that there is room with it. */
  lemma ReadHidesWrite() returns (s: State)
    ensures Reaches(Next, INIT, s) && Unserved(s) && s.send.active && !s.unread
  {
    s := ToArmed();
    s := ReachesStep(Next, INIT, s, Arrive);
    s := ReachesStep(Next, INIT, s, Event(0));
  }
}
