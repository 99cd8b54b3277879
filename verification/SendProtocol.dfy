/** The sending half of a channel: threads append to the send buffer under the lock and arm EPOLLOUT
    after they have left it; the event loop writes, and disarms when it finds the buffer empty. */
module SendProtocol {
  import opened Runs

  datatype State = State(
    active: bool,
    buffer: seq<char>,     // _sendingBuf
    armed: bool,           // the kernel watches the descriptor for EPOLLOUT
    entering: nat,         // notifiers that have seen the channel active and not appended yet
    unarmed: nat,          // notifiers that have appended and not armed yet
    failed: bool,          // a write has failed, the sending side is shut down
    stalled: bool,         // history: a write has returned 0 for a non-empty buffer
    accepted: seq<char>,   // history: all data appended
    sent: seq<char>        // history: all data the kernel took
  )

  datatype Label =
    | Enter | Append(data: seq<char>) | Arm
    | Write(result: int)
    | Inactivate

  const INIT := State(true, [], false, 0, 0, false, false, [], [])

  function Next(s: State, l: Label): Option<State> {
    match l
    case Enter => if s.active then Some(s.(entering := s.entering + 1)) else None
    case Append(data) =>
      if s.entering > 0 then
        Some(s.(entering := s.entering - 1, unarmed := s.unarmed + 1,
                buffer := s.buffer + data, accepted := s.accepted + data))
      else None
    case Arm => if s.unarmed > 0 then Some(s.(unarmed := s.unarmed - 1, armed := true)) else None
    case Write(result) =>
      if !s.active || result > |s.buffer| then None
      else if s.buffer == [] then Some(s.(armed := false))
      else if result > 0 then Some(s.(buffer := s.buffer[result..], sent := s.sent + s.buffer[..result]))
      else if result == 0 then Some(s.(armed := false, stalled := true))
      else Some(s.(failed := true))
    case Inactivate => Some(s.(active := false))
  }

  /** Data is waiting, the descriptor is not watched, and nobody is about to arm it. */
  predicate InterestLost(s: State) {
    s.buffer != [] && !s.armed && s.unarmed == 0
  }

  predicate Inv(s: State) {
    && s.sent + s.buffer == s.accepted
    && (!s.stalled ==> !InterestLost(s))
  }

  /** Nothing appended is lost, duplicated or reordered, whatever the writes return; and waiting data
      keeps the write interest as long as no write has returned 0. */
  lemma SendStream(s: State)
    requires Reaches(Next, INIT, s)
    ensures s.sent + s.buffer == s.accepted
    ensures !s.stalled ==> !InterestLost(s)
  {
    forall t, l | Inv(t) && Next(t, l).Some? ensures Inv(Next(t, l).value) {
      InvStep(t, l);
    }
    ReachesKeeps(Next, Inv, INIT, s);
  }

  lemma InvStep(s: State, l: Label)
    requires Inv(s) && Next(s, l).Some?
    ensures Inv(Next(s, l).value)
  {
    if l.Write? && s.buffer != [] && l.result > 0 {
      assert s.buffer == s.buffer[..l.result] + s.buffer[l.result..];
    }
  }

  /** A write that returns 0 for a non-empty buffer, with no notifier between appending and arming. */
  predicate Drops(s: State, l: Label) {
    l == Write(0) && s.buffer != [] && s.unarmed == 0
  }

  /** A step that appends nothing and leaves data in the buffer. */
  predicate LeavesWaiting(s: State, l: Label) {
    && !l.Append? && s.buffer != []
    && (l.Write? ==> l.result < |s.buffer|)
  }

  /** The write interest is lost after a step exactly if the step drops it, or it was lost and the step leaves
      data waiting. */
  lemma InterestLostIff(s: State, l: Label)
    requires Next(s, l).Some?
    ensures InterestLost(Next(s, l).value) <==> Drops(s, l) || (InterestLost(s) && LeavesWaiting(s, l))
  {
  }

  /** Over a whole run the write interest is lost at the end exactly if some step has dropped it and all later
      ones have left data waiting. */
  lemma {:induction false} InterestLostByRun(ls: seq<Label>)
    requires Run(Next, INIT, ls).Some?
    ensures InterestLost(Run(Next, INIT, ls).value)
            <==> exists i :: LastsFrom(Next, Drops, LeavesWaiting, INIT, ls, i)
  {
    forall t, l | Next(t, l).Some?
      ensures InterestLost(Next(t, l).value) <==> Drops(t, l) || (InterestLost(t) && LeavesWaiting(t, l))
    {
      InterestLostIff(t, l);
    }
    RunLasting(Next, (t: State) => true, InterestLost, Drops, LeavesWaiting, INIT, ls);
  }

  /** A write that finds nothing to send, or sends nothing, takes the write interest away. */
  predicate KeepsArmed(s: State, l: Label) {
    l.Write? ==> s.buffer != [] && l.result != 0
  }

  predicate Arms(s: State, l: Label) {
    l.Arm?
  }

  /** A write of a non-empty buffer that returns an error. */
  predicate Fails(s: State, l: Label) {
    l.Write? && s.buffer != [] && l.result < 0
  }

  /** Over a whole run the descriptor is watched at the end exactly if some step armed it and no later write has
      found the buffer empty or returned 0; and the sending side is shut down exactly if some write of a
      non-empty buffer has failed. */
  lemma {:induction false} WatchedIff(ls: seq<Label>, s: State)
    requires Run(Next, INIT, ls) == Some(s)
    ensures s.armed <==> exists i :: LastsFrom(Next, Arms, KeepsArmed, INIT, ls, i)
    ensures s.failed <==> exists i :: HappensAt(Next, Fails, INIT, ls, i)
  {
    var armed, whole := (t: State) => t.armed, (t: State) => !t.failed;
    RunLasting(Next, (t: State) => true, armed, Arms, KeepsArmed, INIT, ls);
    RunUnspoilt(Next, (t: State) => true, whole, Fails, INIT, ls);
  }

  lemma ZeroWriteLosesInterest() returns (s: State)
    ensures Reaches(Next, INIT, s) && s.active && !s.failed && InterestLost(s)
  {
    ReachesSelf(Next, INIT);
    s := ReachesStep(Next, INIT, INIT, Enter);
    s := ReachesStep(Next, INIT, s, Append("x"));
    s := ReachesStep(Next, INIT, s, Arm);
    s := ReachesStep(Next, INIT, s, Write(0));
  }

  /** Once appending stops and every notifier has armed, writes that take at least one byte each send
      everything accepted, in as many steps as there are bytes at most, and the next one disarms. */
  lemma {:induction false} WritesDrain(s: State, results: seq<nat>)
    requires Reaches(Next, INIT, s) && s.active && |results| >= |s.buffer|
    requires forall i :: 0 <= i < |results| ==> results[i] >= 1
    ensures Drain(s, results).buffer == [] && Drain(s, results).sent == s.accepted
    ensures var t := Drain(s, results); Next(t, Write(0)) == Some(t.(armed := false))
    decreases |results|
  {
    SendStream(s);
    if s.buffer == [] {
      assert s.sent + [] == s.sent;
    } else {
      var t := ReachesStep(Next, INIT, s, Write(Taken(results[0], s.buffer)));
      WritesDrain(t, results[1..]);
    }
  }

  function Taken(r: nat, buffer: seq<char>): nat {
    if r < |buffer| then r else |buffer|
  }

  /** The event loop calls Write until the buffer is empty; the kernel takes at most the given amounts. */
  function Drain(s: State, results: seq<nat>): State
    requires s.active
    decreases |results|
  {
    if s.buffer == [] || results == [] then s
    else Drain(Next(s, Write(Taken(results[0], s.buffer))).value, results[1..])
  }
}
