/** The logger: threads append messages under the lock; one flush thread swaps the two vectors and delivers
    the swapped one, message by message and sink by sink, until it meets a FATAL message. */
module LoggerProtocol {
  import opened LogStreams
  import opened Runs

  datatype Level = INFO | WARN | ERROR | FATAL

  datatype Msg = Msg(level: Level, text: Text)

  function Texts(ms: seq<Msg>): seq<seq<char>> {
    seq(|ms|, k requires 0 <= k < |ms| => ms[k].text)
  }

  /** Where the flush thread stands.  Delivering(i, j): message i of the backup vector goes to sink j next. */
  datatype Flusher = Waiting | Delivering(i: nat, j: nat) | Aborted

  datatype State = State(
    buf: seq<Msg>,
    backup: seq<Msg>,
    flusher: Flusher,
    sinks: seq<seq<Msg>>,  // what each sink has received
    logged: seq<Msg>,      // history: every message buffered
    done: nat              // history: messages delivered to all sinks
  )

  datatype Label = Buffering(m: Msg) | Swap | Deliver | NextMessage | EndBatch

  function Init(sinks: nat): State {
    State([], [], Waiting, seq(sinks, _ => []), [], 0)
  }

  function Next(s: State, l: Label): Option<State> {
    match l
    case Buffering(m) =>
      if s.flusher.Aborted? then None else Some(s.(buf := s.buf + [m], logged := s.logged + [m]))
    case Swap =>
      if s.flusher.Waiting? && s.buf != [] then
        Some(s.(buf := s.backup, backup := s.buf, flusher := Delivering(0, 0)))
      else None
    case Deliver =>
      if s.flusher.Delivering? && s.flusher.i < |s.backup| && s.flusher.j < |s.sinks| then
        var Delivering(i, j) := s.flusher;
        Some(s.(sinks := s.sinks[j := s.sinks[j] + [s.backup[i]]], flusher := Delivering(i, j + 1)))
      else None
    case NextMessage =>
      if s.flusher.Delivering? && s.flusher.i < |s.backup| && s.flusher.j == |s.sinks| then
        if s.backup[s.flusher.i].level == FATAL then
          Some(s.(buf := [], backup := [], flusher := Aborted, done := s.done + 1))
        else
          Some(s.(flusher := Delivering(s.flusher.i + 1, 0), done := s.done + 1))
      else None
    case EndBatch =>
      if s.flusher.Delivering? && s.flusher.i == |s.backup| then
        Some(s.(backup := [], flusher := Waiting))
      else None
  }

  /** How many messages sink j has received. */
  function Received(s: State, j: nat): nat {
    if s.flusher.Delivering? && j < s.flusher.j then s.done + 1 else s.done
  }

  function Remaining(s: State): seq<Msg> {
    match s.flusher
    case Delivering(i, _) => if i <= |s.backup| then s.backup[i..] + s.buf else s.buf
    case _ => s.buf
  }

  /** What is not delivered to all sinks is still in the vectors. */
  predicate Complete(s: State) {
    s.done <= |s.logged| && (!s.flusher.Aborted? ==> s.logged[s.done..] == Remaining(s))
  }

  ghost predicate Inv(s: State) {
    && Complete(s)
    && (s.flusher.Waiting? ==> s.backup == [])
    && (s.flusher.Delivering? ==>
      && s.flusher.i <= |s.backup| && s.flusher.j <= |s.sinks|
      && (s.flusher.j > 0 ==> s.flusher.i < |s.backup|))
    && (forall j :: 0 <= j < |s.sinks| ==> Received(s, j) <= |s.logged| && s.sinks[j] == s.logged[..Received(s, j)])
    && (forall k :: 0 <= k < s.done - (if s.flusher.Aborted? then 1 else 0) ==> s.logged[k].level != FATAL)
    && (s.flusher.Aborted? ==> s.done > 0 && s.logged[s.done - 1].level == FATAL)
  }

  // How the steps change what is left of the backup vector, followed by the buffer.

  lemma RestMore(logged: seq<Msg>, done: nat, a: seq<Msg>, b: seq<Msg>, m: Msg)
    requires done <= |logged| && logged[done..] == a + b
    ensures (logged + [m])[done..] == a + (b + [m])
  {
    assert (logged + [m])[done..] == logged[done..] + [m];
  }

  lemma RestStart(a: seq<Msg>)
    ensures a[0..] + [] == a && [] + a == a
  {
  }

  lemma RestTail(logged: seq<Msg>, done: nat, a: seq<Msg>, i: nat, b: seq<Msg>)
    requires done <= |logged| && i < |a| && logged[done..] == a[i..] + b
    ensures done < |logged| && logged[done] == a[i] && logged[done + 1..] == a[i + 1..] + b
  {
    assert logged[done] == logged[done..][0] == (a[i..] + b)[0];
    assert logged[done + 1..] == logged[done..][1..] == (a[i..] + b)[1..];
  }

  lemma RestEnd(a: seq<Msg>, b: seq<Msg>)
    ensures a[|a|..] + b == b
  {
  }

  lemma SinkStep(s: State, l: Label, j: nat)
    requires Inv(s) && Next(s, l).Some? && j < |s.sinks|
    ensures
      var t := Next(s, l).value;
      Received(t, j) <= |t.logged| && t.sinks[j] == t.logged[..Received(t, j)]
  {
    if l.Buffering? {
      assert (s.logged + [l.m])[..Received(s, j)] == s.logged[..Received(s, j)];
    } else if l.Deliver? && j == s.flusher.j {
      RestTail(s.logged, s.done, s.backup, s.flusher.i, s.buf);
    }
  }

  lemma CompleteBuffering(s: State, m: Msg)
    requires Inv(s) && Next(s, Buffering(m)).Some?
    ensures Complete(Next(s, Buffering(m)).value)
  {
    if s.flusher.Delivering? {
      RestMore(s.logged, s.done, s.backup[s.flusher.i..], s.buf, m);
    } else {
      RestStart(s.buf);
      RestMore(s.logged, s.done, [], s.buf, m);
      RestStart(s.buf + [m]);
    }
  }

  lemma CompleteNext(s: State)
    requires Inv(s) && Next(s, NextMessage).Some?
    ensures Complete(Next(s, NextMessage).value)
  {
    RestTail(s.logged, s.done, s.backup, s.flusher.i, s.buf);
  }

  lemma CompleteStep(s: State, l: Label)
    requires Inv(s) && Next(s, l).Some?
    ensures Complete(Next(s, l).value)
  {
    match l
    case Buffering(m) => CompleteBuffering(s, m);
    case Swap => RestStart(s.buf);
    case NextMessage => CompleteNext(s);
    case EndBatch => RestEnd(s.backup, s.buf);
    case Deliver =>
  }

  /** Nothing up to the messages delivered to all sinks is FATAL, except the last if the process has aborted. */
  lemma FatalStep(s: State, l: Label)
    requires Inv(s) && Next(s, l).Some?
    ensures
      var t := Next(s, l).value;
      && t.done <= |t.logged|
      && (forall k :: 0 <= k < t.done - (if t.flusher.Aborted? then 1 else 0) ==> t.logged[k].level != FATAL)
      && (t.flusher.Aborted? ==> t.done > 0 && t.logged[t.done - 1].level == FATAL)
  {
    if l.NextMessage? {
      RestTail(s.logged, s.done, s.backup, s.flusher.i, s.buf);
    }
  }

  lemma InvStep(s: State, l: Label)
    requires Inv(s) && Next(s, l).Some?
    ensures Inv(Next(s, l).value)
  {
    var t := Next(s, l).value;
    forall j | 0 <= j < |s.sinks|
      ensures Received(t, j) <= |t.logged| && t.sinks[j] == t.logged[..Received(t, j)]
    {
      SinkStep(s, l, j);
    }
    CompleteStep(s, l);
    FatalStep(s, l);
  }

  lemma ReachableInv(sinks: nat, s: State)
    requires Reaches(Next, Init(sinks), s)
    ensures Inv(s)
  {
    forall t, l | Inv(t) && Next(t, l).Some? ensures Inv(Next(t, l).value) {
      InvStep(t, l);
    }
    ReachesKeeps(Next, Inv, Init(sinks), s);
  }

  /** Over every interleaving: each sink has received a prefix of the messages in the order they were
      buffered, two sinks are never more than one message apart, and what is not delivered yet is still
      in the vectors, in order. */
  lemma OrderAndCompleteness(sinks: nat, s: State)
    requires Reaches(Next, Init(sinks), s)
    ensures forall j :: 0 <= j < |s.sinks| ==> s.sinks[j] <= s.logged && s.done <= |s.sinks[j]| <= s.done + 1
    ensures s.done <= |s.logged| && (!s.flusher.Aborted? ==> s.logged[..s.done] + Remaining(s) == s.logged)
    ensures s.flusher.Waiting? ==> s.backup == []
    ensures s.flusher.Waiting? && s.buf == [] ==> forall j :: 0 <= j < |s.sinks| ==> s.sinks[j] == s.logged
  {
    ReachableInv(sinks, s);
    assert !s.flusher.Aborted? ==> s.logged[..s.done] + s.logged[s.done..] == s.logged;
  }

  /** The number of messages before the first FATAL one. */
  function BeforeFatal(ms: seq<Msg>): (n: nat)
    ensures n <= |ms|
    ensures forall k :: 0 <= k < n ==> ms[k].level != FATAL
    ensures n < |ms| ==> ms[n].level == FATAL
  {
    if ms == [] || ms[0].level == FATAL then 0
    else
      var n := BeforeFatal(ms[1..]);
      assert forall k :: 1 <= k < n + 1 ==> ms[k] == ms[1..][k - 1];
      n + 1
  }

  /** An aborted process has dropped what it had not delivered. */
  predicate Dropped(s: State) {
    s.flusher.Aborted? ==> s.buf == [] && s.backup == []
  }

  /** When the flush thread has aborted, each sink has received exactly the messages buffered up to and
      including the first FATAL one, and both vectors are empty. */
  lemma FatalCut(sinks: nat, s: State)
    requires Reaches(Next, Init(sinks), s) && s.flusher.Aborted?
    ensures BeforeFatal(s.logged) < |s.logged| && s.buf == [] && s.backup == []
    ensures forall j :: 0 <= j < |s.sinks| ==> s.sinks[j] == s.logged[..BeforeFatal(s.logged) + 1]
  {
    ReachableInv(sinks, s);
    ReachesKeeps(Next, Dropped, Init(sinks), s);
    var n := BeforeFatal(s.logged);
    assert n == s.done - 1;
  }

  /** While the logger runs, the flush thread can always go on, unless everything is delivered. */
  lemma FlusherProgress(sinks: nat, s: State)
    requires Reaches(Next, Init(sinks), s) && !s.flusher.Aborted?
    ensures Next(s, Swap).None? && Next(s, Deliver).None? && Next(s, NextMessage).None? && Next(s, EndBatch).None?
            <==> s.done == |s.logged| && s.flusher.Waiting?
  {
    ReachableInv(sinks, s);
    assert |s.logged[s.done..]| == |Remaining(s)|;
  }
}
