/** The logger object with its file sinks.  Buffering is what other threads call; Flush is the flush thread's
    nested loop, with other threads buffering messages before each of its steps as a schedule says. */
module Loggers {
  import opened LogFiles
  import opened LoggerProtocol
  import opened Runs

  /** The messages of the first n slices of a schedule. */
  function Slices(schedule: seq<seq<Msg>>, n: nat): seq<Msg>
    requires n <= |schedule|
  {
    if n == 0 then [] else Slices(schedule, n - 1) + schedule[n - 1]
  }

  class Logger {
    const dests: seq<LogFile>
    var stop: bool
    var buf: seq<Msg>
    var backup: seq<Msg>

    var flusher: Flusher
    ghost var sinks: seq<seq<Msg>>  // history: what each sink has been given
    ghost var logged: seq<Msg>
    ghost var done: nat

    ghost function Abs(): State
      reads this
    {
      State(buf, backup, flusher, sinks, logged, done)
    }

    /** Each file sink has been given, and holds, what the protocol says. */
    ghost predicate FilesHold()
      reads this, dests
    {
      && |sinks| == |dests| && (forall i, j :: 0 <= i < j < |dests| ==> dests[i] != dests[j])
      && forall j :: 0 <= j < |dests| ==> dests[j].Valid() && dests[j].messages == Texts(sinks[j])
    }

    ghost predicate Valid()
      reads this, dests
    {
      Reaches(Next, Init(|dests|), Abs()) && (stop <==> flusher.Aborted?) && FilesHold()
    }

    constructor (dests: seq<LogFile>)
      requires forall i, j :: 0 <= i < j < |dests| ==> dests[i] != dests[j]
      requires forall j :: 0 <= j < |dests| ==> dests[j].Valid() && dests[j].messages == []
      ensures Valid() && this.dests == dests && !stop && flusher.Waiting? && logged == []
    {
      this.dests, stop, buf, backup := dests, false, [], [];
      sinks, flusher, logged, done := seq(|dests|, _ => []), Waiting, [], 0;
      new;
      ReachesSelf(Next, Init(|dests|));
    }

    ghost method Advance(before: State, l: Label)
      requires Reaches(Next, Init(|dests|), before) && Next(before, l) == Some(Abs())
      ensures Reaches(Next, Init(|dests|), Abs())
    {
      var after := ReachesStep(Next, Init(|dests|), before, l);
    }

    /** The critical section of Buffering.  Once the process has aborted nobody logs. */
    method Buffering(m: Msg)
      requires Valid() && !stop
      modifies `buf, `logged
      ensures Valid() && Next(old(Abs()), LoggerProtocol.Buffering(m)) == Some(Abs())
    {
      buf, logged := buf + [m], logged + [m];
      Advance(old(Abs()), LoggerProtocol.Buffering(m));
    }

    /** Other threads buffer the next slice of the schedule. */
    method Others(schedule: seq<seq<Msg>>, before: nat) returns (used: nat)
      requires Valid() && !stop && before <= |schedule|
      modifies `buf, `logged
      ensures Valid() && used == if before < |schedule| then before + 1 else before
      ensures before == |schedule| ==> buf == old(buf) && logged == old(logged)
      ensures before < |schedule| ==> buf == old(buf) + schedule[before] && logged == old(logged) + schedule[before]
    {
      used := before;
      if used < |schedule| {
        BufferingAll(schedule[used]);
        used := used + 1;
      }
    }

    method BufferingAll(ms: seq<Msg>)
      requires Valid() && !stop
      modifies `buf, `logged
      ensures Valid() && buf == old(buf) + ms && logged == old(logged) + ms
    {
      for k := 0 to |ms|
        invariant Valid() && buf == old(buf) + ms[..k] && logged == old(logged) + ms[..k]
      {
        Buffering(ms[k]);
      }
      assert ms[..|ms|] == ms;
    }

    /** The critical section of Flush. */
    method SwapBuffers()
      requires Valid() && flusher.Waiting? && buf != []
      modifies `buf, `backup, `flusher
      ensures Valid() && Next(old(Abs()), Swap) == Some(Abs())
      ensures backup == old(buf) && buf == [] && flusher == Delivering(0, 0)
    {
      ReachableInv(|dests|, Abs());
      buf, backup := backup, buf;
      flusher := Delivering(0, 0);
      Advance(old(Abs()), Swap);
    }

    /** dest->Flush for the current message and sink. */
    method DeliverOne()
      requires Valid() && flusher.Delivering? && flusher.i < |backup| && flusher.j < |dests|
      modifies `sinks, `flusher, dests[flusher.j]
      ensures Valid() && Next(old(Abs()), Deliver) == Some(Abs())
      ensures flusher == Delivering(old(flusher).i, old(flusher).j + 1)
    {
      var Delivering(i, j) := flusher;
      dests[j].Flush(backup[i].text);
      assert Texts(sinks[j] + [backup[i]]) == Texts(sinks[j]) + [backup[i].text];
      sinks := sinks[j := sinks[j] + [backup[i]]];
      flusher := Delivering(i, j + 1);
      Advance(old(Abs()), Deliver);
    }

    /** The test for FATAL after the sinks: stop and drop everything, or go on. */
    method FinishMessage()
      requires Valid() && flusher.Delivering? && flusher.i < |backup| && flusher.j == |dests|
      modifies `stop, `buf, `backup, `flusher, `done
      ensures Valid() && Next(old(Abs()), NextMessage) == Some(Abs())
      ensures stop <==> old(backup)[old(flusher).i].level == FATAL
      ensures stop ==> buf == [] && backup == []
      ensures !stop ==> flusher == Delivering(old(flusher).i + 1, 0) && backup == old(backup) && buf == old(buf)
    {
      if backup[flusher.i].level == FATAL {
        stop := true;
        buf, backup := [], [];
        flusher := Aborted;
      } else {
        flusher := Delivering(flusher.i + 1, 0);
      }
      done := done + 1;
      Advance(old(Abs()), NextMessage);
    }

    method ClearBackup()
      requires Valid() && flusher.Delivering? && flusher.i == |backup|
      modifies `backup, `flusher
      ensures Valid() && Next(old(Abs()), EndBatch) == Some(Abs()) && flusher.Waiting? && !stop
    {
      backup, flusher := [], Waiting;
      Advance(old(Abs()), EndBatch);
    }

    /** Other threads have logged the slices used so far, behind `start`. */
    ghost predicate LoggedBy(schedule: seq<seq<Msg>>, used: nat, start: seq<Msg>)
      reads `logged
    {
      used <= |schedule| && logged == start + Slices(schedule, used)
    }

    /** One step of the flush thread after the next slice of the schedule. */
    method OthersThenDeliver(schedule: seq<seq<Msg>>, before: nat, ghost start: seq<Msg>) returns (used: nat)
      requires Valid() && LoggedBy(schedule, before, start)
      requires flusher.Delivering? && flusher.i < |backup| && flusher.j < |dests|
      modifies `buf, `logged, `sinks, `flusher, dests[flusher.j]
      ensures Valid() && before <= used && LoggedBy(schedule, used, start)
      ensures flusher == Delivering(old(flusher).i, old(flusher).j + 1)
      ensures before == |schedule| ==> buf == old(buf)
    {
      used := OthersLog(schedule, before, start);
      DeliverOne();
    }

    method OthersLog(schedule: seq<seq<Msg>>, before: nat, ghost start: seq<Msg>) returns (used: nat)
      requires Valid() && !stop && LoggedBy(schedule, before, start)
      modifies `buf, `logged
      ensures Valid() && LoggedBy(schedule, used, start)
      ensures used == if before < |schedule| then before + 1 else before
      ensures before == |schedule| ==> buf == old(buf)
    {
      used := Others(schedule, before);
      if before < |schedule| {
        assert start + Slices(schedule, before) + schedule[before] == start + Slices(schedule, used);
      }
    }

    /** One message: all sinks in turn, then the test for FATAL. */
    method DeliverMessage(i: nat, schedule: seq<seq<Msg>>, before: nat, ghost start: seq<Msg>) returns (used: nat)
      requires Valid() && flusher == Delivering(i, 0) && i < |backup| && LoggedBy(schedule, before, start)
      modifies this, dests
      ensures Valid() && before <= used && LoggedBy(schedule, used, start)
      ensures !stop ==> flusher == Delivering(i + 1, 0) && backup == old(backup)
      ensures !stop && before == |schedule| ==> buf == old(buf)
      ensures stop ==> buf == [] && backup == []
    {
      used := before;
      for j := 0 to |dests|
        invariant Valid() && before <= used && !stop && LoggedBy(schedule, used, start)
        invariant flusher == Delivering(i, j) && backup == old(backup)
        invariant before == |schedule| ==> buf == old(buf)
      {
        used := OthersThenDeliver(schedule, used, start);
      }
      FinishMessage();
    }

    /** One batch: swap, deliver every message, clear. */
    method FlushBatch(schedule: seq<seq<Msg>>, before: nat, ghost start: seq<Msg>) returns (used: nat)
      requires Valid() && flusher.Waiting? && buf != [] && LoggedBy(schedule, before, start)
      modifies this, dests
      ensures Valid() && before <= used && LoggedBy(schedule, used, start) && (stop || flusher.Waiting?)
      ensures !stop && before == |schedule| ==> buf == []
      ensures stop ==> buf == [] && backup == []
    {
      SwapBuffers();
      used := before;
      var i := 0;
      while i < |backup| && !stop
        invariant Valid() && before <= used && LoggedBy(schedule, used, start)
        invariant !stop ==> i <= |backup| && flusher == Delivering(i, 0)
        invariant !stop && before == |schedule| ==> buf == []
        invariant stop ==> buf == [] && backup == []
        decreases !stop, |backup| - i
      {
        used := DeliverMessage(i, schedule, used, start);
        i := i + 1;
      }
      if !stop {
        ClearBackup();
      }
    }

    /** Flush.  When the schedule is over and everything is delivered it waits: all messages of the schedule were
        logged, and every sink has received all messages.  If it has met a FATAL message it has aborted; the
        messages scheduled up to then were logged, every sink has received exactly the messages up to the first
        FATAL one, and what was not delivered is dropped. */
    method Flush(schedule: seq<seq<Msg>>) returns (used: nat)
      requires Valid() && flusher.Waiting?
      modifies this, dests
      ensures Valid() && used <= |schedule| && logged == old(logged) + Slices(schedule, used)
      ensures buf == [] && backup == []
      ensures !stop ==> used == |schedule| && forall j :: 0 <= j < |dests| ==> sinks[j] == logged
      ensures stop ==> BeforeFatal(logged) < |logged|
                       && forall j :: 0 <= j < |dests| ==> sinks[j] == logged[..BeforeFatal(logged) + 1]
    {
      used := 0;
      ghost var start := logged;
      assert start + [] == start;
      while !stop && (used < |schedule| || buf != [])
        invariant Valid() && LoggedBy(schedule, used, start) && (stop || flusher.Waiting?)
        invariant stop ==> buf == [] && backup == []
        decreases |schedule| - used, !stop, |buf|
      {
        used := OthersLog(schedule, used, start);
        if buf != [] {
          used := FlushBatch(schedule, used, start);
        }
      }
      OrderAndCompleteness(|dests|, Abs());
      if stop {
        FatalCut(|dests|, Abs());
      }
    }
  }
}
