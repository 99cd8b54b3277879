/** The channel object: one connection with its receive and send buffers.  The socket is replaced by
    arguments: the bytes it has to offer, and how many of them each call of read returns. */
module Channels {
  import R = Runs
  import SP = SendProtocol

  import opened Counting
  import opened ReceiveStream

  datatype Notice = Nothing | DataReady | Closed

  /** Memory `mem` with `count` bytes received holds `all`, as far as the string's size reaches. */
  ghost predicate Holds(mem: seq<char>, count: nat, all: seq<char>) {
    BUFSIZE <= |mem| && count == |all| <= |mem| && mem[..Least(count, BUFSIZE)] == Payload(all)
  }

  /** Another memory that agrees on the string's size still holds the same, and holds also what stands
      behind the received bytes. */
  lemma HoldsMore(mem: seq<char>, mem': seq<char>, count: nat, all: seq<char>, more: seq<char>)
    requires Holds(mem, count, all) && count + |more| <= |mem| <= |mem'|
    requires mem[count..count + |more|] == more && mem'[..BUFSIZE] == mem[..BUFSIZE]
    ensures Holds(mem', count + |more|, all + more)
  {
    var n := Least(count + |more|, BUFSIZE);
    assert Payload(all + more) == (all + more)[..n];
    forall i | 0 <= i < n ensures mem'[i] == (all + more)[i] {
      assert mem'[i] == mem'[..BUFSIZE][i] == mem[..BUFSIZE][i] == mem[i];
      if i < count {
        assert mem[i] == mem[..Least(count, BUFSIZE)][i] == Payload(all)[i] == all[i];
      } else {
        assert mem[i] == mem[count..count + |more|][i - count];
      }
    }
    assert mem'[..n] == (all + more)[..n];
  }

  /** The bytes of one more read, behind those counted before. */
  lemma BytesOn(start: seq<char>, offered: seq<char>, used: nat, all: seq<char>, more: seq<char>)
    requires used + |more| <= |offered| && all == start + offered[..used] && more == offered[used..used + |more|]
    ensures all + more == start + offered[..used + |more|]
  {
  }

  // ---------------------------------------------------------------- the calls of read

  /** What the i-th call returns as far as `amounts` reaches; after that nothing is there. */
  function Amount(amounts: seq<int>, i: nat): int {
    if i < |amounts| then amounts[i] else -1
  }

  /** How many bytes a call has brought. */
  function Brought(result: int): nat {
    if result > 0 then result else 0
  }

  /** What a call that is asked for some bytes may return while `rest` bytes are there. */
  predicate Answers(result: int, asked: nat, rest: nat, amount: int) {
    && asked >= 1
    && (result == 0 <==> amount == 0)
    && (result > 0 <==> amount > 0 && rest > 0)
    && (result > 0 ==> result == Least(amount, Least(asked, rest)))
    && (result < 0 ==> result == -1)
  }

  /** The first n calls of one Read: each comes after one that has brought bytes, is asked for at least one byte,
      and returns what its amount allows; together they have brought the bytes used. */
  predicate Calls(offered: nat, amounts: seq<int>, asked: seq<nat>, results: seq<int>, n: nat, used: nat) {
    && n <= |asked| == |results| && used <= offered
    && if n == 0 then used == 0
       else
         var brought := Brought(results[n - 1]);
         && brought <= used && (n > 1 ==> results[n - 2] > 0)
         && Answers(results[n - 1], asked[n - 1], offered - (used - brought), Amount(amounts, n - 1))
         && Calls(offered, amounts, asked, results, n - 1, used - brought)
  }

  lemma {:induction false} CallsKept(offered: nat, amounts: seq<int>, asked: seq<nat>, results: seq<int>, n: nat,
                                     used: nat, more: nat, got: int)
    requires Calls(offered, amounts, asked, results, n, used)
    ensures Calls(offered, amounts, asked + [more], results + [got], n, used)
  {
    if n > 0 {
      CallsKept(offered, amounts, asked, results, n - 1, used - Brought(results[n - 1]), more, got);
    }
  }

  lemma CallsMore(offered: nat, amounts: seq<int>, asked: seq<nat>, results: seq<int>, used: nat, more: nat, got: int)
    requires Calls(offered, amounts, asked, results, |results|, used) && used + Brought(got) <= offered
    requires results != [] ==> results[|results| - 1] > 0
    requires Answers(got, more, offered - used, Amount(amounts, |results|))
    ensures Calls(offered, amounts, asked + [more], results + [got], |results| + 1, used + Brought(got))
  {
    CallsKept(offered, amounts, asked, results, |results|, used, more, got);
  }

  /** What holds of each call: all but the last have brought bytes, and the bytes used are those they brought. */
  lemma {:induction false} CallsMean(offered: nat, amounts: seq<int>, asked: seq<nat>, results: seq<int>, n: nat,
                                     used: nat)
    requires Calls(offered, amounts, asked, results, n, used)
    ensures used == Sum(Brought, results[..n])
    ensures forall i :: 0 <= i < n ==>
              asked[i] >= 1 && (results[i] == 0 <==> Amount(amounts, i) == 0) && (i < n - 1 ==> results[i] > 0)
    ensures used + 1 >= n && (n > 0 && results[n - 1] > 0 ==> used >= n)
  {
    if n > 0 {
      CallsMean(offered, amounts, asked, results, n - 1, used - Brought(results[n - 1]));
      assert results[..n][..n - 1] == results[..n - 1];
    }
  }

  /** So the loop stops at the first call that brings nothing.  If the socket returns at least one byte as long as
      there are any, everything offered is read, and the end of the stream is not met; if the first call meets
      it, nothing is read. */
  lemma CallsDetermine(offered: nat, amounts: seq<int>, asked: seq<nat>, results: seq<int>, used: nat)
    requires Calls(offered, amounts, asked, results, |results|, used) && results != [] && results[|results| - 1] <= 0
    ensures used == Sum(Brought, results) && (forall a :: a in asked ==> a >= 1)
    ensures forall i :: 0 <= i < |results| - 1 ==> results[i] > 0
    ensures (forall a :: a in amounts ==> a >= 1) && |amounts| >= offered ==>
              used == offered && results[|results| - 1] < 0
    ensures |amounts| > 0 && amounts[0] == 0 ==> results == [0] && used == 0
  {
    CallsMean(offered, amounts, asked, results, |results|, used);
    assert results[..|results|] == results;
    var n := |results| - 1;
    assert n < |amounts| ==> amounts[n] in amounts;
    assert results[0] == 0 <==> Amount(amounts, 0) == 0;
  }

  /** What one call of Read does to the stream. */
  lemma AfterRead(ops: seq<Op>, bytes: seq<char>, ended: bool)
    requires ApplyAll(ops).open
    ensures
      var s := ApplyAll(ops + [Got(bytes)] + if ended then [Close] else []);
      s.undrained == ApplyAll(ops).undrained + bytes && s.open == !ended
  {
    ApplyMore(ops, Got(bytes));
    if ended {
      ApplyMore(ops + [Got(bytes)], Close);
    } else {
      assert ops + [Got(bytes)] + [] == ops + [Got(bytes)];
    }
  }

  class Channel {
    var active: bool
    var receivedCount: nat
    var receivedBuf: array<char>  // the string's memory: Length is its capacity, its size stays BUFSIZE
    var sendingBuf: seq<char>
    var sendingCapacity: nat

    var epollOut: bool            // the kernel watches the descriptor for EPOLLOUT
    var entering: nat             // notifiers that have seen the channel active and not appended yet
    var unarmed: nat              // notifiers that have appended and not armed yet
    var sendFailed: bool
    ghost var ops: seq<Op>        // history of the receiving half
    ghost var stalled: bool
    ghost var accepted: seq<char>
    ghost var sent: seq<char>

    ghost function Undrained(): seq<char>
      reads this
    {
      ApplyAll(ops).undrained
    }

    ghost function SendState(): SP.State
      reads this
    {
      SP.State(active, sendingBuf, epollOut, entering, unarmed, sendFailed, stalled, accepted, sent)
    }

    ghost predicate Valid()
      reads this, receivedBuf
    {
      && Holds(receivedBuf[..], receivedCount, Undrained()) && active == ApplyAll(ops).open
      && R.Reaches(SP.Next, SP.INIT, SendState())
    }

    constructor ()
      ensures Valid() && fresh(receivedBuf) && active && ops == [] && SendState() == SP.INIT
    {
      active, receivedCount, sendingBuf, sendingCapacity := true, 0, [], BUFSIZE;
      receivedBuf := new char[BUFSIZE](_ => '-');
      epollOut, entering, unarmed, sendFailed := false, 0, 0, false;
      ops, stalled, accepted, sent := [], false, [], [];
      new;
      R.ReachesSelf(SP.Next, SP.INIT);
    }

    ghost method Advance(before: SP.State, l: SP.Label)
      requires R.Reaches(SP.Next, SP.INIT, before) && SP.Next(before, l) == R.Some(SendState())
      ensures R.Reaches(SP.Next, SP.INIT, SendState())
    {
      var after := R.ReachesStep(SP.Next, SP.INIT, before, l);
    }

    // ---------------------------------------------------------------- receiving

    /** reserve: memory of at least the asked capacity, into which the string's size is copied; the rest
        of it is arbitrary. */
    method Reserve(capacity: nat, slack: nat)
      requires BUFSIZE <= receivedBuf.Length <= capacity
      modifies `receivedBuf
      ensures fresh(receivedBuf) && receivedBuf.Length == capacity + slack
      ensures receivedBuf[..BUFSIZE] == old(receivedBuf[..BUFSIZE])
    {
      var grown := new char[capacity + slack];
      forall i | 0 <= i < BUFSIZE {
        grown[i] := receivedBuf[i];
      }
      assert grown[..BUFSIZE] == receivedBuf[..BUFSIZE];
      receivedBuf := grown;
    }

    /** One call of ::read into the memory behind the received bytes.  Asked for no bytes it returns 0;
        otherwise 0 is the end of the stream and -1 an error or that nothing is there. */
    method ReadSocket(room: nat, offered: seq<char>, amount: int, ghost all: seq<char>) returns (got: int)
      requires receivedCount + room <= receivedBuf.Length && Holds(receivedBuf[..], receivedCount, all)
      modifies receivedBuf
      ensures Holds(receivedBuf[..], receivedCount, all)
      ensures got == if room == 0 || amount == 0 then 0
                     else if amount < 0 || offered == [] then -1
                     else Least(amount, Least(room, |offered|))
      ensures got > 0 ==> receivedBuf[receivedCount..receivedCount + got] == offered[..got]
    {
      if room == 0 || amount == 0 {
        got := 0;
      } else if amount < 0 || offered == [] {
        got := -1;
      } else {
        got := Least(amount, Least(room, |offered|));
        ghost var mem := receivedBuf[..];
        forall i | 0 <= i < got {
          receivedBuf[receivedCount + i] := offered[i];
        }
        assert receivedBuf[..Least(receivedCount, BUFSIZE)] == mem[..Least(receivedCount, BUFSIZE)];
      }
    }

    /** The top of the reading loop: grow by half if the last read has filled the memory, then count what
        it returned.  Afterwards there is room. */
    method GrowAndCount(got: nat, validSize: nat, slack: nat, ghost all: seq<char>, ghost more: seq<char>)
      requires Holds(receivedBuf[..], receivedCount, all) && got == |more|
      requires got <= validSize == receivedBuf.Length - receivedCount
      requires receivedBuf[receivedCount..receivedCount + got] == more
      modifies `receivedBuf, `receivedCount
      ensures receivedBuf == old(receivedBuf) || fresh(receivedBuf)
      ensures receivedCount == old(receivedCount) + got < receivedBuf.Length
      ensures receivedBuf.Length
              == if validSize == got then 3 * old(receivedBuf.Length) / 2 + slack else old(receivedBuf.Length)
      ensures Holds(receivedBuf[..], receivedCount, all + more)
    {
      ghost var mem := receivedBuf[..];
      if validSize == got {
        Reserve(3 * receivedBuf.Length / 2, slack);
        assert receivedBuf[..][..BUFSIZE] == mem[..BUFSIZE];
      }
      HoldsMore(mem, receivedBuf[..], receivedCount, all, more);
      receivedCount := receivedCount + got;
    }

    /** The condition of the reading loop; `more` is what the call has returned. */
    method ReadNext(room: nat, offered: seq<char>, used: nat, amount: int, ghost all: seq<char>)
      returns (got: int, ghost more: seq<char>)
      requires receivedCount + room <= receivedBuf.Length && Holds(receivedBuf[..], receivedCount, all)
      requires used <= |offered|
      modifies receivedBuf
      ensures Holds(receivedBuf[..], receivedCount, all)
      ensures |more| == (if got > 0 then got else 0) <= room && used + |more| <= |offered|
      ensures more == offered[used..used + |more|] == receivedBuf[receivedCount..receivedCount + |more|]
      ensures room > 0 ==> Answers(got, room, |offered| - used, amount)
    {
      got := ReadSocket(room, offered[used..], amount, all);
      more := if got > 0 then offered[used..][..got] else [];
    }

    /** Read.  `amounts` says what the calls of read return as far as it reaches, after which nothing more
        is there; `slack` is what the allocator gives on top of a request.  Every call asks for at least
        one byte, so that 0 is returned at the end of the stream only; the loop stops at the first call that
        brings nothing; the bytes read are added to those waiting, and at the end of the stream they stay
        there (see DeliverableIff). */
    method Read(offered: seq<char>, amounts: seq<int>, slack: nat)
      returns (used: nat, asked: seq<nat>, results: seq<int>, notice: Notice)
      requires Valid()
      modifies `active, `receivedCount, `receivedBuf, `ops, receivedBuf
      ensures Valid() && (receivedBuf == old(receivedBuf) || fresh(receivedBuf))
      ensures !old(active) ==> notice == Nothing && used == 0 && results == [] && ops == old(ops) && !active
      ensures old(active) ==>
                && Calls(|offered|, amounts, asked, results, |results|, used)
                && used == Sum(Brought, results) && (forall a :: a in asked ==> a >= 1)
                && results != [] && results[|results| - 1] <= 0
                && (forall i :: 0 <= i < |results| - 1 ==> results[i] > 0)
                && var ended := results[|results| - 1] == 0;
                && ops == old(ops) + [Got(offered[..used])] + (if ended then [Close] else [])
                && active == !ended && notice == if ended then Closed else DataReady
      ensures old(active) && (forall a :: a in amounts ==> a >= 1) && |amounts| >= |offered| ==>
                used == |offered| && notice == DataReady && active
      ensures old(active) && |amounts| > 0 && amounts[0] == 0 ==> used == 0 && notice == Closed && !active
    {
      used, asked, results, notice := 0, [], [], Nothing;
      if !active {
        return;
      }
      used, asked, results, notice := ReadActive(offered, amounts, slack);
      CallsDetermine(|offered|, amounts, asked, results, used);
    }

    /** What follows the test for an active channel. */
    method ReadActive(offered: seq<char>, amounts: seq<int>, slack: nat)
      returns (used: nat, asked: seq<nat>, results: seq<int>, notice: Notice)
      requires Valid() && active
      modifies `active, `receivedCount, `receivedBuf, `ops, receivedBuf
      ensures Valid() && (receivedBuf == old(receivedBuf) || fresh(receivedBuf))
      ensures Calls(|offered|, amounts, asked, results, |results|, used)
      ensures results != [] && results[|results| - 1] <= 0
      ensures var ended := results[|results| - 1] == 0;
              && ops == old(ops) + [Got(offered[..used])] + (if ended then [Close] else [])
              && active == !ended && notice == if ended then Closed else DataReady
    {
      used, asked, results := ReadAll(offered, amounts, slack);
      var got := results[|results| - 1];
      Record(offered[..used], got == 0);
      if got == 0 {
        notice := Closed;
        Inactive();
      } else {
        notice := DataReady;
      }
    }

    /** The call in the history. */
    ghost method Record(bytes: seq<char>, ended: bool)
      requires ApplyAll(ops).open
      modifies `ops
      ensures ops == old(ops) + [Got(bytes)] + (if ended then [Close] else [])
      ensures Undrained() == old(Undrained()) + bytes && ApplyAll(ops).open == !ended
    {
      AfterRead(ops, bytes, ended);
      ops := ops + [Got(bytes)] + if ended then [Close] else [];
    }

    method Inactive()
      requires R.Reaches(SP.Next, SP.INIT, SendState())
      modifies `active
      ensures !active && R.Reaches(SP.Next, SP.INIT, SendState())
    {
      active := false;
      Advance(old(SendState()), SP.Inactivate);
    }

    /** Between two calls of read: `all` is counted, `more` is what the last call returned, and together they
        are `start` followed by the bytes used. */
    ghost predicate InStep(offered: seq<char>, used: nat, got: int, room: nat,
                           start: seq<char>, all: seq<char>, more: seq<char>)
      reads this, receivedBuf
    {
      && used <= |offered| && Holds(receivedBuf[..], receivedCount, all) && all + more == start + offered[..used]
      && |more| == (if got > 0 then got else 0) <= room == receivedBuf.Length - receivedCount
      && receivedBuf[receivedCount..receivedCount + |more|] == more
    }

    /** The body of the reading loop with its condition. */
    method ReadOnce(offered: seq<char>, before: nat, last: nat, room: nat, slack: nat, amount: int,
                    ghost start: seq<char>, ghost all: seq<char>, ghost more: seq<char>)
      returns (got: int, asked: nat, ghost all': seq<char>, ghost more': seq<char>)
      requires InStep(offered, before, last, room, start, all, more)
      modifies `receivedCount, `receivedBuf, receivedBuf
      ensures receivedBuf == old(receivedBuf) || fresh(receivedBuf)
      ensures before <= |offered| && Answers(got, asked, |offered| - before, amount)
      ensures InStep(offered, before + Brought(got), got, asked, start, all', more')
    {
      GrowAndCount(last, room, slack, all, more);
      all' := all + more;
      asked := receivedBuf.Length - receivedCount;
      got, more' := ReadNext(asked, offered, before, amount, all');
      BytesOn(start, offered, before, all', more');
    }

    /** And what it adds to the calls made. */
    method ReadMore(offered: seq<char>, amounts: seq<int>, before: nat, last: nat, room: nat, slack: nat,
                    asked: seq<nat>, results: seq<int>,
                    ghost start: seq<char>, ghost all: seq<char>, ghost more: seq<char>)
      returns (used: nat, got: int, asked': seq<nat>, results': seq<int>, ghost all': seq<char>, ghost more': seq<char>)
      requires InStep(offered, before, last, room, start, all, more)
      requires Calls(|offered|, amounts, asked, results, |results|, before)
      requires results != [] ==> results[|results| - 1] > 0
      modifies `receivedCount, `receivedBuf, receivedBuf
      ensures receivedBuf == old(receivedBuf) || fresh(receivedBuf)
      ensures |asked'| > 0 && InStep(offered, used, got, asked'[|asked'| - 1], start, all', more')
      ensures Calls(|offered|, amounts, asked', results', |results'|, used)
      ensures results' != [] && results'[|results'| - 1] == got
      ensures before <= used <= |offered| && (got > 0 ==> before < used)
    {
      var room';
      got, room', all', more' := ReadOnce(offered, before, last, room, slack, Amount(amounts, |results|),
                                          start, all, more);
      CallsMore(|offered|, amounts, asked, results, before, room', got);
      used, asked', results' := before + Brought(got), asked + [room'], results + [got];
    }

    /** The reading loop. */
    method ReadAll(offered: seq<char>, amounts: seq<int>, slack: nat)
      returns (used: nat, asked: seq<nat>, results: seq<int>)
      requires Holds(receivedBuf[..], receivedCount, Undrained())
      modifies `receivedCount, `receivedBuf, receivedBuf
      ensures receivedBuf == old(receivedBuf) || fresh(receivedBuf)
      ensures used <= |offered| && Holds(receivedBuf[..], receivedCount, Undrained() + offered[..used])
      ensures Calls(|offered|, amounts, asked, results, |results|, used) && results != [] && results[|results| - 1] <= 0
    {
      used, asked, results := 0, [], [];
      var validSize: nat := receivedBuf.Length - receivedCount;
      var got := 0;
      ghost var start := Undrained();
      ghost var all, more := start, [];
      while results == [] || got > 0
        invariant receivedBuf == old(receivedBuf) || fresh(receivedBuf)
        invariant InStep(offered, used, got, validSize, start, all, more)
        invariant Calls(|offered|, amounts, asked, results, |results|, used)
        invariant got == if results == [] then 0 else results[|results| - 1]
        decreases |offered| - used, results == [], got > 0
      {
        used, got, asked, results, all, more := ReadMore(offered, amounts, used, got, validSize, slack, asked, results,
                                                         start, all, more);
        validSize := asked[|asked| - 1];
      }
      assert all + [] == all;
    }

    /** GetReceivedData: what the string holds of the bytes waiting. */
    method GetReceivedData() returns (data: seq<char>)
      requires Valid()
      modifies `receivedCount, `ops
      ensures Valid()
      ensures if old(active) then data == Payload(old(Undrained())) && ops == old(ops) + [Take]
              else data == [] && ops == old(ops)
      ensures old(active) ==> ApplyAll(ops).payloads == ApplyAll(old(ops)).payloads + data
    {
      data := [];
      if !active {
        return;
      }
      if receivedCount >= 1 {
        data := receivedBuf[..Least(receivedCount, BUFSIZE)];
        receivedCount := 0;
      }
      ops := ops + [Take];
      ApplyMore(old(ops), Take);
    }

    // ---------------------------------------------------------------- sending

    /** The test of NotifyWriteEvent. */
    method EnterNotify() returns (entered: bool)
      requires Valid()
      modifies `entering
      ensures Valid() && entered == active && (entered ==> entering == old(entering) + 1)
      ensures if active then SP.Next(old(SendState()), SP.Enter) == R.Some(SendState())
              else SendState() == old(SendState())
    {
      entered := active;
      if entered {
        entering := entering + 1;
        Advance(old(SendState()), SP.Enter);
      }
    }

    /** Its critical section: whichever branch is taken, the data goes to the end of the buffer. */
    method AppendData(data: seq<char>)
      requires Valid() && entering > 0
      modifies `sendingBuf, `sendingCapacity, `entering, `unarmed, `accepted
      ensures Valid() && SP.Next(old(SendState()), SP.Append(data)) == R.Some(SendState())
      ensures sendingBuf == old(sendingBuf) + data && unarmed == old(unarmed) + 1
    {
      var size := |sendingBuf|;
      if size + |data| >= sendingCapacity {
        sendingCapacity := sendingCapacity + |data|;
        sendingBuf := sendingBuf[..size] + data + sendingBuf[size..];
      } else if size == 0 {
        sendingBuf := data + sendingBuf;
      } else {
        sendingBuf := sendingBuf[..size] + data + sendingBuf[size..];
      }
      assert sendingBuf == old(sendingBuf) + data;
      entering, unarmed, accepted := entering - 1, unarmed + 1, accepted + data;
      Advance(old(SendState()), SP.Append(data));
    }

    method ArmEpollOut()
      requires Valid() && unarmed > 0
      modifies `unarmed, `epollOut
      ensures Valid() && SP.Next(old(SendState()), SP.Arm) == R.Some(SendState()) && epollOut
    {
      unarmed, epollOut := unarmed - 1, true;
      Advance(old(SendState()), SP.Arm);
    }

    /** Write; `result` is what ::write returns for a non-empty buffer. */
    method Write(result: int)
      requires Valid() && result <= |sendingBuf|
      modifies `sendingBuf, `epollOut, `sendFailed, `stalled, `sent
      ensures Valid()
      ensures if active then SP.Next(old(SendState()), SP.Write(result)) == R.Some(SendState())
              else SendState() == old(SendState())
    {
      if !active {
        return;
      }
      if |sendingBuf| < 1 {
        epollOut := false;
      } else if result > 0 {
        sent := sent + sendingBuf[..result];
        sendingBuf := sendingBuf[result..];
      } else if result == 0 {
        epollOut := false;
        stalled := true;
      } else {
        sendFailed := true;
      }
      Advance(old(SendState()), SP.Write(result));
    }

    /** NotifyWriteEvent by itself. */
    method NotifyWriteEvent(data: seq<char>)
      requires Valid()
      modifies `sendingBuf, `sendingCapacity, `entering, `unarmed, `accepted, `epollOut
      ensures Valid()
      ensures if active then sendingBuf == old(sendingBuf) + data && epollOut else SendState() == old(SendState())
    {
      var entered := EnterNotify();
      if entered {
        AppendData(data);
        ArmEpollOut();
      }
    }
  }
}
