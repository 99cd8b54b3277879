/** The receiving half of a channel seen from outside: bytes read from the socket collect until they are
    taken, and taking hands over at most the first 128 of them, because the string that holds them never
    grows its size, only its capacity.  The read that meets the end of the stream makes the channel
    inactive, and from then on nothing is read or handed over. */
module ReceiveStream {

  const BUFSIZE: nat := 128

  datatype Op = Got(bytes: seq<char>) | Take | Close

  datatype Stream = Stream(open: bool, read: seq<char>, undrained: seq<char>, payloads: seq<char>)

  const START := Stream(true, [], [], [])

  /** What taking hands over. */
  function Payload(undrained: seq<char>): seq<char> {
    if |undrained| <= BUFSIZE then undrained else undrained[..BUFSIZE]
  }

  function Apply(s: Stream, op: Op): Stream {
    if !s.open then
      s
    else
      match op
      case Got(bytes) => s.(read := s.read + bytes, undrained := s.undrained + bytes)
      case Take => s.(undrained := [], payloads := s.payloads + Payload(s.undrained))
      case Close => s.(open := false)
  }

  function ApplyAll(ops: seq<Op>): Stream {
    if ops == [] then START else Apply(ApplyAll(ops[..|ops| - 1]), ops[|ops| - 1])
  }

  lemma ApplyMore(ops: seq<Op>, op: Op)
    ensures ApplyAll(ops + [op]) == Apply(ApplyAll(ops), op)
  {
    assert (ops + [op])[..|ops|] == ops;
  }

  /** The i-th operation takes while more than 128 bytes are waiting. */
  predicate Clips(ops: seq<Op>, i: nat) {
    i < |ops| && ops[i].Take? && ApplyAll(ops[..i]).open && |ApplyAll(ops[..i]).undrained| > BUFSIZE
  }

  lemma {:induction false} NeverMore(ops: seq<Op>)
    ensures var s := ApplyAll(ops); |s.payloads + s.undrained| <= |s.read|
    decreases |ops|
  {
    if ops != [] {
      NeverMore(ops[..|ops| - 1]);
    }
  }

  lemma {:induction false} LossStays(ops: seq<Op>, i: nat)
    requires Clips(ops, i)
    ensures var s := ApplyAll(ops); |s.payloads + s.undrained| < |s.read|
    decreases |ops|
  {
    var n := |ops| - 1;
    NeverMore(ops[..n]);
    if i < n {
      assert ops[..n][..i] == ops[..i];
      LossStays(ops[..n], i);
    }
  }

  lemma {:induction false} NoLoss(ops: seq<Op>)
    requires forall i :: !Clips(ops, i)
    ensures var s := ApplyAll(ops); s.payloads + s.undrained == s.read
    decreases |ops|
  {
    if ops != [] {
      var n := |ops| - 1;
      forall i: nat ensures !Clips(ops[..n], i) {
        if i < n {
          assert ops[..n][..i] == ops[..i];
          assert !Clips(ops, i);
        }
      }
      NoLoss(ops[..n]);
      assert !Clips(ops, n);
      var s := ApplyAll(ops[..n]);
      if ops[n].Got? {
        assert s.payloads + (s.undrained + ops[n].bytes) == (s.payloads + s.undrained) + ops[n].bytes;
      } else if ops[n].Take? {
        assert (s.payloads + s.undrained) + [] == s.payloads + s.undrained;
      }
    }
  }

  /** For every sequence of reads, takes and closes: the payloads in order, followed by what is still waiting, are
      the bytes read from the socket exactly if no take found more than 128 bytes waiting. */
  lemma ConservedIff(ops: seq<Op>)
    ensures var s := ApplyAll(ops); s.payloads + s.undrained == s.read <==> forall i :: !Clips(ops, i)
  {
    if i :| Clips(ops, i) {
      LossStays(ops, i);
    } else {
      NoLoss(ops);
    }
  }

  // ---------------------------------------------------------------- what can still be delivered

  /** In some continuation everything read has reached a payload, in order. */
  ghost predicate Deliverable(ops: seq<Op>) {
    exists more: seq<Op> :: ApplyAll(ops + more).payloads == ApplyAll(ops + more).read
  }

  /** Bytes are lost, or the next take will clip, or bytes wait in an inactive channel. */
  predicate Doomed(s: Stream) {
    || |s.payloads| + |s.undrained| < |s.read|
    || if s.open then |s.undrained| > BUFSIZE else s.undrained != []
  }

  lemma {:induction false} DoomedStays(ops: seq<Op>, more: seq<Op>)
    requires Doomed(ApplyAll(ops))
    ensures Doomed(ApplyAll(ops + more))
    decreases |more|
  {
    if more == [] {
      assert ops + more == ops;
    } else {
      var n := |more| - 1;
      DoomedStays(ops, more[..n]);
      NeverMore(ops + more[..n]);
      assert (ops + more)[..|ops + more| - 1] == ops + more[..n];
    }
  }

  /** Everything read can still be handed over exactly if no take has clipped, none will have to, and
      nothing was waiting when the channel became inactive. */
  lemma DeliverableIff(ops: seq<Op>)
    ensures
      var s := ApplyAll(ops);
      Deliverable(ops)
      <==> (forall i :: !Clips(ops, i)) && if s.open then |s.undrained| <= BUFSIZE else s.undrained == []
  {
    var s := ApplyAll(ops);
    NeverMore(ops);
    ConservedIff(ops);
    if Doomed(s) {
      forall more: seq<Op> ensures ApplyAll(ops + more).payloads != ApplyAll(ops + more).read {
        DoomedStays(ops, more);
        NeverMore(ops + more);
      }
    } else if forall i :: !Clips(ops, i) {
      ApplyMore(ops, Take);
      var t := ApplyAll(ops + [Take]);
      assert s.open ==> t.payloads == s.payloads + s.undrained == t.read;
      assert !s.open ==> t == s && s.payloads + [] == s.payloads;
    } else {
      var i :| Clips(ops, i);
      LossStays(ops, i);
    }
  }

  /** Bytes read by the call that also meets the end of the stream are never handed over. */
  lemma LastReadIsLost(bytes: seq<char>, more: seq<Op>)
    requires bytes != []
    ensures !Deliverable([Got(bytes), Close])
    ensures ApplyAll([Got(bytes), Close] + more) == Stream(false, bytes, bytes, [])
  {
    Unfold(bytes);
    DeliverableIff([Got(bytes), Close]);
    Silent([Got(bytes), Close], more);
  }

  lemma Unfold(bytes: seq<char>)
    ensures ApplyAll([Got(bytes), Close]) == Stream(false, bytes, bytes, [])
  {
    assert [Got(bytes), Close][..1] == [Got(bytes)] && [Got(bytes)][..0] == [];
    assert ApplyAll([Got(bytes)]) == Stream(true, bytes, bytes, []);
  }

  /** An inactive channel stays as it is. */
  lemma {:induction false} Silent(ops: seq<Op>, more: seq<Op>)
    requires !ApplyAll(ops).open
    ensures ApplyAll(ops + more) == ApplyAll(ops)
    decreases |more|
  {
    if more == [] {
      assert ops + more == ops;
    } else {
      var n := |more| - 1;
      Silent(ops, more[..n]);
      assert (ops + more)[..|ops + more| - 1] == ops + more[..n];
    }
  }
}
