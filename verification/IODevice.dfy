/** The buffered device: a circular array refilled from the source in up to two chunks.  It behaves as a
    FIFO of bytes, except that what Peek copies is missing when the ring is exactly full. */
module IODevices {
  import opened Counting
  import opened Runs

  const BUFSIZE: nat := 1024

  /** The array index of a position that has gone round at most once. */
  function Wrapped(i: nat): (r: nat)
    requires i < 2 * BUFSIZE
    ensures r < BUFSIZE
  {
    if i < BUFSIZE then i else i - BUFSIZE
  }

  lemma WrappedMod(i: nat)
    requires i < 2 * BUFSIZE
    ensures i % BUFSIZE == Wrapped(i)
  {
  }

  /** The bytes in the ring, oldest first. */
  function Contents(buf: seq<char>, head: nat, size: nat): (r: seq<char>)
    requires |buf| == BUFSIZE && head < BUFSIZE && size <= BUFSIZE
    ensures |r| == size
    ensures forall i :: 0 <= i < size ==> r[i] == buf[Wrapped(head + i)]
  {
    seq(size, i requires 0 <= i < size => buf[Wrapped(head + i)])
  }

  /** Two chunks of a source, one after the other, behind what was there. */
  lemma TwoChunks(before: seq<char>, source: seq<char>, n: nat, m: nat)
    requires n <= |source| && m <= |source[n..]|
    ensures before + source[..n] + source[n..][..m] == before + source[..n + m]
    ensures source[n..][m..] == source[n + m..]
  {
  }

  /** Dropping from the front of the ring. */
  lemma ContentsDrop(buf: seq<char>, head: nat, size: nat, n: nat)
    requires |buf| == BUFSIZE && head < BUFSIZE && n <= size <= BUFSIZE
    ensures Contents(buf, Wrapped(head + n), size - n) == Contents(buf, head, size)[n..]
  {
    var all, rest := Contents(buf, head, size), Contents(buf, Wrapped(head + n), size - n);
    forall i | 0 <= i < size - n ensures rest[i] == all[n..][i] {
      assert all[n..][i] == all[n + i] == buf[Wrapped(head + (n + i))];
    }
  }

  /** `buf` with `chunk` written at `at`. */
  function Spliced(buf: seq<char>, at: nat, chunk: seq<char>): (r: seq<char>)
    requires at + |chunk| <= |buf|
    ensures |r| == |buf|
    ensures forall j :: 0 <= j < |buf| ==> r[j] == if at <= j < at + |chunk| then chunk[j - at] else buf[j]
  {
    buf[..at] + chunk + buf[at + |chunk|..]
  }

  /** Writing a chunk behind the last byte, where there is room for it. */
  lemma ContentsAdd(buf: seq<char>, head: nat, size: nat, tail: nat, chunk: seq<char>)
    requires |buf| == BUFSIZE && head < BUFSIZE && size + |chunk| <= BUFSIZE
    requires tail == Wrapped(head + size) && tail + |chunk| <= BUFSIZE
    ensures Contents(Spliced(buf, tail, chunk), head, size + |chunk|) == Contents(buf, head, size) + chunk
  {
    var buf' := Spliced(buf, tail, chunk);
    var before, after := Contents(buf, head, size), Contents(buf', head, size + |chunk|);
    forall i | 0 <= i < size + |chunk| ensures after[i] == (before + chunk)[i] {
      assert after[i] == buf'[Wrapped(head + i)];
      if i < size {
        assert before[i] == buf[Wrapped(head + i)];
      }
    }
  }

  // ---------------------------------------------------------------- series of reads

  /** One call of Read on a readable device: what the refill fetched, how many bytes were asked for, and what
      the caller's buffer held before where the call reports bytes. */
  datatype Call = Call(fetched: seq<char>, count: nat, stale: seq<char>)

  /** What was taken from the source, what is in the ring, and what the callers found in their buffers. */
  datatype Stream = Stream(sequential: bool, taken: seq<char>, ring: seq<char>, delivered: seq<char>)

  function Init(sequential: bool): Stream {
    Stream(sequential, [], [], [])
  }

  /** The ring after the refill of this call. */
  function Refilled(s: Stream, c: Call): seq<char> {
    s.ring + c.fetched
  }

  /** Peek copies nothing. */
  predicate Uncopied(s: Stream, c: Call) {
    s.sequential || |Refilled(s, c)| == BUFSIZE
  }

  function Next(s: Stream, c: Call): Option<Stream> {
    var ring := Refilled(s, c);
    var n := Least(c.count, |ring|);
    if |ring| <= BUFSIZE && |c.stale| == n then
      Some(Stream(s.sequential, s.taken + c.fetched, ring[n..],
                  s.delivered + if Uncopied(s, c) then c.stale else ring[..n]))
    else
      None
  }

  /** What a call leaves behind. */
  lemma CallStep(s: Stream, c: Call, got: seq<char>)
    requires |Refilled(s, c)| <= BUFSIZE && |c.stale| == Least(c.count, |Refilled(s, c)|)
    requires got == if Uncopied(s, c) then c.stale else Refilled(s, c)[..|c.stale|]
    ensures Next(s, c)
            == Some(Stream(s.sequential, s.taken + c.fetched, Refilled(s, c)[|c.stale|..], s.delivered + got))
  {
  }

  /** The ring holds the last bytes taken, whatever the callers have received. */
  predicate Suffix(s: Stream) {
    |s.delivered| <= |s.taken| && s.ring == s.taken[|s.delivered|..]
  }

  /** The bytes received by the callers, followed by those in the ring, are the bytes taken. */
  predicate InLine(s: Stream) {
    s.delivered + s.ring == s.taken
  }

  /** The call leaves wrong bytes with its caller: nothing is copied, and the caller's buffer did not happen
      to hold the right bytes already. */
  predicate Spoils(s: Stream, c: Call) {
    |c.stale| <= |Refilled(s, c)| && Uncopied(s, c) && c.stale != Refilled(s, c)[..|c.stale|]
  }

  lemma SuffixStep(s: Stream, c: Call)
    requires Suffix(s) && Next(s, c).Some?
    ensures Suffix(Next(s, c).value)
  {
    assert Refilled(s, c) == (s.taken + c.fetched)[|s.delivered|..];
  }

  lemma SameParts(a: seq<char>, b: seq<char>, c: seq<char>, d: seq<char>)
    requires |a| == |c|
    ensures a + b == c + d <==> a == c && b == d
  {
    assert (a + b)[..|a|] == a && (a + b)[|a|..] == b;
    assert (c + d)[..|c|] == c && (c + d)[|c|..] == d;
  }

  /** Among states with the right ring, those in line have delivered the first bytes taken. */
  lemma InLineMeans(s: Stream)
    requires Suffix(s)
    ensures InLine(s) <==> s.delivered == s.taken[..|s.delivered|]
  {
    var d := |s.delivered|;
    assert s.taken == s.taken[..d] + s.taken[d..];
    SameParts(s.delivered, s.ring, s.taken[..d], s.taken[d..]);
  }

  lemma InLineStep(s: Stream, c: Call)
    requires Suffix(s) && Next(s, c).Some?
    ensures Suffix(Next(s, c).value) && (InLine(Next(s, c).value) <==> InLine(s) && !Spoils(s, c))
  {
    SuffixStep(s, c);
    var t := Next(s, c).value;
    InLineMeans(s);
    InLineMeans(t);
    var d, n := |s.delivered|, |c.stale|;
    assert t.taken[..d + n] == s.taken[..d] + Refilled(s, c)[..n];
    SameParts(s.delivered, t.delivered[d..], s.taken[..d], Refilled(s, c)[..n]);
    assert t.delivered == s.delivered + t.delivered[d..];
  }

  /** For every series of reads with arbitrary short refills: the ring holds the last bytes taken from the
      source; and the bytes received by the callers followed by the bytes in the ring are the bytes taken
      exactly if no call spoils, in particular if the ring is never exactly full. */
  lemma {:induction false} DeliveredIff(sequential: bool, calls: seq<Call>, s: Stream)
    requires Run(Next, Init(sequential), calls) == Some(s)
    ensures Suffix(s)
    ensures InLine(s) <==> forall i :: !HappensAt(Next, Spoils, Init(sequential), calls, i)
  {
    forall t, c | Suffix(t) && Next(t, c).Some?
      ensures Suffix(Next(t, c).value) && (InLine(Next(t, c).value) <==> InLine(t) && !Spoils(t, c))
    {
      InLineStep(t, c);
    }
    RunUnspoilt(Next, Suffix, InLine, Spoils, Init(sequential), calls);
  }

  class IODevice {
    var readable: bool
    const sequential: bool
    var head: nat
    var tail: nat
    var size: nat
    const buf: array<char>
    var source: seq<char>  // what the device behind still has to offer
    ghost var taken: seq<char>      // history: bytes taken from it
    ghost var delivered: seq<char>  // history: what callers of Read found in their buffers
    ghost var calls: seq<Call>      // history: calls of Read

    ghost predicate Shape()
      reads this, buf
    {
      && buf.Length == BUFSIZE
      && head < BUFSIZE && size <= BUFSIZE
      && tail == Wrapped(head + size)
    }

    ghost function Ring(): seq<char>
      requires Shape()
      reads this, buf
    {
      Contents(buf[..], head, size)
    }

    /** The device is where its calls lead. */
    ghost predicate Valid()
      reads this, buf
    {
      Shape() && Run(Next, Init(sequential), calls) == Some(Stream(sequential, taken, Ring(), delivered))
    }

    constructor (readable: bool, sequential: bool, source: seq<char>)
      ensures Valid() && fresh(buf) && head == size == 0 && calls == [] && taken == delivered == []
      ensures this.readable == readable && this.sequential == sequential && this.source == source
    {
      this.readable, this.sequential, this.source := readable, sequential, source;
      head, tail, size := 0, 0, 0;
      buf := new char[BUFSIZE](_ => ' ');
      taken, delivered, calls := [], [], [];
    }

    /** What the callers have received so far, and when it is right. */
    lemma Delivered()
      requires Valid()
      ensures |delivered| <= |taken| && Ring() == taken[|delivered|..]
      ensures delivered + Ring() == taken <==> forall i :: !HappensAt(Next, Spoils, Init(sequential), calls, i)
    {
      DeliveredIff(sequential, calls, Stream(sequential, taken, Ring(), delivered));
    }

    /** The device's own read into the ring at `at`: anything from 0 to `room` bytes, as `amount` says. */
    method ReadData(at: nat, room: nat, amount: nat) returns (n: nat)
      requires at + room <= buf.Length
      modifies buf, `source, `taken
      ensures n == Least(amount, Least(room, |old(source)|))
      ensures source == old(source)[n..] && taken == old(taken) + old(source)[..n]
      ensures buf[..] == Spliced(old(buf[..]), at, old(source)[..n])
    {
      n := Least(amount, Least(room, |source|));
      forall i | 0 <= i < n {
        buf[at + i] := source[i];
      }
      taken := taken + source[..n];
      source := source[n..];
    }

    /** Copy up to `count` bytes from the front of the ring to `data`: those behind what Read has delivered.
        Nothing is copied when the ring is exactly full, although the result says otherwise. */
    method Peek(data: array<char>, count: nat) returns (n: nat)
      requires Valid() && data != buf && count <= data.Length
      modifies data
      ensures Valid() && n == if !readable || size == 0 || sequential then 0 else Least(count, size)
      ensures if size == BUFSIZE then data[..] == old(data[..])
              else data[..n] == Ring()[..n] && data[n..] == old(data[n..])
      ensures size < BUFSIZE ==> |delivered| + n <= |taken| && data[..n] == taken[|delivered|..|delivered| + n]
    {
      Delivered();
      n := PeekRing(data, count);
    }

    /** Peek on the ring. */
    method PeekRing(data: array<char>, count: nat) returns (n: nat)
      requires Shape() && data != buf && count <= data.Length
      modifies data
      ensures n == if !readable || size == 0 || sequential then 0 else Least(count, size)
      ensures if size == BUFSIZE then data[..] == old(data[..])
              else data[..n] == Ring()[..n] && data[n..] == old(data[n..])
    {
      if !readable || size == 0 || sequential {
        return 0;
      }
      n := Least(count, size);
      var len := if tail >= head then tail - head else BUFSIZE - head;
      var validSize := Least(n, len);
      CopyOut(data, 0, head, validSize);
      if tail < head && validSize < n {
        CopyOut(data, len, 0, n - validSize);
      }
      if size < BUFSIZE {
        forall i | 0 <= i < n ensures data[i] == Ring()[i] {
          assert Ring()[i] == buf[Wrapped(head + i)];
        }
      }
    }

    /** memcpy from the ring. */
    method CopyOut(data: array<char>, to: nat, from: nat, n: nat)
      requires data != buf && to + n <= data.Length && from + n <= buf.Length
      modifies data
      ensures forall i :: 0 <= i < data.Length ==>
                data[i] == if to <= i < to + n then buf[from + i - to] else old(data[i])
    {
      forall i | 0 <= i < n {
        data[to + i] := buf[from + i];
      }
    }

    /** How much the refill asks for in all: up to the end of the array if the ring is empty, otherwise
        whatever is free. */
    function Room(): nat
      requires head < BUFSIZE && size <= BUFSIZE
      reads this
    {
      if size == 0 then BUFSIZE - head else BUFSIZE - size
    }

    lemma Rooms()
      requires Shape() && size < BUFSIZE
      ensures Room()
              == if tail > head then BUFSIZE - tail + head else if tail == head then BUFSIZE - tail else head - tail
    {
    }

    /** One chunk of the refill: read into the ring at `at`, right behind its last byte. */
    method ReadChunk(at: nat, room: nat, amount: nat, ghost filled: nat) returns (n: nat)
      requires Shape() && filled + room <= BUFSIZE && at + room <= BUFSIZE && at == Wrapped(head + filled)
      modifies buf, `source, `taken
      ensures n == Least(amount, Least(room, |old(source)|)) && Shape()
      ensures source == old(source)[n..] && taken == old(taken) + old(source)[..n]
      ensures Contents(buf[..], head, filled + n) == old(Contents(buf[..], head, filled)) + old(source)[..n]
    {
      n := ReadData(at, room, amount);
      ContentsAdd(old(buf[..]), head, filled, at, old(source)[..n]);
    }

    /** The one or two chunks of the refill, before the fields are updated. */
    method ReadChunks(a: nat, b: nat) returns (readed: nat)
      requires Shape() && size < BUFSIZE
      modifies buf, `source, `taken
      ensures Shape() && size + readed <= BUFSIZE && readed <= |old(source)|
      ensures a >= BUFSIZE && b >= BUFSIZE ==> readed == Least(Room(), |old(source)|)
      ensures Contents(buf[..], head, size + readed) == old(Ring()) + old(source)[..readed]
      ensures source == old(source)[readed..] && taken == old(taken) + old(source)[..readed]
    {
      Rooms();
      var len := if tail >= head then BUFSIZE - tail else head - tail;
      readed := ReadChunk(tail, len, a, size);
      if tail > head && readed >= len {
        var more := ReadSecond(readed, b, old(Ring()), old(taken), old(source));
        readed := readed + more;
      }
    }

    /** The second chunk, at the start of the array; `first` bytes of `all` went to its end. */
    method ReadSecond(first: nat, b: nat, ghost ring: seq<char>, ghost before: seq<char>, ghost all: seq<char>)
      returns (more: nat)
      requires Shape() && head + size + first == BUFSIZE && first <= |all|
      requires Contents(buf[..], head, size + first) == ring + all[..first]
      requires source == all[first..] && taken == before + all[..first]
      modifies buf, `source, `taken
      ensures Shape() && more == Least(b, Least(head, |all| - first))
      ensures Contents(buf[..], head, size + first + more) == ring + all[..first + more]
      ensures source == all[first + more..] && taken == before + all[..first + more]
    {
      more := ReadChunk(0, head, b, size + first);
      TwoChunks(ring, all, first, more);
      TwoChunks(before, all, first, more);
    }

    /** The refill at the start of Read; the device returns at most `a` and `b` bytes for the chunks. */
    method Refill(a: nat, b: nat) returns (ghost k: nat)
      requires Shape()
      modifies `tail, `size, buf, `source, `taken
      ensures Shape() && k <= |old(source)|
      ensures a >= BUFSIZE && b >= BUFSIZE ==> k == Least(old(Room()), |old(source)|)
      ensures Ring() == old(Ring()) + old(source)[..k]
      ensures source == old(source)[k..] && taken == old(taken) + old(source)[..k]
    {
      k := 0;
      if BUFSIZE > size {
        var readed := ReadChunks(a, b);
        WrappedMod(tail + readed);
        tail := (tail + readed) % BUFSIZE;
        size := size + readed;
        k := readed;
      }
    }

    /** The end of Read: drop what has been copied. */
    method Advance(n: nat)
      requires Shape() && n <= size
      modifies `head, `size
      ensures Shape() && Ring() == old(Ring())[n..]
    {
      ContentsDrop(buf[..], head, size, n);
      WrappedMod(head + n);
      head := (head + n) % BUFSIZE;
      size := size - n;
    }

    /** Read.  Up to `count` bytes leave the front of the refilled ring; `data` receives them unless the
        refilled ring is exactly full (or the device sequential), in which case it stays as it is. */
    method Read(data: array<char>, count: nat, a: nat, b: nat) returns (n: nat, ghost k: nat)
      requires Valid() && data != buf && count <= data.Length
      modifies `head, `tail, `size, buf, `source, `taken, `delivered, `calls, data
      ensures Valid() && k <= |old(source)| && source == old(source)[k..] && taken == old(taken) + old(source)[..k]
      ensures n <= count && delivered == old(delivered) + data[..n]
      ensures readable && count > 0 && a >= BUFSIZE && b >= BUFSIZE ==> k == Least(old(Room()), |old(source)|)
      ensures calls == if readable && count > 0
                       then old(calls) + [Call(old(source)[..k], count, old(data[..])[..n])] else old(calls)
      ensures var refilled := old(Ring()) + old(source)[..k];
              && n <= |refilled| && Ring() == refilled[n..]
              && n == (if readable && count > 0 then Least(count, |refilled|) else 0)
              && if |refilled| == BUFSIZE || sequential then data[..] == old(data[..])
                 else data[..n] == refilled[..n] && data[n..] == old(data[n..])
    {
      n, k := 0, 0;
      if !readable || count == 0 {
        return;
      }
      n, k := ReadRing(data, count, a, b);
      ghost var c := Call(old(source)[..k], count, old(data[..])[..n]);
      assert data[..n] == data[..][..n];
      CallStep(Stream(sequential, old(taken), old(Ring()), delivered), c, data[..n]);
      Record(old(Ring()), old(taken), c, data[..n]);
    }

    /** The call in the history. */
    ghost method Record(ring: seq<char>, before: seq<char>, c: Call, got: seq<char>)
      requires Shape() && Run(Next, Init(sequential), calls) == Some(Stream(sequential, before, ring, delivered))
      requires Next(Stream(sequential, before, ring, delivered), c)
               == Some(Stream(sequential, taken, Ring(), delivered + got))
      modifies `delivered, `calls
      ensures Valid() && delivered == old(delivered) + got && calls == old(calls) + [c]
    {
      RunExtend(Next, Init(sequential), calls, c);
      calls, delivered := calls + [c], delivered + got;
    }

    /** Read on the ring. */
    method ReadRing(data: array<char>, count: nat, a: nat, b: nat) returns (n: nat, ghost k: nat)
      requires Shape() && data != buf && readable && count <= data.Length
      modifies `head, `tail, `size, buf, `source, `taken, data
      ensures Shape() && k <= |old(source)| && source == old(source)[k..] && taken == old(taken) + old(source)[..k]
      ensures a >= BUFSIZE && b >= BUFSIZE ==> k == Least(old(Room()), |old(source)|)
      ensures var refilled := old(Ring()) + old(source)[..k];
              && n == Least(count, |refilled|) && |refilled| <= BUFSIZE && Ring() == refilled[n..]
              && if |refilled| == BUFSIZE || sequential then data[..] == old(data[..])
                 else data[..n] == refilled[..n] && data[n..] == old(data[n..])
    {
      k := Refill(a, b);
      n := Least(count, size);
      var copied := PeekRing(data, n);
      Advance(n);
    }
  }

  /** Reading one byte from an empty device whose source fills the ring. */
  method ReadAfterFullRefill(device: IODevice, data: array<char>) returns (n: nat)
    requires device.Valid() && device.readable && !device.sequential && device.head == device.size == 0
    requires |device.source| >= BUFSIZE && data != device.buf && data.Length >= 1
    modifies device, device.buf, data
    ensures device.Valid() && n == 1 && data[..] == old(data[..])
    ensures device.taken == old(device.taken) + old(device.source)[..BUFSIZE]
    ensures device.delivered == old(device.delivered) + [data[0]] && device.Ring() == old(device.source)[1..BUFSIZE]
  {
    ghost var before, k := device.Ring(), 0;
    n, k := device.Read(data, 1, BUFSIZE, BUFSIZE);
    assert before + old(device.source)[..k] == old(device.source)[..BUFSIZE];
  }

  /** A source with 1024 bytes or more fills the ring in the first refill; the caller's buffer stays as it
      is, and the bytes it should have received are gone. */
  method FullRefillSpoils(bytes: seq<char>, stale: char) returns (device: IODevice, data: array<char>, n: nat)
    requires |bytes| >= BUFSIZE && bytes[0] != stale
    ensures fresh(device) && device.Valid() && n == 1 <= data.Length
    ensures data[0] == stale && device.delivered == [stale] && device.taken == bytes[..BUFSIZE]
    ensures device.delivered + device.Ring() != device.taken
  {
    device := new IODevice(true, false, bytes);
    data := new char[] [stale];
    assert data[..][0] == stale;
    n := ReadAfterFullRefill(device, data);
    assert data[0] == data[..][0];
    assert (device.delivered + device.Ring())[0] == stale;
  }
}
