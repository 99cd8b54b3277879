/** The bounded stream buffer a log message is written into.  Its put area ends two characters before the
    memory does; what does not fit is dropped without an error. */
module LogStreams {

  const MAX_MESSAGE_LEN: nat := 3000
  const MAX_TEXT: nat := MAX_MESSAGE_LEN - 2

  /** What the buffer of a log message can hold. */
  type Text = t: seq<char> | |t| <= MAX_TEXT

  /** The first n characters; what fits stays whole. */
  function Clip(s: seq<char>, n: nat): (r: seq<char>)
    ensures r <= s && |r| <= n
    ensures |s| <= n ==> r == s
    ensures |s| > n ==> |r| == n
  {
    if |s| <= n then s else s[..n]
  }

  /** Clipping piece by piece is clipping the whole. */
  lemma ClipAgain(a: seq<char>, b: seq<char>, n: nat)
    ensures Clip(Clip(a, n) + b, n) == Clip(a + b, n)
  {
  }

  /** One more piece behind `start` and the first k characters of s, where there is room for it. */
  lemma ClipCopied(start: seq<char>, s: seq<char>, k: nat, n: nat, limit: nat)
    requires k + n <= |s| && |Clip(start + s[..k], limit)| + n <= limit && n > 0
    ensures Clip(start + s[..k + n], limit) == Clip(start + s[..k], limit) + s[k..k + n]
  {
    assert start + s[..k] + s[k..k + n] == start + s[..k + n];
  }

  /** And one more character where there is no room. */
  lemma ClipSwallowed(start: seq<char>, s: seq<char>, k: nat, limit: nat)
    requires k < |s| && |Clip(start + s[..k], limit)| == limit
    ensures Clip(start + s[..k + 1], limit) == Clip(start + s[..k], limit)
  {
    assert start + s[..k] + [s[k]] == start + s[..k + 1];
  }

  class LogStreamBuf {
    const memory: array<char>
    var pptr: nat

    ghost predicate Valid()
      reads this
    {
      memory.Length >= 2 && pptr <= memory.Length - 2
    }

    /** What pbase() and pcount() give a sink. */
    function Text(): seq<char>
      requires Valid()
      reads this, memory
    {
      memory[..pptr]
    }

    constructor (len: nat)
      requires len >= 2
      ensures Valid() && fresh(memory) && memory.Length == len && Text() == []
    {
      memory := new char[len];
      pptr := 0;
    }

    /** The part of xsputn that copies while there is room. */
    method CopyChunk(s: seq<char>)
      requires Valid() && pptr + |s| <= memory.Length - 2
      modifies `pptr, memory
      ensures Valid() && Text() == old(Text()) + s
    {
      forall i | 0 <= i < |s| {
        memory[pptr + i] := s[i];
      }
      pptr := pptr + |s|;
    }

    /** xsputn: copy while there is room; overflow swallows the characters beyond, one by one, and claims
        that each was written. */
    method Write(s: seq<char>) returns (written: nat)
      requires Valid()
      modifies `pptr, memory
      ensures Valid() && written == |s|
      ensures Text() == Clip(old(Text()) + s, memory.Length - 2)
    {
      ghost var start := Text();
      var limit := memory.Length - 2;
      written := 0;
      while written < |s|
        invariant Valid() && written <= |s|
        invariant Text() == Clip(start + s[..written], limit)
      {
        var room := limit - pptr;
        if room > 0 {
          var n := if room < |s| - written then room else |s| - written;
          ClipCopied(start, s, written, n, limit);
          CopyChunk(s[written..written + n]);
          written := written + n;
        } else {
          ClipSwallowed(start, s, written, limit);
          written := written + 1;
        }
      }
      assert s[..written] == s;
    }
  }
}
