/** The file sink: messages go to the current file until the bytes written to it exceed the limit; then the
    next message opens a fresh one. */
module LogFiles {

  type Messages = seq<seq<char>>

  /** The messages of each file, oldest file first; the last one is open. */
  type Files = seq<Messages>

  function Concat(ms: Messages): seq<char> {
    if ms == [] then [] else Concat(ms[..|ms| - 1]) + ms[|ms| - 1]
  }

  function Size(ms: Messages): nat {
    |Concat(ms)|
  }

  /** All messages of all files, in order. */
  function Flat(files: Files): Messages {
    if files == [] then [] else Flat(files[..|files| - 1]) + files[|files| - 1]
  }

  /** The bytes of each file. */
  function Contents(files: Files): seq<seq<char>> {
    seq(|files|, i requires 0 <= i < |files| => Concat(files[i]))
  }

  /** A file that was not larger than the limit before its last message. */
  predicate Admitted(limit: nat, file: Messages) {
    file == [] || Size(file[..|file| - 1]) <= limit
  }

  /** A file that was rotated out: now it is larger. */
  predicate Closed(limit: nat, file: Messages) {
    file != [] && Size(file) > limit && Admitted(limit, file)
  }

  /** The last file is the only open one. */
  predicate Rotated(limit: nat, files: Files) {
    && files != []
    && (forall i :: 0 <= i < |files| - 1 ==> Closed(limit, files[i]))
    && Admitted(limit, files[|files| - 1])
  }

  /** One more message: to a fresh file if the open one exceeds the limit, otherwise to the open one. */
  function Extended(limit: nat, files: Files, m: seq<char>): Files
    requires files != []
  {
    var n := |files| - 1;
    if Size(files[n]) > limit then files + [[m]] else files[..n] + [files[n] + [m]]
  }

  /** How a series of messages is spread over files. */
  function Rotation(limit: nat, ms: Messages): (files: Files)
    ensures files != []
  {
    if ms == [] then [[]] else Extended(limit, Rotation(limit, ms[..|ms| - 1]), ms[|ms| - 1])
  }

  class LogFile {
    const limit: nat
    var totalSize: nat
    var current: seq<char>        // content of the open file
    var closed: seq<seq<char>>    // content of the files rotated out
    ghost var messages: Messages  // history: all messages flushed

    /** The files hold the rotation of the messages. */
    ghost predicate Valid()
      reads this
    {
      closed + [current] == Contents(Rotation(limit, messages)) && totalSize == |current|
    }

    constructor (limit: nat)
      ensures Valid() && this.limit == limit && messages == []
    {
      this.limit, totalSize, current, closed, messages := limit, 0, [], [], [];
    }

    method Rotate()
      modifies `closed, `current, `totalSize
      ensures closed == old(closed) + [old(current)] && current == [] && totalSize == 0
    {
      closed, current, totalSize := closed + [current], [], 0;
    }

    /** Flush: one message goes to the open file, or to a fresh one if the open file exceeds the limit. */
    method Flush(str: seq<char>)
      requires Valid()
      modifies this
      ensures Valid() && messages == old(messages) + [str]
      ensures |closed| == |old(closed)| + if old(totalSize) > limit then 1 else 0
    {
      ContentsExtended(limit, Rotation(limit, messages), str, closed, current);
      RotationMore(limit, messages, str);
      if totalSize > limit {
        Rotate();
      }
      totalSize := totalSize + |str|;
      current := current + str;
      messages := messages + [str];
    }
  }

  lemma RotationMore(limit: nat, ms: Messages, m: seq<char>)
    ensures Rotation(limit, ms + [m]) == Extended(limit, Rotation(limit, ms), m)
  {
    assert (ms + [m])[..|ms|] == ms;
  }

  lemma ConcatMore(ms: Messages, m: seq<char>)
    ensures Concat(ms + [m]) == Concat(ms) + m && Concat([m]) == m
  {
    assert (ms + [m])[..|ms|] == ms && [m][..0] == [];
    assert [] + m == m;
  }

  /** What one more message does to the contents of the files, the last of which is open. */
  lemma ContentsExtended(limit: nat, files: Files, m: seq<char>, closed: seq<seq<char>>, current: seq<char>)
    requires files != [] && closed + [current] == Contents(files)
    ensures Contents(Extended(limit, files, m))
            == if |current| > limit then (closed + [current]) + [m] else closed + [current + m]
  {
    var n := |files| - 1;
    assert Contents(files)[n] == current == Concat(files[n]);
    ConcatMore(files[n], m);
    forall i | 0 <= i < n ensures closed[i] == Concat(files[i]) {
      assert closed[i] == (closed + [current])[i];
    }
  }

  lemma FlatAppend(files: Files, file: Messages)
    ensures Flat(files + [file]) == Flat(files) + file
  {
    assert (files + [file])[..|files|] == files;
  }

  lemma {:induction false} ConcatAppend(a: Messages, b: Messages)
    ensures Concat(a + b) == Concat(a) + Concat(b)
    decreases |b|
  {
    if b == [] {
      assert a + b == a;
    } else {
      var n := |b| - 1;
      ConcatAppend(a, b[..n]);
      assert (a + b)[..|a + b| - 1] == a + b[..n];
    }
  }

  /** The bytes of the files, one after the other, are the bytes of the messages. */
  lemma {:induction false} BytesKept(files: Files)
    ensures Concat(Contents(files)) == Concat(Flat(files))
    decreases |files|
  {
    if files != [] {
      var n := |files| - 1;
      BytesKept(files[..n]);
      assert Contents(files)[..n] == Contents(files[..n]);
      ConcatAppend(Flat(files[..n]), files[n]);
    }
  }

  // ---------------------------------------------------------------- the rotation rule

  lemma ExtendedFlat(limit: nat, files: Files, m: seq<char>)
    requires files != []
    ensures Flat(Extended(limit, files, m)) == Flat(files) + [m]
  {
    var n := |files| - 1;
    if Size(files[n]) > limit {
      FlatAppend(files, [m]);
    } else {
      FlatAppend(files[..n], files[n] + [m]);
    }
  }

  /** What one more message does to a file. */
  lemma AdmittedMore(limit: nat, file: Messages, m: seq<char>)
    ensures Admitted(limit, file + [m]) <==> Size(file) <= limit
    ensures Size(file + [m]) == Size(file) + |m|
  {
    assert (file + [m])[..|file|] == file;
  }

  lemma ExtendedRotated(limit: nat, files: Files, m: seq<char>)
    requires Rotated(limit, files)
    ensures Rotated(limit, Extended(limit, files, m))
  {
    var n := |files| - 1;
    AdmittedMore(limit, files[n], m);
    AdmittedMore(limit, [], m);
    assert [] + [m] == [m];
    if Size(files[n]) > limit {
      assert Closed(limit, files[n]);
    }
  }

  lemma FirstFile(limit: nat)
    ensures Rotated(limit, [[]]) && Flat([[]]) == []
  {
    var files: Files := [[]];
    assert files[..0] == [] && Flat(files[..0]) + files[0] == [];
  }

  lemma RotationHoldsMore(limit: nat, before: Messages, m: seq<char>, ms: Messages)
    requires Rotated(limit, Rotation(limit, before)) && Flat(Rotation(limit, before)) == before
    requires ms == before + [m]
    ensures Rotated(limit, Rotation(limit, ms)) && Flat(Rotation(limit, ms)) == ms
  {
    RotationMore(limit, before, m);
    ExtendedFlat(limit, Rotation(limit, before), m);
    ExtendedRotated(limit, Rotation(limit, before), m);
  }

  /** The rotation of a message series keeps the rule and all messages in order. */
  lemma {:induction false} RotationHolds(limit: nat, ms: Messages)
    ensures Rotated(limit, Rotation(limit, ms)) && Flat(Rotation(limit, ms)) == ms
    decreases |ms|
  {
    if ms == [] {
      FirstFile(limit);
    } else {
      var n := |ms| - 1;
      RotationHolds(limit, ms[..n]);
      RotationHoldsMore(limit, ms[..n], ms[n], ms);
    }
  }

  /** Files without their last message. */
  function Shortened(files: Files): Files
    requires files != [] && files[|files| - 1] != []
  {
    var n := |files| - 1;
    var rest := files[n][..|files[n]| - 1];
    if rest == [] && n > 0 then files[..n] else files[..n] + [rest]
  }

  lemma ShortenedRotated(limit: nat, files: Files)
    requires Rotated(limit, files) && files[|files| - 1] != []
    ensures
      var rest := Shortened(files);
      Rotated(limit, rest) && (|files| > 1 ==> rest[|rest| - 1] != [])
  {
    var n := |files| - 1;
    var rest := files[n][..|files[n]| - 1];
    if rest == [] && n > 0 {
      assert Closed(limit, files[n - 1]);
    } else if rest != [] {
      AdmittedMore(limit, rest[..|rest| - 1], rest[|rest| - 1]);
      assert rest[..|rest| - 1] + [rest[|rest| - 1]] == rest;
    }
  }

  lemma ShortenedExtends(limit: nat, files: Files)
    requires Rotated(limit, files) && files[|files| - 1] != []
    ensures var last := files[|files| - 1]; Extended(limit, Shortened(files), last[|last| - 1]) == files
  {
    var n := |files| - 1;
    var rest, m := files[n][..|files[n]| - 1], files[n][|files[n]| - 1];
    LastFile(files, rest, m);
    if rest == [] && n > 0 {
      assert Closed(limit, files[n - 1]);
    } else {
      var shorter := files[..n] + [rest];
      assert shorter[n] == rest && shorter[..n] == files[..n];
    }
  }

  lemma LastFile(files: Files, rest: Messages, m: seq<char>)
    requires files != [] && files[|files| - 1] == rest + [m]
    ensures files[..|files| - 1] + [rest + [m]] == files && (rest == [] ==> rest + [m] == [m])
  {
  }

  /** The rule leaves no choice: files that keep it, the last one not empty unless it is the only one, are
      the rotation of their messages. */
  lemma {:induction false} RotationUnique(limit: nat, files: Files)
    requires Rotated(limit, files) && (|files| > 1 ==> files[|files| - 1] != [])
    ensures files == Rotation(limit, Flat(files))
    decreases |Flat(files)|
  {
    var n := |files| - 1;
    if files[n] == [] {
      assert files == [[]] && files[..0] == [];
    } else {
      var m := files[n][|files[n]| - 1];
      ShortenedRotated(limit, files);
      ShortenedExtends(limit, files);
      ExtendedFlat(limit, Shortened(files), m);
      RotationUnique(limit, Shortened(files));
      assert Flat(files)[..|Flat(files)| - 1] == Flat(Shortened(files));
    }
  }

  // ---------------------------------------------------------------- sizes

  lemma Times(n: nat, m: nat)
    ensures (n + 1) * m == n * m + m
  {
  }

  lemma {:induction false} ClosedTotal(limit: nat, files: Files)
    requires forall i :: 0 <= i < |files| ==> Closed(limit, files[i])
    ensures Size(Flat(files)) >= |files| * (limit + 1)
    decreases |files|
  {
    if files != [] {
      var n := |files| - 1;
      ClosedTotal(limit, files[..n]);
      ConcatAppend(Flat(files[..n]), files[n]);
      assert Closed(limit, files[n]);
      Times(n, limit + 1);
    }
  }

  lemma FileBound(limit: nat, file: Messages, longest: nat)
    requires Admitted(limit, file) && forall k :: 0 <= k < |file| ==> |file[k]| <= longest
    ensures Size(file) <= limit + longest
  {
    if file != [] {
      var rest, m := file[..|file| - 1], file[|file| - 1];
      AdmittedMore(limit, rest, m);
      assert rest + [m] == file;
    }
  }

  /** k files mean at least (k - 1) * (limit + 1) bytes, and no file exceeds the limit by more than the
      longest message. */
  lemma RotationBounds(limit: nat, files: Files, longest: nat)
    requires Rotated(limit, files)
    requires forall i, k :: 0 <= i < |files| && 0 <= k < |files[i]| ==> |files[i][k]| <= longest
    ensures Size(Flat(files)) >= (|files| - 1) * (limit + 1)
    ensures forall i :: 0 <= i < |files| ==> Size(files[i]) <= limit + longest
  {
    ClosedTotal(limit, files[..|files| - 1]);
    ConcatAppend(Flat(files[..|files| - 1]), files[|files| - 1]);
    forall i | 0 <= i < |files| ensures Size(files[i]) <= limit + longest {
      assert i < |files| - 1 ==> Closed(limit, files[i]);
      FileBound(limit, files[i], longest);
    }
  }
}
