/** From the messages logged to the bytes in the files of one sink. */
module LogPipeline {
  import opened LogFiles
  import opened LogStreams
  import opened LoggerProtocol
  import opened Loggers
  import opened Runs

  lemma {:induction false} FlatAt(files: Files, i: nat, k: nat)
    requires i < |files| && k < |files[i]|
    ensures files[i][k] in Flat(files)
    decreases |files|
  {
    var n := |files| - 1;
    if i < n {
      FlatAt(files[..n], i, k);
      assert files[..n][i] == files[i];
    }
  }

  /** The files hold the bytes of `ms` in order; k files hold at least (k - 1) * (limit + 1) bytes, and none
      is longer than the limit plus one message. */
  ghost predicate Holding(limit: nat, contents: seq<seq<char>>, ms: seq<Msg>) {
    && Concat(contents) == Concat(Texts(ms))
    && |Concat(contents)| >= (|contents| - 1) * (limit + 1)
    && forall i :: 0 <= i < |contents| ==> |contents[i]| <= limit + MAX_TEXT
  }

  lemma RotationHolding(limit: nat, ms: seq<Msg>)
    ensures Holding(limit, Contents(Rotation(limit, Texts(ms))), ms)
  {
    var files := Rotation(limit, Texts(ms));
    RotationHolds(limit, Texts(ms));
    BytesKept(files);
    forall i, k | 0 <= i < |files| && 0 <= k < |files[i]| ensures |files[i][k]| <= MAX_TEXT {
      FlatAt(files, i, k);
      var q :| 0 <= q < |Texts(ms)| && Texts(ms)[q] == files[i][k];
      assert Texts(ms)[q] == ms[q].text;
    }
    RotationBounds(limit, files, MAX_TEXT);
  }

  /** At every moment of every interleaving, the files of each sink hold, byte for byte, in order and within
      the rotation bounds, a prefix of the messages logged, at most one message longer than what all sinks
      have. */
  lemma EndToEnd(sinks: nat, s: State, j: nat, limit: nat)
    requires Reaches(Next, Init(sinks), s) && j < |s.sinks|
    ensures exists n :: s.done <= n <= s.done + 1 && n <= |s.logged|
                        && Holding(limit, Contents(Rotation(limit, Texts(s.sinks[j]))), s.logged[..n])
  {
    OrderAndCompleteness(sinks, s);
    var n := |s.sinks[j]|;
    assert s.sinks[j] == s.logged[..n];
    RotationHolding(limit, s.sinks[j]);
  }

  /** The same of the logger object and its log files. */
  lemma FilesEndToEnd(logger: Logger, j: nat)
    requires logger.Valid() && j < |logger.dests|
    ensures
      var file := logger.dests[j];
      exists n :: logger.done <= n <= logger.done + 1 && n <= |logger.logged|
                  && Holding(file.limit, file.closed + [file.current], logger.logged[..n])
  {
    EndToEnd(|logger.dests|, logger.Abs(), j, logger.dests[j].limit);
  }

  /** Where the flush thread has delivered everything, the files hold all messages; where it has met a FATAL
      message, they hold the messages up to the first one. */
  lemma FilesComplete(logger: Logger, j: nat)
    requires logger.Valid() && j < |logger.dests|
    ensures
      var file := logger.dests[j];
      && (logger.flusher.Waiting? && logger.buf == [] ==>
            Holding(file.limit, file.closed + [file.current], logger.logged))
      && (logger.stop ==>
            var n := BeforeFatal(logger.logged) + 1;
            n <= |logger.logged| && Holding(file.limit, file.closed + [file.current], logger.logged[..n]))
  {
    OrderAndCompleteness(|logger.dests|, logger.Abs());
    if logger.stop {
      FatalCut(|logger.dests|, logger.Abs());
    }
    RotationHolding(logger.dests[j].limit, logger.sinks[j]);
  }
}
