/** A log message object: a bounded text it owns through a pointer, which moves hand over and which the
    destructor hands to the logger, once. */
module LogMessages {
  import opened LogStreams
  import opened LoggerProtocol
  import opened Loggers

  /** How a text ends: a line end and, for FATAL, the stack trace are added as far as they fit. */
  function Ended(text: seq<char>, level: Level, trace: seq<char>): (r: seq<char>)
    requires |text| <= MAX_TEXT
    ensures |r| <= 2998
    ensures level != FATAL && |text| < 2998 ==> r == text + "\n"
    ensures level == FATAL && |text| + 1 + |trace| <= 2998 ==> r == text + "\n" + trace
    ensures level == FATAL && |text| + 1 + |trace| > 2998 ==> r == (text + "\n" + trace)[..2998]
    ensures |text| == 2998 ==> r == text
  {
    var end := "\n" + if level == FATAL then trace else "";
    assert text + end == text + "\n" + if level == FATAL then trace else "";
    assert (text + end)[..|text|] == text;
    Clip(text + end, MAX_TEXT)
  }

  class Data {
    var flushed: bool
    const stream: LogStreamBuf

    constructor ()
      ensures !flushed && fresh(stream) && fresh(stream.memory)
      ensures stream.Valid() && stream.memory.Length == MAX_MESSAGE_LEN && stream.Text() == []
    {
      flushed := false;
      stream := new LogStreamBuf(MAX_MESSAGE_LEN);
    }
  }

  class LogMessage {
    var level: Level
    var data: Data?

    ghost predicate Valid()
      reads this, data, if data == null then {} else {data.stream}
    {
      data != null ==> data.stream.Valid() && data.stream.memory.Length == MAX_MESSAGE_LEN
    }

    ghost function Text(): seq<char>
      requires data != null && data.stream.Valid()
      reads this, data, data.stream, data.stream.memory
    {
      data.stream.Text()
    }

    /** The message starts with its header; see `Write` for the text that follows. */
    constructor (level: Level, header: seq<char>)
      ensures Valid() && data != null && fresh(data) && fresh(data.stream) && fresh(data.stream.memory)
      ensures this.level == level && !data.flushed && Text() == Clip(header, MAX_TEXT)
    {
      this.level := level;
      data := new Data();
      new;
      var n := data.stream.Write(header);
      assert [] + header == header;
    }

    constructor MoveFrom(msg: LogMessage)
      requires msg.Valid()
      modifies msg`data
      ensures Valid() && level == msg.level && data == old(msg.data) && msg.data == null
    {
      level, data := msg.level, msg.data;
      new;
      msg.data := null;
    }

    /** Move assignment: what this object owned before is neither flushed nor released. */
    method Assign(msg: LogMessage)
      requires msg.Valid() && Valid()
      modifies this, msg`data
      ensures Valid() && msg.Valid() && level == old(msg.level) && data == old(msg.data)
      ensures msg != this ==> msg.data == null
    {
      if msg == this {
        return;
      }
      level, data := msg.level, msg.data;
      msg.data := null;
    }

    /** Stream() << s. */
    method Write(s: seq<char>)
      requires Valid() && data != null
      modifies data.stream`pptr, data.stream.memory
      ensures Valid() && Text() == Clip(old(Text()) + s, MAX_TEXT)
    {
      var n := data.stream.Write(s);
    }

    /** The end of the text: a line end and, for FATAL, the stack trace. */
    method Complete(trace: seq<char>)
      requires Valid() && data != null
      modifies data.stream`pptr, data.stream.memory
      ensures Valid() && Text() == old(Ended(Text(), level, trace))
    {
      ghost var text := Text();
      Write("\n");
      if level == FATAL {
        ClipAgain(text + "\n", trace, MAX_TEXT);
        assert text + "\n" + trace == text + ("\n" + trace);
        Write(trace);
      } else {
        assert text + "\n" == text + ("\n" + "");
      }
    }

    /** The part of Flush that hands the message to the logger, which moves it into an object of its own. */
    method HandOver(logger: Logger) returns (slot: LogMessage)
      requires Valid() && data != null && logger.Valid() && !logger.stop
      modifies `data, data`flushed, logger
      ensures data == null && fresh(slot) && slot.data == old(data) && slot.level == level && slot.Valid()
      ensures slot.data.flushed && logger.Valid() && !logger.stop && slot.Text() == old(Text())
      ensures logger.logged == old(logger.logged) + [Msg(level, old(Text()))]
    {
      var text := data.stream.Text();
      data.flushed := true;
      slot := new LogMessage.MoveFrom(this);
      logger.Buffering(Msg(level, text));
    }

    /** The destructor: unflushed data is handed to the logger (if one is set) exactly once: its text with a
        line end and, for FATAL, the stack trace, cut off at 2998 characters; moved-from and flushed objects
        hand over nothing. */
    method Destroy(logger: Logger?, trace: seq<char>) returns (slot: LogMessage?)
      requires Valid() && (logger != null ==> logger.Valid() && !logger.stop)
      modifies `data, data, if data == null then {} else {data.stream}
      modifies if data == null then {} else {data.stream.memory}
      modifies if logger == null then {} else {logger}
      ensures data == null && (old(data) != null ==> old(data).stream.Valid())
      ensures slot != null <==> old(data) != null && !old(data.flushed) && logger != null
      ensures slot != null ==>
                && fresh(slot) && slot.data == old(data) && slot.level == level && slot.Valid() && old(data).flushed
                && logger.Valid() && !logger.stop && slot.Text() == old(Ended(Text(), level, trace))
                && |slot.Text()| <= MAX_TEXT && logger.logged == old(logger.logged) + [Msg(level, slot.Text())]
      ensures slot != null && level != FATAL && |old(Text())| < 2998 ==> slot.Text() == old(Text()) + "\n"
      ensures slot != null && level == FATAL && |old(Text())| + 1 + |trace| <= 2998 ==>
                slot.Text() == old(Text()) + "\n" + trace
      ensures slot != null && level == FATAL && |old(Text())| + 1 + |trace| > 2998 ==>
                slot.Text() == (old(Text()) + "\n" + trace)[..2998]
      ensures slot != null && |old(Text())| == 2998 ==> slot.Text() == old(Text())
      ensures slot == null && old(data) != null ==> old(data).flushed == old(data.flushed)
      ensures old(data) != null && old(data.flushed) ==> unchanged(old(data).stream, old(data).stream.memory)
      ensures slot == null && logger != null ==> unchanged(logger)
    {
      slot := null;
      if data != null && !data.flushed {
        Complete(trace);
        if logger != null {
          slot := HandOver(logger);
        }
      }
      data := null;
    }
  }
}
