/** The log messages of a program: LogMessage objects and the data they own, created, moved and destroyed as
    the ownership protocol says.  Objects and data are numbered as there. */
module MessageOwners {
  import MP = MessageProtocol

  import opened LogFiles
  import opened LogPipeline
  import opened Loggers
  import opened LogMessages
  import opened LoggerProtocol
  import opened LogStreams
  import opened Runs

  type Pointers = map<nat, Data?>

  /** The pointers of the objects are what the protocol says they own. */
  ghost predicate Agree(pointers: Pointers, datas: seq<Data>, s: MP.State) {
    && (forall o :: o in s.objects <==> o in pointers) && |datas| == s.created
    && forall o :: o in pointers ==>
         match s.objects[o]
         case None => pointers[o] == null
         case Some(d) => d < |datas| && pointers[o] == datas[d]
  }

  lemma AgreeCreate(pointers: Pointers, datas: seq<Data>, s: MP.State, o: nat, data: Data)
    requires Agree(pointers, datas, s) && o !in pointers
    ensures Agree(pointers[o := data], datas + [data], MP.Next(s, MP.Create(o)).value)
  {
  }

  lemma AgreeMove(pointers: Pointers, datas: seq<Data>, s: MP.State, from: nat, to: nat)
    requires Agree(pointers, datas, s) && from in pointers && from != to
    ensures to !in pointers ==>
              Agree(pointers[to := pointers[from]][from := null], datas, MP.Next(s, MP.Move(from, to)).value)
    ensures to in pointers ==>
              Agree(pointers[to := pointers[from]][from := null], datas, MP.Next(s, MP.Assign(from, to)).value)
  {
  }

  /** Destroying an object that hands its data over, and one that does not. */
  lemma AgreeHand(pointers: Pointers, datas: seq<Data>, s: MP.State, o: nat, slot: nat)
    requires Agree(pointers, datas, s) && o in pointers && slot !in pointers && MP.Unflushed(s, o) && s.connected
    ensures
      var t, d := MP.Next(s, MP.Destroy(o, slot)).value, s.objects[o].value;
      && Agree((pointers - {o})[slot := pointers[o]], datas, t)
      && t.flushed == s.flushed + {d} && t.connected && t.handed == s.handed + [d]
  {
  }

  lemma AgreeDrop(pointers: Pointers, datas: seq<Data>, s: MP.State, o: nat, slot: nat)
    requires Agree(pointers, datas, s) && o in pointers && slot !in pointers && !(MP.Unflushed(s, o) && s.connected)
    ensures
      var t := MP.Next(s, MP.Destroy(o, slot)).value;
      && Agree(pointers - {o}, datas, t)
      && t.flushed == s.flushed && t.connected == s.connected && t.handed == s.handed
  {
  }

  /** What the objects' data looks like: whether its stream is well-formed, its mark, and its text. */
  datatype Info = Info(ok: bool, flushed: bool, text: seq<char>)

  /** Data is well-formed, and marked as given. */
  ghost predicate Marked(infos: seq<Info>, marks: set<MP.Data>) {
    forall d :: 0 <= d < |infos| ==> infos[d].ok && (infos[d].flushed <==> d in marks)
  }

  /** The i-th message logged behind `start` has the text of the i-th data handed over. */
  ghost predicate LoggedAs(logged: seq<Msg>, start: seq<Msg>, handed: seq<MP.Data>, infos: seq<Info>) {
    && |logged| == |start| + |handed| && start <= logged
    && forall i :: 0 <= i < |handed| ==> handed[i] < |infos| && logged[|start| + i].text == infos[handed[i]].text
  }

  /** How a message that was `left` by its writers ends in the log: behind a line end, unless there is no room
      for it, and for FATAL possibly more. */
  predicate Ends(left: Msg, logged: Msg) {
    && logged.level == left.level
    && if |left.text| >= 2998 then logged.text == left.text
       else if left.level == FATAL then left.text + "\n" <= logged.text
       else logged.text == left.text + "\n"
  }

  /** The i-th message logged behind `start` is the i-th one left. */
  ghost predicate LoggedEnds(logged: seq<Msg>, start: seq<Msg>, left: seq<Msg>) {
    && |logged| == |start| + |left|
    && forall i :: 0 <= i < |left| ==> Ends(left[i], logged[|start| + i])
  }

  /** The same, exactly: a line end and, for FATAL, the stack trace, cut off at 2998 characters. */
  predicate Completes(left: Msg, trace: seq<char>, logged: Msg) {
    var all := left.text + "\n" + if left.level == FATAL then trace else "";
    logged.level == left.level && logged.text == if |all| <= 2998 then all else all[..2998]
  }

  /** Going from `before` to `after` the messages `gone` (one or none) were logged. */
  ghost predicate Added(before: seq<Msg>, after: seq<Msg>, gone: seq<Msg>, trace: seq<char>) {
    && |after| == |before| + |gone| && before <= after
    && forall i :: 0 <= i < |gone| ==> Completes(gone[i], trace, after[|before| + i])
  }

  lemma EndsComplete(level: Level, text: Text, trace: seq<char>)
    ensures
      var left, logged := Msg(level, text), Msg(level, Ended(text, level, trace));
      Completes(left, trace, logged) && Ends(left, logged)
  {
    if |text| == 2998 {
      assert (text + "\n" + trace)[..2998] == text && (text + "\n")[..2998] == text;
    }
  }

  /** The objects and data are as the protocol says, and what has been logged since the start are the texts of
      the data handed over, in order. */
  ghost predicate In(s: MP.State, connected: bool, pointers: Pointers, datas: seq<Data>, infos: seq<Info>,
                     start: seq<Msg>, logged: seq<Msg>) {
    && connected == s.connected && Agree(pointers, datas, s) && Marked(infos, s.flushed) && |infos| == |datas|
    && LoggedAs(logged, start, s.handed, infos)
  }

  lemma LoggedMore(logged: seq<Msg>, start: seq<Msg>, handed: seq<MP.Data>, infos: seq<Info>, d: MP.Data, m: Msg)
    requires LoggedAs(logged, start, handed, infos) && d < |infos| && d !in handed
    ensures LoggedAs(logged + [m], start, handed + [d], infos[d := Info(true, true, m.text)])
  {
  }

  /** Handing a message over keeps all of this. */
  lemma HandIn(s: MP.State, pointers: Pointers, datas: seq<Data>, infos: seq<Info>,
               start: seq<Msg>, logged: seq<Msg>, o: nat, slot: nat, m: Msg)
    requires In(s, true, pointers, datas, infos, start, logged) && MP.Inv(s)
    requires o in pointers && slot !in pointers && MP.Unflushed(s, o)
    ensures
      var rest: Pointers, d := pointers - {o}, s.objects[o].value;
      In(MP.Next(s, MP.Destroy(o, slot)).value, true, rest[slot := pointers[o]], datas,
         infos[d := Info(true, true, m.text)], start, logged + [m])
  {
    AgreeHand(pointers, datas, s, o, slot);
    LoggedMore(logged, start, s.handed, infos, s.objects[o].value, m);
  }

  /** So does destroying an object that hands nothing over, even if text is added to its data. */
  lemma DropIn(s: MP.State, connected: bool, pointers: Pointers, datas: seq<Data>, infos: seq<Info>, after: seq<Info>,
               start: seq<Msg>, logged: seq<Msg>, o: nat, slot: nat)
    requires In(s, connected, pointers, datas, infos, start, logged) && MP.Inv(s)
    requires o in pointers && slot !in pointers && !(MP.Unflushed(s, o) && connected)
    requires if MP.Unflushed(s, o) then
               var d := s.objects[o].value;
               d < |infos| == |after| && after == infos[d := Info(true, false, after[d].text)]
             else after == infos
    ensures In(MP.Next(s, MP.Destroy(o, slot)).value, connected, pointers - {o}, datas, after, start, logged)
  {
    AgreeDrop(pointers, datas, s, o, slot);
  }

  /** Only destroying marks data. */
  lemma SameMarks(s: MP.State, l: MP.Label)
    requires MP.Next(s, l).Some? && (l.Create? || l.Move? || l.Assign?)
    ensures MP.Next(s, l).value.flushed == s.flushed && MP.Next(s, l).value.connected == s.connected
    ensures MP.Next(s, l).value.handed == s.handed
  {
  }

  class Owners {
    const logger: Logger
    ghost const start: seq<Msg>    // what was logged before
    var connected: bool
    var objects: map<nat, LogMessage>
    ghost var datas: seq<Data>     // all data created
    ghost var state: MP.State
    ghost var left: seq<Msg>       // history: the messages handed over, as they were before destruction

    ghost function Owned(): Pointers
      reads `objects, objects.Values
    {
      map o | o in objects :: objects[o].data
    }

    /** Objects are not shared. */
    ghost predicate Distinct()
      reads `objects
    {
      forall o, p :: o in objects && p in objects && o != p ==> objects[o] != objects[p]
    }

    /** Data is not shared, and has the memory of a message. */
    ghost predicate Separate()
      reads `datas
    {
      && (forall d, e :: 0 <= d < e < |datas| ==>
            && datas[d] != datas[e] && datas[d].stream != datas[e].stream
            && datas[d].stream.memory != datas[e].stream.memory)
      && forall d :: 0 <= d < |datas| ==> datas[d].stream.memory.Length == MAX_MESSAGE_LEN
    }

    ghost function Infos(): (r: seq<Info>)
      reads `datas, datas, (set d | d in datas :: d.stream), (set d | d in datas :: d.stream.memory)
      ensures |r| == |datas|
    {
      var all := datas;
      seq(|all|, d requires 0 <= d < |all|
                 reads all, set e | e in all :: e.stream, set e | e in all :: e.stream.memory =>
        Info(all[d].stream.Valid(), all[d].flushed, if all[d].stream.Valid() then all[d].stream.Text() else []))
    }

    ghost predicate Valid()
      reads this, objects.Values, datas, (set d | d in datas :: d.stream)
      reads (set d | d in datas :: d.stream.memory), logger`logged
    {
      && Reaches(MP.Next, MP.INIT, state) && Distinct() && Separate()
      && In(state, connected, Owned(), datas, Infos(), start, logger.logged)
      && LoggedEnds(logger.logged, start, left)
    }

    constructor (logger: Logger)
      ensures Valid() && fresh(this) && this.logger == logger && state == MP.INIT && start == logger.logged
      ensures left == []
    {
      this.logger, connected, objects, datas, state := logger, false, map[], [], MP.INIT;
      start, left := logger.logged, [];
      new;
      ReachesSelf(MP.Next, MP.INIT);
    }

    /** The protocol follows the objects, which own `pointers` and whose data looks like `infos`. */
    ghost method Advance(l: MP.Label, t: MP.State, pointers: Pointers, infos: seq<Info>, logged: seq<Msg>)
      requires Reaches(MP.Next, MP.INIT, state) && MP.Next(state, l) == Some(t) && Distinct() && Separate()
      requires Owned() == pointers && Infos() == infos && logger.logged == logged
      requires In(t, connected, pointers, datas, infos, start, logged) && LoggedEnds(logged, start, left)
      modifies `state
      ensures Valid() && MP.Next(old(state), l) == Some(state) && Infos() == infos && Owned() == pointers
      ensures old(logger.Valid()) ==> logger.Valid()
    {
      Follow(l, t);
      Back(pointers, infos);
    }

    ghost method Follow(l: MP.Label, t: MP.State)
      requires Reaches(MP.Next, MP.INIT, state) && MP.Next(state, l) == Some(t)
      modifies `state
      ensures Reaches(MP.Next, MP.INIT, state) && state == t && (old(logger.Valid()) ==> logger.Valid())
    {
      state := ReachesStep(MP.Next, MP.INIT, state, l);
    }

    lemma Back(pointers: Pointers, infos: seq<Info>)
      requires Reaches(MP.Next, MP.INIT, state) && Distinct() && Separate()
      requires Owned() == pointers && Infos() == infos
      requires In(state, connected, pointers, datas, infos, start, logger.logged)
      requires LoggedEnds(logger.logged, start, left)
      ensures Valid()
    {
    }

    lemma ObjectValid(o: nat)
      requires Valid() && o in objects
      ensures objects[o].Valid() && objects[o].data == Owned()[o]
      ensures objects[o].data != null ==>
                var d := state.objects[o].value;
                Holds(objects[o], d) && (MP.Unflushed(state, o) <==> !datas[d].flushed)
    {
      assert Owned()[o] == objects[o].data;
      if objects[o].data != null {
        var d := state.objects[o].value;
        assert Infos()[d].ok && Infos()[d].flushed == datas[d].flushed;
      }
    }

    /** The message owns data number d. */
    ghost predicate Holds(msg: LogMessage, d: MP.Data)
      reads msg, `datas
    {
      msg.data != null && d < |datas| && datas[d] == msg.data
    }

    /** The objects the destructor of `msg` writes to. */
    ghost function Reach(msg: LogMessage): set<object>
      reads msg
    {
      {msg} + if msg.data == null then {} else {msg.data, msg.data.stream, msg.data.stream.memory}
    }

    method SetSentToCallback()
      requires Valid()
      modifies `connected, `state
      ensures connected && Valid() && MP.Next(old(state), MP.Connect) == Some(state)
    {
      ghost var next, pointers: Pointers := MP.Next(state, MP.Connect).value, Owned();
      connected := true;
      Advance(MP.Connect, next, pointers, Infos(), logger.logged);
    }

    // ---------------------------------------------------------------- creating, moving, writing

    method Create(o: nat, level: Level, header: seq<char>)
      requires Valid() && o !in objects
      modifies `objects, `datas, `state
      ensures Valid() && MP.Next(old(state), MP.Create(o)) == Some(state)
      ensures o in objects && objects[o].data != null && Owned() == old(Owned())[o := objects[o].data]
      ensures objects[o].data !in old(datas) && datas == old(datas) + [objects[o].data]
      ensures Infos() == old(Infos()) + [Info(true, false, Clip(header, MAX_TEXT))]
    {
      MP.ReachableInv(state);
      ghost var next, pointers: Pointers := MP.Next(state, MP.Create(o)).value, Owned();
      ghost var infos := Infos() + [Info(true, false, Clip(header, MAX_TEXT))];
      SameMarks(state, MP.Create(o));
      ghost var data := MakeObject(o, level, header);
      AgreeCreate(pointers, old(datas), state, o, data);
      Advance(MP.Create(o), next, pointers[o := data], infos, logger.logged);
    }

    method MakeObject(o: nat, level: Level, header: seq<char>) returns (ghost data: Data)
      requires Distinct() && Separate() && o !in objects
      modifies `objects, `datas
      ensures Distinct() && Separate() && o in objects && objects[o].data == data
      ensures data !in old(datas) && datas == old(datas) + [data] && Owned() == old(Owned())[o := data]
      ensures Infos() == old(Infos()) + [Info(true, false, Clip(header, MAX_TEXT))]
    {
      var msg := new LogMessage(level, header);
      data := msg.data;
      Keep(o, msg);
    }

    /** Keep a new object and its data. */
    method Keep(o: nat, msg: LogMessage)
      requires Distinct() && o !in objects && forall p :: p in objects ==> objects[p] != msg
      requires Separate() && msg.Valid() && msg.data != null && !msg.data.flushed
      requires forall d :: d in datas ==>
                 d != msg.data && d.stream != msg.data.stream && d.stream.memory != msg.data.stream.memory
      modifies `objects, `datas
      ensures Distinct() && Separate() && datas == old(datas) + [msg.data] && objects == old(objects)[o := msg]
      ensures Owned() == old(Owned())[o := msg.data]
      ensures Infos() == old(Infos()) + [Info(true, false, msg.Text())]
    {
      AddData(msg.data);
      AddObject(o, msg);
    }

    ghost method AddData(data: Data)
      requires Separate() && data.stream.Valid() && data.stream.memory.Length == MAX_MESSAGE_LEN
      requires forall d :: d in datas ==>
                 d != data && d.stream != data.stream && d.stream.memory != data.stream.memory
      modifies `datas
      ensures Separate() && datas == old(datas) + [data]
      ensures Infos() == old(Infos()) + [Info(true, data.flushed, data.stream.Text())]
    {
      datas := datas + [data];
    }

    /** Keep an object under the number o. */
    method AddObject(o: nat, msg: LogMessage)
      requires Distinct() && o !in objects && forall p :: p in objects ==> objects[p] != msg
      modifies `objects
      ensures Distinct() && objects == old(objects)[o := msg] && Owned() == old(Owned())[o := msg.data]
      ensures old(logger.Valid()) ==> logger.Valid()
    {
      objects := objects[o := msg];
    }

    method Move(from: nat, to: nat)
      requires Valid() && from in objects && to !in objects
      modifies `objects, `state, objects[from]
      ensures Valid() && MP.Next(old(state), MP.Move(from, to)) == Some(state) && Infos() == old(Infos())
      ensures Owned() == old(Owned()[to := Owned()[from]][from := null])
    {
      ghost var next, pointers: Pointers := MP.Next(state, MP.Move(from, to)).value, Owned();
      ghost var infos := Infos();
      SameMarks(state, MP.Move(from, to));
      AgreeMove(pointers, datas, state, from, to);
      ObjectValid(from);
      MoveObject(from, to);
      Advance(MP.Move(from, to), next, pointers[to := pointers[from]][from := null], infos, logger.logged);
    }

    method MoveObject(from: nat, to: nat)
      requires Distinct() && from in objects && to !in objects && objects[from].Valid()
      modifies `objects, objects[from]
      ensures Distinct() && Owned() == old(Owned()[to := Owned()[from]][from := null]) && Infos() == old(Infos())
    {
      var msg := new LogMessage.MoveFrom(objects[from]);
      objects := objects[to := msg];
    }

    method Assign(from: nat, to: nat)
      requires Valid() && from in objects && to in objects
      modifies `state, objects[from], objects[to]
      ensures Valid() && MP.Next(old(state), MP.Assign(from, to)) == Some(state) && Infos() == old(Infos())
      ensures Owned() == if from == to then old(Owned()) else old(Owned()[to := Owned()[from]][from := null])
    {
      if from == to {
        AssignSelf(from);
      } else {
        AssignOther(from, to);
      }
    }

    method AssignSelf(o: nat)
      requires Valid() && o in objects
      modifies `state, objects[o]
      ensures Valid() && MP.Next(old(state), MP.Assign(o, o)) == Some(state) && Infos() == old(Infos())
      ensures Owned() == old(Owned())
    {
      ObjectValid(o);
      ghost var pointers, infos: seq<Info> := Owned(), Infos();
      AssignObject(o, o);
      Advance(MP.Assign(o, o), state, pointers, infos, logger.logged);
    }

    method AssignOther(from: nat, to: nat)
      requires Valid() && from in objects && to in objects && from != to
      modifies `state, objects[from], objects[to]
      ensures Valid() && MP.Next(old(state), MP.Assign(from, to)) == Some(state) && Infos() == old(Infos())
      ensures Owned() == if from == to then old(Owned()) else old(Owned()[to := Owned()[from]][from := null])
    {
      ObjectValid(from);
      ObjectValid(to);
      ghost var next, pointers: Pointers := MP.Next(state, MP.Assign(from, to)).value, Owned();
      ghost var infos := Infos();
      SameMarks(state, MP.Assign(from, to));
      AgreeMove(pointers, datas, state, from, to);
      AssignObject(from, to);
      Advance(MP.Assign(from, to), next, pointers[to := pointers[from]][from := null], infos, logger.logged);
    }

    method AssignObject(from: nat, to: nat)
      requires Distinct() && from in objects && to in objects && objects[from].Valid() && objects[to].Valid()
      modifies objects[from], objects[to]
      ensures Owned() == if from == to then old(Owned()) else old(Owned()[to := Owned()[from]][from := null])
      ensures Infos() == old(Infos())
    {
      objects[to].Assign(objects[from]);
    }

    /** Stream() << s. */
    method Write(o: nat, s: seq<char>)
      requires Valid() && o in objects && MP.Unflushed(state, o)
      modifies Reach(objects[o])
      ensures Valid()
      ensures var d, infos := state.objects[o].value, old(Infos());
              d < |infos| && Infos() == infos[d := Info(true, false, Clip(infos[d].text + s, MAX_TEXT))]
    {
      ObjectValid(o);
      MP.ReachableInv(state);
      ghost var d, pointers := state.objects[o].value, Owned();
      WriteData(objects[o], s, d);
      Back(pointers, Infos());
    }

    method WriteData(msg: LogMessage, s: seq<char>, ghost d: MP.Data)
      requires msg.Valid() && Holds(msg, d) && Separate()
      modifies msg.data.stream, msg.data.stream.memory
      ensures Infos()
              == old(Infos())[d := Info(true, msg.data.flushed, Clip(old(Infos())[d].text + s, MAX_TEXT))]
    {
      msg.Write(s);
    }

    // ---------------------------------------------------------------- destroying

    /** What the destructor of `msg` hands to the logger: its level and its text with line end and trace, if
        it owns unflushed data and the logger is set. */
    ghost function Last(msg: LogMessage, trace: seq<char>): seq<Msg>
      reads `connected, Reach(msg)
    {
      if connected && msg.data != null && !msg.data.flushed && msg.Valid() then
        [Msg(msg.level, Ended(msg.Text(), msg.level, trace))]
      else
        []
    }

    /** What the destructor of `msg` hands to the logger, as its writers have left it: its level and text, if it
        owns unflushed data and the logger is set. */
    ghost function Leaving(msg: LogMessage): seq<Msg>
      reads `connected, Reach(msg)
    {
      if connected && msg.data != null && !msg.data.flushed && msg.Valid() then
        [Msg(msg.level, msg.Text())]
      else
        []
    }

    /** The protocol follows a destructor that has handed over `m` as m'. */
    ghost method AdvanceLeaving(l: MP.Label, t: MP.State, pointers: Pointers, infos: seq<Info>, logged: seq<Msg>,
                                m: Msg, m': Msg)
      requires Reaches(MP.Next, MP.INIT, state) && MP.Next(state, l) == Some(t) && Distinct() && Separate()
      requires Owned() == pointers && Infos() == infos && logger.logged == logged + [m']
      requires In(t, connected, pointers, datas, infos, start, logged + [m'])
      requires LoggedEnds(logged, start, left) && Ends(m, m')
      modifies `state, `left
      ensures Valid() && MP.Next(old(state), l) == Some(state) && left == old(left) + [m] && Owned() == pointers
      ensures old(logger.Valid()) ==> logger.Valid()
    {
      left := left + [m];
      Advance(l, t, pointers, infos, logged + [m']);
    }

    /** The destructor of object o.  If its data is handed over, the logger keeps it in object `slot`. */
    method Destroy(o: nat, slot: nat, trace: seq<char>)
      requires Valid() && o in objects && slot !in objects && logger.Valid() && !logger.stop
      modifies this, Reach(objects[o]), logger
      ensures Valid() && MP.Next(old(state), MP.Destroy(o, slot)) == Some(state)
      ensures left == old(left + Leaving(objects[o]))
      ensures Owned() == if old(Leaving(objects[o])) != [] then old((Owned() - {o})[slot := Owned()[o]])
                         else old(Owned() - {o})
      ensures Added(old(logger.logged), logger.logged, old(Leaving(objects[o])), trace)
      ensures logger.Valid() && !logger.stop
    {
      ObjectValid(o);
      if connected && objects[o].data != null && !objects[o].data.flushed {
        ghost var m := DestroyHanding(o, slot, trace);
      } else {
        DestroyDropping(o, slot, trace);
      }
    }

    /** Message m is handed over as m'. */
    lemma Handing(o: nat, slot: nat, trace: seq<char>) returns (m: Msg, m': Msg)
      requires Valid() && o in objects && slot !in objects && MP.Unflushed(state, o) && connected
      ensures Leaving(objects[o]) == [m] && Last(objects[o], trace) == [m']
      ensures Completes(m, trace, m') && Ends(m, m')
      ensures
        var pointers: Pointers, d := Owned(), state.objects[o].value;
        var rest: Pointers := pointers - {o};
        && Holds(objects[o], d) && objects[o].Valid()
        && In(MP.Next(state, MP.Destroy(o, slot)).value, connected, rest[slot := pointers[o]], datas,
              Infos()[d := Info(true, true, m'.text)], start, logger.logged + [m'])
    {
      ObjectValid(o);
      MP.ReachableInv(state);
      m, m' := Leaving(objects[o])[0], Last(objects[o], trace)[0];
      EndsComplete(objects[o].level, objects[o].Text(), trace);
      HandIn(state, Owned(), datas, Infos(), start, logger.logged, o, slot, m');
    }

    method DestroyHanding(o: nat, slot: nat, trace: seq<char>) returns (ghost m: Msg)
      requires Valid() && o in objects && slot !in objects && logger.Valid() && !logger.stop
      requires MP.Unflushed(state, o) && connected
      modifies this, Reach(objects[o]), logger
      ensures Valid() && MP.Next(old(state), MP.Destroy(o, slot)) == Some(state)
      ensures old(Leaving(objects[o])) == [m] && Added(old(logger.logged), logger.logged, [m], trace)
      ensures Owned() == old((Owned() - {o})[slot := Owned()[o]])
      ensures left == old(left) + [m] && logger.Valid() && !logger.stop
    {
      ghost var next, pointers: Pointers := MP.Next(state, MP.Destroy(o, slot)).value, Owned();
      ghost var rest: Pointers := pointers - {o};
      ghost var d, infos := state.objects[o].value, Infos();
      ghost var m';
      m, m' := Handing(o, slot, trace);
      ghost var logged := logger.logged;
      HandAway(o, slot, trace, d, m');
      AdvanceLeaving(MP.Destroy(o, slot), next, rest[slot := pointers[o]], infos[d := Info(true, true, m'.text)],
                     logged, m, m');
    }

    method DestroyDropping(o: nat, ghost slot: nat, trace: seq<char>)
      requires Valid() && o in objects && slot !in objects && logger.Valid() && !logger.stop
      requires !(MP.Unflushed(state, o) && connected)
      modifies `objects, `state, Reach(objects[o]), logger
      ensures Valid() && MP.Next(old(state), MP.Destroy(o, slot)) == Some(state)
      ensures unchanged(logger) && logger.Valid() && Owned() == old(Owned() - {o})
    {
      ObjectValid(o);
      MP.ReachableInv(state);
      ghost var next, pointers: Pointers := MP.Next(state, MP.Destroy(o, slot)).value, Owned();
      ghost var rest: Pointers := pointers - {o};
      ghost var infos, logged := Infos(), logger.logged;
      ghost var text := DropAway(o, trace, if objects[o].data == null then 0 else state.objects[o].value);
      DropIn(state, connected, pointers, datas, infos, Infos(), start, logged, o, slot);
      Advance(MP.Destroy(o, slot), next, rest, Infos(), logged);
    }

    /** Where it hands over its data, number d. */
    method HandAway(o: nat, slot: nat, trace: seq<char>, ghost d: MP.Data, ghost m: Msg)
      requires Distinct() && o in objects && slot !in objects && objects[o].Valid() && Separate()
      requires Holds(objects[o], d) && Last(objects[o], trace) == [m]
      requires logger.Valid() && !logger.stop
      modifies `objects, Reach(objects[o]), logger
      ensures Owned() == (old(Owned()) - {o})[slot := old(Owned()[o])] && Distinct() && Separate()
      ensures state == old(state) && left == old(left) && datas == old(datas) && connected == old(connected)
      ensures Infos() == old(Infos())[d := Info(true, true, m.text)]
      ensures logger.Valid() && !logger.stop && logger.logged == old(logger.logged) + [m]
    {
      var msg := objects[o];
      assert Owned()[o] == msg.data;
      RemoveObject(o);
      var kept := HandOver(msg, trace, d, m);
      AddObject(slot, kept);
    }

    /** Where it does not, because the data has been flushed or moved from, or nobody listens. */
    method DropAway(o: nat, trace: seq<char>, ghost d: MP.Data) returns (ghost text: seq<char>)
      requires Distinct() && o in objects && objects[o].Valid() && Separate()
      requires objects[o].data != null ==> Holds(objects[o], d) && (objects[o].data.flushed || !connected)
      requires logger.Valid() && !logger.stop
      modifies `objects, Reach(objects[o]), logger
      ensures Owned() == old(Owned()) - {o} && Distinct()
      ensures Infos() == if old(objects[o].data == null || objects[o].data.flushed) then old(Infos())
                         else old(Infos())[d := Info(true, false, text)]
      ensures unchanged(logger) && logger.Valid()
    {
      var msg := objects[o];
      RemoveObject(o);
      text := [];
      if msg.data == null || msg.data.flushed {
        DropFlushed(msg, trace, d, if connected then logger else null);
      } else {
        DropUnheard(msg, trace, d);
        text := Infos()[d].text;
      }
    }

    method RemoveObject(o: nat)
      requires Distinct() && o in objects
      modifies `objects
      ensures Distinct() && objects == old(objects) - {o} && Owned() == old(Owned()) - {o}
      ensures old(objects[o]) !in objects.Values
      ensures old(logger.Valid()) ==> logger.Valid()
    {
      objects := objects - {o};
    }

    method HandOver(msg: LogMessage, trace: seq<char>, ghost d: MP.Data, ghost m: Msg) returns (kept: LogMessage)
      requires msg.Valid() && Separate() && logger.Valid() && !logger.stop && msg !in objects.Values
      requires Holds(msg, d) && Last(msg, trace) == [m]
      modifies Reach(msg), logger
      ensures fresh(kept) && kept.data == old(msg.data) && Owned() == old(Owned())
      ensures Infos() == old(Infos())[d := Info(true, true, m.text)]
      ensures logger.Valid() && !logger.stop && logger.logged == old(logger.logged) + [m]
    {
      kept := msg.Destroy(logger, trace);
    }

    method DropFlushed(msg: LogMessage, trace: seq<char>, ghost d: MP.Data, to: Logger?)
      requires msg.Valid() && Separate() && logger.Valid() && !logger.stop && msg !in objects.Values
      requires (msg.data != null ==> Holds(msg, d) && msg.data.flushed) && (to == null || to == logger)
      modifies Reach(msg), logger
      ensures unchanged(logger) && logger.Valid() && Owned() == old(Owned()) && Infos() == old(Infos())
    {
      FinishFlushed(msg, trace, d, to);
    }

    method DropUnheard(msg: LogMessage, trace: seq<char>, ghost d: MP.Data)
      requires msg.Valid() && Separate() && logger.Valid() && msg !in objects.Values
      requires Holds(msg, d) && !msg.data.flushed
      modifies Reach(msg)
      ensures logger.Valid() && Owned() == old(Owned())
      ensures Infos() == old(Infos())[d := Info(true, false, Infos()[d].text)]
    {
      FinishUnheard(msg, trace, d);
    }

    /** The destructor for flushed data or none, whoever listens. */
    method FinishFlushed(msg: LogMessage, trace: seq<char>, ghost d: MP.Data, to: Logger?)
      requires msg.Valid() && Separate() && (to != null ==> to.Valid() && !to.stop) && msg !in objects.Values
      requires msg.data != null ==> Holds(msg, d) && msg.data.flushed
      modifies Reach(msg), if to == null then {} else {to}
      ensures (to != null ==> unchanged(to)) && Owned() == old(Owned()) && Infos() == old(Infos())
    {
      var kept := msg.Destroy(to, trace);
    }

    /** And for unflushed data nobody listens to. */
    method FinishUnheard(msg: LogMessage, trace: seq<char>, ghost d: MP.Data)
      requires msg.Valid() && Separate() && msg !in objects.Values && Holds(msg, d) && !msg.data.flushed
      modifies Reach(msg)
      ensures Owned() == old(Owned()) && Infos() == old(Infos())[d := Info(true, false, Infos()[d].text)]
    {
      var kept := msg.Destroy(null, trace);
    }
  }

  /** The texts of the data handed over, in order. */
  ghost function HandedTexts(infos: seq<Info>, handed: seq<MP.Data>): seq<seq<char>>
    requires forall i :: 0 <= i < |handed| ==> handed[i] < |infos|
  {
    seq(|handed|, i requires 0 <= i < |handed| => infos[handed[i]].text)
  }

  /** The messages, a line each. */
  ghost function Lines(left: seq<Msg>): seq<seq<char>> {
    seq(|left|, i requires 0 <= i < |left| => left[i].text + "\n")
  }

  lemma HandedLines(logged: seq<Msg>, handed: seq<MP.Data>, infos: seq<Info>, left: seq<Msg>)
    requires LoggedAs(logged, [], handed, infos) && LoggedEnds(logged, [], left)
    ensures Texts(logged) == HandedTexts(infos, handed) && |left| == |handed|
    ensures forall i :: 0 <= i < |left| && |left[i].text| < 2998 ==>
              && left[i].text + "\n" <= HandedTexts(infos, handed)[i]
              && (left[i].level != FATAL ==> HandedTexts(infos, handed)[i] == left[i].text + "\n")
    ensures (forall m :: m in left ==> m.level != FATAL && |m.text| < 2998) ==>
              HandedTexts(infos, handed) == Lines(left)
  {
    forall i | 0 <= i < |left| ensures Ends(left[i], logged[i]) && HandedTexts(infos, handed)[i] == logged[i].text {
      assert Ends(left[i], logged[0 + i]);
    }
  }

  /** From the objects to the files: where the flush thread waits with nothing buffered, the files of each sink
      hold the texts of all messages handed over, one after the other, in order, and none twice; each ends its
      line unless it had no room for that, so that below FATAL, and with room, the files are the messages as
      their writers left them, a line each. */
  lemma FilesHoldHanded(owners: Owners, j: nat)
    requires owners.Valid() && owners.start == [] && owners.logger.Valid() && j < |owners.logger.dests|
    requires owners.logger.flusher.Waiting? && owners.logger.buf == []
    ensures forall i :: 0 <= i < |owners.state.handed| ==> owners.state.handed[i] < |owners.Infos()|
    ensures
      var file := owners.logger.dests[j];
      Concat(file.closed + [file.current]) == Concat(HandedTexts(owners.Infos(), owners.state.handed))
    ensures forall i, k :: 0 <= i < k < |owners.state.handed| ==> owners.state.handed[i] != owners.state.handed[k]
    ensures
      var texts := HandedTexts(owners.Infos(), owners.state.handed);
      && |owners.left| == |texts|
      && forall i :: 0 <= i < |texts| && |owners.left[i].text| < 2998 ==>
           && owners.left[i].text + "\n" <= texts[i]
           && (owners.left[i].level != FATAL ==> texts[i] == owners.left[i].text + "\n")
    ensures
      var file := owners.logger.dests[j];
      (forall m :: m in owners.left ==> m.level != FATAL && |m.text| < 2998) ==>
        Concat(file.closed + [file.current]) == Concat(Lines(owners.left))
  {
    MP.HandedOnce(owners.state);
    FilesComplete(owners.logger, j);
    HandedLines(owners.logger.logged, owners.state.handed, owners.Infos(), owners.left);
  }
}
