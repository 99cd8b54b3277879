/** Ownership of log messages: each message's data is created with one object, moves between objects, and
    is handed to the logger when an object that owns it is destroyed and it has not been handed over yet.
    Objects are numbered; so is data, in the order of creation. */
module MessageProtocol {
  import opened Runs

  type Data = nat

  datatype State = State(
    connected: bool,                  // _sendto is set
    objects: map<nat, Option<Data>>,  // live LogMessage objects and the data they own
    created: nat,
    flushed: set<Data>,               // _has_been_flushed
    handed: seq<Data>                 // history: passed to the logger
  )

  datatype Label =
    | Connect
    | Create(o: nat)
    | Move(from: nat, to: nat)       // move constructor
    | Assign(from: nat, to: nat)     // move assignment
    | Destroy(o: nat, slot: nat)     // destructor; slot is the logger's own object, if it needs one

  const INIT := State(false, map[], 0, {}, [])

  predicate Owns(s: State, o: nat, d: Data) {
    o in s.objects && s.objects[o] == Some(d)
  }

  /** The object owns data that has not been handed over. */
  predicate Unflushed(s: State, o: nat) {
    o in s.objects && s.objects[o].Some? && s.objects[o].value !in s.flushed
  }

  function Next(s: State, l: Label): Option<State> {
    match l
    case Connect => Some(s.(connected := true))
    case Create(o) =>
      if o !in s.objects then Some(s.(objects := s.objects[o := Some(s.created)], created := s.created + 1)) else None
    case Move(from, to) =>
      if from in s.objects && to !in s.objects then
        Some(s.(objects := s.objects[to := s.objects[from]][from := None]))
      else None
    case Assign(from, to) =>
      if from !in s.objects || to !in s.objects then None
      else if from == to then Some(s)
      else
        Some(s.(objects := s.objects[to := s.objects[from]][from := None]))
    case Destroy(o, slot) =>
      if o !in s.objects || slot in s.objects then None
      else if Unflushed(s, o) && s.connected then
        var d := s.objects[o].value;
        Some(s.(objects := (s.objects - {o})[slot := Some(d)], flushed := s.flushed + {d}, handed := s.handed + [d]))
      else Some(s.(objects := s.objects - {o}))
  }

  ghost predicate Owned(s: State, d: Data) {
    exists o :: Owns(s, o, d)
  }

  /** No data has more than one owner, and what was handed over is marked and was so once. */
  ghost predicate Inv(s: State) {
    && (forall o, d: Data :: Owns(s, o, d) ==> d < s.created)
    && (forall o, p, d: Data :: Owns(s, o, d) && Owns(s, p, d) ==> o == p)
    && (forall d :: d in s.flushed <==> d in s.handed)
    && (forall d :: d in s.handed ==> d < s.created)
    && (forall i, j :: 0 <= i < j < |s.handed| ==> s.handed[i] != s.handed[j])
  }

  /** Where the owner after a step comes from. */
  lemma OwnerStep(s: State, l: Label, o: nat, d: Data)
    requires Next(s, l).Some? && Owns(Next(s, l).value, o, d)
    ensures match l
            case Create(p) => if o == p then d == s.created else Owns(s, o, d)
            case Move(from, to) => (o == to && Owns(s, from, d)) || (o != to && o != from && Owns(s, o, d))
            case Assign(from, to) =>
              if from == to then Owns(s, o, d)
              else (o == to && Owns(s, from, d)) || (o != to && o != from && Owns(s, o, d))
            case Destroy(p, slot) =>
              (o == slot && Owns(s, p, d) && s.connected) || (o != p && o != slot && Owns(s, o, d))
            case Connect => Owns(s, o, d)
  {
  }

  lemma OneOwnerStep(s: State, l: Label, o: nat, p: nat, d: Data)
    requires Inv(s) && Next(s, l).Some? && Owns(Next(s, l).value, o, d) && Owns(Next(s, l).value, p, d)
    ensures d < Next(s, l).value.created && o == p
  {
    OwnerStep(s, l, o, d);
    OwnerStep(s, l, p, d);
  }

  lemma InvStep(s: State, l: Label)
    requires Inv(s) && Next(s, l).Some?
    ensures Inv(Next(s, l).value)
  {
    var t := Next(s, l).value;
    forall o, p, d: Data | Owns(t, o, d) && Owns(t, p, d) ensures d < t.created && o == p {
      OneOwnerStep(s, l, o, p, d);
    }
    assert l.Destroy? && Unflushed(s, l.o) ==> Owns(s, l.o, s.objects[l.o].value);
  }

  lemma ReachableInv(s: State)
    requires Reaches(Next, INIT, s)
    ensures Inv(s)
  {
    forall t, l | Inv(t) && Next(t, l).Some? ensures Inv(Next(t, l).value) {
      InvStep(t, l);
    }
    ReachesKeeps(Next, Inv, INIT, s);
  }

  /** However objects are moved and destroyed, no message reaches the logger twice, no message has two
      owners, and one is marked as flushed exactly if it has reached the logger. */
  lemma HandedOnce(s: State)
    requires Reaches(Next, INIT, s)
    ensures forall i, j :: 0 <= i < j < |s.handed| ==> s.handed[i] != s.handed[j]
    ensures forall o, p, d: Data :: Owns(s, o, d) && Owns(s, p, d) ==> o == p
    ensures forall d :: d in s.flushed <==> d in s.handed
  {
    ReachableInv(s);
  }

  // ---------------------------------------------------------------- lost messages

  /** The message exists, has not reached the logger, and nobody owns it any more. */
  ghost predicate Lost(s: State, d: Data) {
    d < s.created && d !in s.handed && !Owned(s, d)
  }

  /** The step destroys the owner of d before the logger is connected, or move-assigns over it, while d has
      not been handed over. */
  predicate Loses(s: State, l: Label, d: Data) {
    d !in s.flushed
    && match l
       case Destroy(o, _) => Owns(s, o, d) && !s.connected
       case Assign(from, to) => Owns(s, to, d) && from != to
       case _ => false
  }

  function Losing(d: Data): (State, Label) -> bool {
    (s, l) => Loses(s, l, d)
  }

  /** A step that does not lose an owned message leaves it with an owner. */
  lemma KeptStep(s: State, l: Label, o: nat, d: Data)
    requires Next(s, l).Some? && Owns(s, o, d) && d !in s.flushed && !Loses(s, l, d)
    ensures var t := Next(s, l).value; Owned(t, d)
  {
    var t := Next(s, l).value;
    match l
    case Move(from, to) => assert o == from ==> Owns(t, to, d); assert o != from ==> Owns(t, o, d);
    case Assign(from, to) => assert o == from ==> Owns(t, to, d); assert o != from ==> Owns(t, o, d);
    case Destroy(p, slot) => assert o == p ==> Owns(t, slot, d); assert o != p ==> Owns(t, o, d);
    case _ => assert Owns(t, o, d);
  }

  lemma LostStep(s: State, l: Label, d: Data)
    requires Inv(s) && Next(s, l).Some?
    ensures Lost(Next(s, l).value, d) <==> Lost(s, d) || Loses(s, l, d)
  {
    var t := Next(s, l).value;
    forall o | Owns(t, o, d) ensures !Loses(s, l, d) && !Lost(s, d) {
      OwnerStep(s, l, o, d);
    }
    assert l.Destroy? && Unflushed(s, l.o) ==> Owns(s, l.o, s.objects[l.o].value);
    if o :| Owns(s, o, d) {
      if d !in s.flushed && !Loses(s, l, d) {
        KeptStep(s, l, o, d);
      }
    } else if d == s.created && l.Create? {
      assert Owns(t, l.o, d);
    }
  }

  /** Once no object owns an unflushed message, every message has reached the logger or is lost. */
  lemma HandedOrLost(s: State, d: Data)
    requires Reaches(Next, INIT, s) && d < s.created && forall o :: !Unflushed(s, o)
    ensures d in s.handed <==> !Lost(s, d)
  {
    ReachableInv(s);
    if o :| Owns(s, o, d) {
      assert !Unflushed(s, o);
    }
  }

  /** Over a whole run, a message is lost at the end exactly if some step destroyed its owner before the
      logger was connected, or move-assigned over its owner, before it was handed over. */
  lemma {:induction false} LostIff(ls: seq<Label>, s: State, d: Data)
    requires Run(Next, INIT, ls) == Some(s)
    ensures Lost(s, d) <==> exists i :: HappensAt(Next, Losing(d), INIT, ls, i)
  {
    var kept := (t: State) => !Lost(t, d);
    forall t, l | Inv(t) && Next(t, l).Some?
      ensures Inv(Next(t, l).value) && (kept(Next(t, l).value) <==> kept(t) && !Losing(d)(t, l))
    {
      InvStep(t, l);
      LostStep(t, l, d);
    }
    RunUnspoilt(Next, Inv, kept, Losing(d), INIT, ls);
  }
}
