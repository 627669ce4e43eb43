/**
 The lifecycle of a router, its transports, and their producers, consumers, data
 producers and data consumers. Closing one object fires signals that are handled
 synchronously, so that closing cascades; every public method below is one
 external event with all the signals it sets off. Objects are numbered in order
 of creation and stay in the tables after they are closed. A controller map is the
 set of the objects it holds, looked up and erased by id.
 */
module Controllers {

  datatype Kind = Producer | Consumer | DataProducer | DataConsumer

  datatype Member = Member(kind: Kind, id: string, owner: nat, closed: bool, closeSignals: nat)

  /** `held` is the content of the transport's four controller maps. */
  datatype Transport = Transport(closed: bool, held: set<nat>, closeSignals: nat)

  function Closed(m: Member): Member {
    m.(closed := true, closeSignals := m.closeSignals + 1)
  }

  /** The table after the open members in `which` have been closed, each with one signal. */
  function CloseAll(members: seq<Member>, which: set<nat>): seq<Member> {
    seq(|members|, i requires 0 <= i < |members| =>
      if i in which && !members[i].closed then Closed(members[i]) else members[i])
  }

  /** What a table of members can become: members are added, and open ones closed with one signal. */
  ghost predicate Later(before: seq<Member>, after: seq<Member>) {
    |after| >= |before| && forall o :: 0 <= o < |before| ==>
      after[o] == before[o] || (!before[o].closed && after[o] == Closed(before[o]))
  }

  lemma LaterStep(first: seq<Member>, second: seq<Member>, third: seq<Member>)
    requires Later(first, second) && Later(second, third)
    ensures Later(first, third)
  {
  }

  function CloseEvery(members: seq<Member>): seq<Member> {
    seq(|members|, i requires 0 <= i < |members| => if members[i].closed then members[i] else Closed(members[i]))
  }

  predicate IsOpen(members: seq<Member>, o: int) {
    0 <= o < |members| && !members[o].closed
  }

  /** The open members of one transport. */
  function OpenOn(members: seq<Member>, t: nat): set<nat> {
    set o | 0 <= o < |members| && !members[o].closed && members[o].owner == t
  }

  /** The open members of one kind, on any transport. */
  function OpenOfKind(members: seq<Member>, kind: Kind): set<nat> {
    set o | 0 <= o < |members| && !members[o].closed && members[o].kind == kind
  }

  predicate HasKey(members: seq<Member>, o: nat, kind: Kind, id: string) {
    o < |members| && members[o].kind == kind && members[o].id == id
  }

  predicate Contains(members: seq<Member>, held: set<nat>, kind: Kind, id: string) {
    exists o :: o in held && HasKey(members, o, kind, id)
  }

  function Erase(members: seq<Member>, held: set<nat>, kind: Kind, id: string): set<nat> {
    set o | o in held && !HasKey(members, o, kind, id)
  }

  /** The kinds whose members the router keeps in maps of its own. */
  predicate IsPublished(kind: Kind) {
    kind == Producer || kind == DataProducer
  }

  predicate SameKey(a: Member, b: Member) {
    a.kind == b.kind && a.id == b.id && (a.owner == b.owner || IsPublished(a.kind))
  }

  /** Ids identify open members: published ones on the whole router, the others on their transport. */
  ghost predicate IdsOk(members: seq<Member>) {
    forall a, b :: IsOpen(members, a) && IsOpen(members, b) && SameKey(members[a], members[b]) ==> a == b
  }

  /** Every member has fired its close signal once if it is closed, and never if it is open. */
  ghost predicate MembersOk(members: seq<Member>, transports: seq<Transport>) {
    && (forall o :: 0 <= o < |members| ==>
          members[o].owner < |transports| && members[o].closeSignals == if members[o].closed then 1 else 0)
    && IdsOk(members)
  }

  /** Each transport holds exactly its open members. */
  ghost predicate HeldOk(members: seq<Member>, transports: seq<Transport>) {
    forall t :: 0 <= t < |transports| ==> transports[t].held == OpenOn(members, t)
  }

  /** Open transports are the registered ones, and a closed transport has no open member. */
  ghost predicate TransportsOk(members: seq<Member>, transports: seq<Transport>, registered: set<nat>) {
    && (forall t :: 0 <= t < |transports| ==>
          && transports[t].closeSignals == (if transports[t].closed then 1 else 0)
          && (transports[t].closed ==> transports[t].held == {}))
    && registered == (set t | 0 <= t < |transports| && !transports[t].closed)
  }

  /** The same transports with their maps brought up to date with the member table. */
  function Refresh(transports: seq<Transport>, members: seq<Member>): seq<Transport> {
    seq(|transports|, t requires 0 <= t < |transports| => transports[t].(held := OpenOn(members, t)))
  }

  lemma CloseAllOpen(members: seq<Member>, which: set<nat>, t: nat, kind: Kind)
    ensures OpenOn(CloseAll(members, which), t) == OpenOn(members, t) - which
    ensures OpenOfKind(CloseAll(members, which), kind) == OpenOfKind(members, kind) - which
  {
  }

  lemma CloseAllKeepsOk(members: seq<Member>, transports: seq<Transport>, which: set<nat>)
    requires MembersOk(members, transports)
    ensures MembersOk(CloseAll(members, which), transports)
  {
    var after := CloseAll(members, which);
    forall a, b | IsOpen(after, a) && IsOpen(after, b) && SameKey(after[a], after[b]) ensures a == b {
      assert IsOpen(members, a) && IsOpen(members, b) && SameKey(members[a], members[b]);
    }
  }

  lemma CloseAllTwice(members: seq<Member>, a: set<nat>, b: set<nat>)
    ensures CloseAll(CloseAll(members, a), b) == CloseAll(members, a + b)
  {
  }

  lemma SetsStep(all: set<nat>, todo: set<nat>, o: nat)
    requires o in todo && todo <= all
    ensures (all - todo) + {o} == all - (todo - {o})
  {
  }

  lemma SetsDone(all: set<nat>)
    ensures all - {} == all && all - all == {}
  {
  }

  lemma CloseNone(members: seq<Member>, transports: seq<Transport>)
    requires HeldOk(members, transports)
    ensures CloseAll(members, {}) == members && Refresh(transports, members) == transports
  {
  }

  lemma StillOpen(members: seq<Member>, which: set<nat>, o: nat)
    requires IsOpen(members, o) && o !in which
    ensures IsOpen(CloseAll(members, which), o)
  {
  }

  lemma RefreshTwice(transports: seq<Transport>, before: seq<Member>, members: seq<Member>)
    ensures Refresh(Refresh(transports, before), members) == Refresh(transports, members)
  {
  }

  /** Erasing an open member's id from the map that holds it removes that member only. */
  lemma EraseOne(members: seq<Member>, held: set<nat>, o: nat)
    requires IdsOk(members) && IsOpen(members, o) && o in held
    requires forall x :: x in held ==>
      IsOpen(members, x) && (members[x].owner == members[o].owner || IsPublished(members[o].kind))
    ensures Erase(CloseAll(members, {o}), held, members[o].kind, members[o].id) == held - {o}
  {
    var after := CloseAll(members, {o});
    forall x | x in held ensures HasKey(after, x, members[o].kind, members[o].id) <==> x == o {
      if HasKey(after, x, members[o].kind, members[o].id) {
        assert SameKey(members[x], members[o]);
      }
    }
  }

  function OfKind(members: seq<Member>, held: set<nat>, kind: Kind): set<nat> {
    set o | o in held && o < |members| && members[o].kind == kind
  }

  /** The external events. */
  datatype Event =
    | NewTransport
    | NewMember(t: nat, kind: Kind, id: string)
    | EndOfTransport(t: nat, byItself: bool)
    | EndOfMember(o: nat)
    | EndOfRouter

  /** What the events are about: whether the router is closed, its members, and which transports have ended. */
  datatype Tree = Tree(closed: bool, members: seq<Member>, ended: seq<bool>)

  /** One external event with everything it sets off; an event about what does not exist changes nothing. */
  function Next(s: Tree, e: Event): Tree {
    match e
    case NewTransport => if s.closed then s else s.(ended := s.ended + [false])
    case NewMember(t, kind, id) =>
      if t < |s.ended| && !s.ended[t] && !KeyInUse(s.members, t, kind, id)
      then s.(members := s.members + [Member(kind, id, t, false, 0)]) else s
    case EndOfTransport(t, _) =>
      if t < |s.ended| then s.(members := CloseAll(s.members, OpenOn(s.members, t)), ended := s.ended[t := true]) else s
    case EndOfMember(o) =>
      if o < |s.members| then s.(members := CloseAll(s.members, {o})) else s
    case EndOfRouter =>
      if s.closed then s
      else Tree(true, CloseEvery(s.members), seq(|s.ended|, _ => true))
  }

  function Run(s: Tree, events: seq<Event>): Tree
    decreases |events|
  {
    if events == [] then s else Next(Run(s, events[..|events| - 1]), events[|events| - 1])
  }

  /** On a closed router everything has ended, and members belong to transports that exist. */
  ghost predicate TreeOk(s: Tree) {
    && (forall o :: 0 <= o < |s.members| ==> s.members[o].owner < |s.ended|)
    && (s.closed ==> forall o :: 0 <= o < |s.members| ==> s.members[o].closed)
    && (s.closed ==> forall t :: 0 <= t < |s.ended| ==> s.ended[t])
  }

  /** Whether an event is the end of member `o`: its own, its transport's, or the router's. */
  predicate EndsMember(e: Event, o: nat, owner: nat) {
    e == EndOfMember(o) || (e.EndOfTransport? && e.t == owner) || e == EndOfRouter
  }

  /** What one event does to a member that exists: it closes it, with one signal, if it is its end. */
  lemma MemberEffect(s: Tree, e: Event, o: nat)
    requires TreeOk(s) && o < |s.members|
    ensures TreeOk(Next(s, e)) && |Next(s, e).members| >= |s.members|
    ensures Next(s, e).members[o]
         == if EndsMember(e, o, s.members[o].owner) && !s.members[o].closed
            then s.members[o].(closed := true, closeSignals := s.members[o].closeSignals + 1) else s.members[o]
  {
  }

  /** What one event adds: a member exactly on an open transport under an unused key, a transport on an open router. */
  lemma CreationEffect(s: Tree, e: Event)
    requires TreeOk(s)
    ensures TreeOk(Next(s, e))
    ensures var added := e.NewMember? && e.t < |s.ended| && !s.ended[e.t] && !KeyInUse(s.members, e.t, e.kind, e.id);
      && |Next(s, e).members| == |s.members| + (if added then 1 else 0)
      && (added ==> Next(s, e).members[|s.members|] == Member(e.kind, e.id, e.t, false, 0))
    ensures |Next(s, e).ended| == |s.ended| + if e.NewTransport? && !s.closed then 1 else 0
    ensures forall t :: 0 <= t < |Next(s, e).ended| ==>
      (Next(s, e).ended[t] <==> t < |s.ended| && (s.ended[t] || (e.EndOfTransport? && e.t == t) || e.EndOfRouter?))
    ensures Next(s, e).closed <==> s.closed || e.EndOfRouter?
    ensures (e.NewMember? && e.t < |s.ended| && !s.ended[e.t]
             && forall m :: m in s.members ==> m.closed || m.id != e.id)
      ==> |Next(s, e).members| > |s.members|
  {
  }

  /**
   Over every run, a member is closed after it exactly if it was closed before or some
   event was its end: its own, its transport's, or the router's.
   */
  lemma {:induction false} ClosedTellsTheEvents(s: Tree, events: seq<Event>, o: nat)
    requires TreeOk(s) && o < |s.members|
    ensures TreeOk(Run(s, events)) && |Run(s, events).members| >= |s.members|
    ensures Run(s, events).members[o].owner == s.members[o].owner
    ensures Run(s, events).members[o].closed
       <==> s.members[o].closed || exists i :: 0 <= i < |events| && EndsMember(events[i], o, s.members[o].owner)
    decreases |events|
  {
    if events != [] {
      var front, e := events[..|events| - 1], events[|events| - 1];
      ClosedTellsTheEvents(s, front, o);
      MemberEffect(Run(s, front), e, o);
      assert forall i :: 0 <= i < |front| ==> events[i] == front[i];
    }
  }

  /** Once the router's end is among the events, the router is closed and nothing on it is open. */
  lemma {:induction false} EndOfRouterEndsAll(s: Tree, events: seq<Event>)
    requires TreeOk(s)
    ensures TreeOk(Run(s, events)) && (Run(s, events).closed <==> s.closed || EndOfRouter in events)
    ensures EndOfRouter in events ==> forall o :: 0 <= o < |Run(s, events).members| ==> Run(s, events).members[o].closed
    decreases |events|
  {
    if events != [] {
      var front, e := events[..|events| - 1], events[|events| - 1];
      assert events == front + [e];
      EndOfRouterEndsAll(s, front);
      CreationEffect(Run(s, front), e);
    }
  }

  class RouterController {
    var closed: bool
    var closeSignals: nat
    var members: seq<Member>
    var transports: seq<Transport>
    /** The router's own maps. */
    var registered: set<nat>
    var producers: set<nat>
    var dataProducers: set<nat>

    /** What holds between any two signals: maps and member table agree. */
    ghost predicate Core()
      reads this
    {
      && MembersOk(members, transports) && HeldOk(members, transports)
      && producers == OpenOfKind(members, Producer) && dataProducers == OpenOfKind(members, DataProducer)
    }

    ghost function View(): Tree
      reads this
    {
      Tree(closed, members, seq(|transports|, t reads this requires 0 <= t < |transports| => transports[t].closed))
    }

    /** What holds between any two external events. */
    ghost predicate Valid()
      reads this
    {
      && Core() && TransportsOk(members, transports, registered)
      && closeSignals == (if closed then 1 else 0)
      && (closed ==> registered == {})
    }

    constructor ()
      ensures Valid() && !closed && members == [] && transports == []
    {
      closed, closeSignals, members, transports := false, 0, [], [];
      registered, producers, dataProducers := {}, {}, {};
    }

    /** The worker refuses to create a transport on a closed router. */
    method CreateTransport() returns (created: bool)
      requires Valid()
      modifies this
      ensures Valid() && created == !old(closed) && closed == old(closed) && members == old(members)
      ensures transports == if created then old(transports) + [Transport(false, {}, 0)] else old(transports)
    {
      created := !closed;
      if created {
        registered := registered + {|transports|};
        transports := transports + [Transport(false, {}, 0)];
      }
    }

    /**
     The transport's handler of a member's close signal, and for published kinds the
     router's handler of the signal it passes on.
     */
    method OnMemberClosed(o: nat)
      requires o < |members| && members[o].owner < |transports|
      modifies this`transports, this`producers, this`dataProducers
      ensures var m := members[o];
        if !Contains(members, old(transports[m.owner].held), m.kind, m.id)
        then transports == old(transports) && producers == old(producers) && dataProducers == old(dataProducers)
        else
          && transports == old(transports)[m.owner := old(transports[m.owner]).(
                held := Erase(members, old(transports[m.owner].held), m.kind, m.id))]
          && producers == (if m.kind == Producer then Erase(members, old(producers), m.kind, m.id) else old(producers))
          && dataProducers
              == (if m.kind == DataProducer then Erase(members, old(dataProducers), m.kind, m.id)
                  else old(dataProducers))
    {
      var m := members[o];
      var t := m.owner;
      if Contains(members, transports[t].held, m.kind, m.id) {
        OnPublishedClosed(o);
        transports := transports[t := transports[t].(held := Erase(members, transports[t].held, m.kind, m.id))];
      }
    }

    /** The router's handlers of a transport's producerCloseSignal and dataProducerCloseSignal. */
    method OnPublishedClosed(o: nat)
      requires o < |members|
      modifies this`producers, this`dataProducers
      ensures var m := members[o];
        && producers == (if m.kind == Producer then Erase(members, old(producers), m.kind, m.id) else old(producers))
        && dataProducers
              == (if m.kind == DataProducer then Erase(members, old(dataProducers), m.kind, m.id)
                  else old(dataProducers))
    {
      var m := members[o];
      if m.kind == Producer {
        producers := Erase(members, producers, m.kind, m.id);
      } else if m.kind == DataProducer {
        dataProducers := Erase(members, dataProducers, m.kind, m.id);
      }
    }

    /**
     Closing one member: by itself, because its transport closes, or because its
     producer has closed. A closed member does nothing.
     */
    method CloseMember(o: nat)
      requires Core() && o < |members|
      modifies this`members, this`transports, this`producers, this`dataProducers
      ensures Core() && members == CloseAll(old(members), {o}) && transports == Refresh(old(transports), members)
    {
      if members[o].closed {
        assert members == CloseAll(members, {o}) && transports == Refresh(transports, members);
        return;
      }
      var t := members[o].owner;
      assert o in transports[t].held;
      EraseOne(members, transports[t].held, o);
      if IsPublished(members[o].kind) {
        EraseOne(members, OpenOfKind(members, members[o].kind), o);
      }
      CloseAllKeepsOk(members, transports, {o});
      members := members[o := Closed(members[o])];
      assert members == CloseAll(old(members), {o});
      OnMemberClosed(o);
      forall s: nat, kind: Kind
        ensures OpenOn(members, s) == OpenOn(old(members), s) - {o}
        ensures OpenOfKind(members, kind) == OpenOfKind(old(members), kind) - {o}
      {
        CloseAllOpen(old(members), {o}, s, kind);
      }
      forall s: nat | s < |transports| ensures transports[s] == old(transports)[s].(held := OpenOn(members, s)) {
        assert s != t ==> OpenOn(old(members), s) - {o} == OpenOn(old(members), s);
      }
      assert transports == Refresh(old(transports), members);
    }

    /** Since a state with the tables `before` and `shape`, exactly the members in `done` have been closed. */
    ghost predicate Since(before: seq<Member>, shape: seq<Transport>, done: set<nat>)
      reads this
    {
      Core() && members == CloseAll(before, done) && transports == Refresh(shape, members)
    }

    /**
     A closing transport closes one of its members. When the transport itself is being
     closed, it also passes on the signal of a published member, which its handler has
     passed on already.
     */
    method OnTransportClosed(
      o: nat, passOn: bool, ghost before: seq<Member>, ghost shape: seq<Transport>, ghost done: set<nat>)
      requires Since(before, shape, done) && IsOpen(before, o) && o !in done
      modifies this`members, this`transports, this`producers, this`dataProducers
      ensures Since(before, shape, done + {o})
    {
      StillOpen(before, done, o);
      CloseAllTwice(before, done, {o});
      RefreshTwice(shape, members, CloseAll(members, {o}));
      CloseMember(o);
      if passOn {
        NothingLeftToErase(old(members), members, o);
        OnPublishedClosed(o);
      }
    }

    /** One loop of a closing transport: every member of one kind in a copy of its map is closed. */
    method CloseMembersOf(t: nat, kind: Kind, passOn: bool)
      requires Core() && t < |transports|
      modifies this`members, this`transports, this`producers, this`dataProducers
      ensures Since(old(members), old(transports), OfKind(old(members), OpenOn(old(members), t), kind))
    {
      var todo := OfKind(members, transports[t].held, kind);
      ghost var before, shape, all := members, transports, todo;
      CloseNone(members, transports);
      SetsDone(all);
      while todo != {}
        invariant Since(before, shape, all - todo) && todo <= all
        invariant forall o :: o in all ==> IsOpen(before, o)
        decreases |todo|
      {
        var o :| o in todo;
        SetsStep(all, todo, o);
        OnTransportClosed(o, passOn, before, shape, all - todo);
        todo := todo - {o};
      }
      SetsDone(all);
    }

    /** The four loops of a closing transport. */
    method CloseMembers(t: nat, passOn: bool)
      requires Core() && t < |transports|
      modifies this`members, this`transports, this`producers, this`dataProducers
      ensures Core() && members == CloseAll(old(members), OpenOn(old(members), t))
      ensures transports == Refresh(old(transports), members)
    {
      var kinds := [Producer, Consumer, DataProducer, DataConsumer];
      ghost var before, shape, gone := members, transports, {};
      CloseNone(members, transports);
      var i := 0;
      while i < 4
        invariant 0 <= i <= 4 && Core()
        invariant gone == (set o | o in OpenOn(before, t) && before[o].kind in kinds[..i])
        invariant members == CloseAll(before, gone) && transports == Refresh(shape, members)
      {
        ghost var next := OfKind(members, OpenOn(members, t), kinds[i]);
        CloseAllOpen(before, gone, t, kinds[i]);
        CloseAllTwice(before, gone, next);
        RefreshTwice(shape, members, CloseAll(members, next));
        CloseMembersOf(t, kinds[i], passOn);
        assert kinds[..i + 1] == kinds[..i] + [kinds[i]];
        gone := gone + next;
        i := i + 1;
      }
      forall o | o in OpenOn(before, t) ensures o in gone {
        assert kinds[..4] == kinds;
        EveryKind(before[o].kind, kinds);
      }
      assert gone == OpenOn(before, t);
    }

    /**
     The end of a transport: by its own close, or because its router or its WebRTC
     server has closed. Every open member on it is closed, with one signal each, and
     nothing else.
     */
    method CloseTransport(t: nat, byItself: bool)
      requires Core() && TransportsOk(members, transports, registered) && t < |transports|
      modifies this`members, this`transports, this`producers, this`dataProducers, this`registered
      ensures Core() && TransportsOk(members, transports, registered)
      ensures members == CloseAll(old(members), OpenOn(old(members), t))
      ensures transports
           == (if old(transports[t].closed) then old(transports) else old(transports)[t := Transport(true, {}, 1)])
      ensures registered == old(registered) - {t}
    {
      ghost var before, shape := members, transports;
      if transports[t].closed {
        CloseNone(members, transports);
        assert OpenOn(members, t) == {};
        return;
      }
      transports := transports[t := transports[t].(closed := true)];
      assert HeldOk(members, transports);
      CloseMembers(t, byItself);
      OthersUntouched(before, t);
      forall s: nat | s < |shape| ensures transports[s] == if s == t then Transport(true, {}, 0) else shape[s] {
        assert transports[s].held == OpenOn(members, s);
      }
      transports := transports[t := transports[t].(closeSignals := transports[t].closeSignals + 1)];
      registered := registered - {t};
      assert transports == shape[t := Transport(true, {}, 1)];
    }

    /** An application closes a transport, or the transport's WebRTC server closes. */
    method EndTransport(t: nat, byItself: bool)
      requires Valid() && t < |transports|
      modifies this`members, this`transports, this`producers, this`dataProducers, this`registered
      ensures Valid() && |transports| == |old(transports)| && transports[t].closed
      ensures members == CloseAll(old(members), OpenOn(old(members), t))
      ensures registered == old(registered) - {t}
      ensures forall s :: 0 <= s < |transports| && s != t ==> transports[s] == old(transports)[s]
    {
      CloseTransport(t, byItself);
    }

    /** An application closes a member, or the worker reports that a consumer's producer has closed. */
    method EndMember(o: nat)
      requires Valid() && o < |members|
      modifies this`members, this`transports, this`producers, this`dataProducers
      ensures Valid() && members == CloseAll(old(members), {o}) && members[o].closed
      ensures transports == Refresh(old(transports), members)
    {
      CloseMember(o);
    }

    /** Closing the router closes everything on it; every open object fires its close signal exactly once. */
    method Close()
      requires Valid()
      modifies this
      ensures Valid() && closed && closeSignals == 1
      ensures |members| == |old(members)| && |transports| == |old(transports)|
      ensures forall o :: 0 <= o < |members| ==>
        members[o] == if old(members)[o].closed then old(members)[o] else Closed(old(members)[o])
      ensures forall t :: 0 <= t < |transports| ==>
        transports[t].closed && transports[t].held == {} && transports[t].closeSignals == 1
      ensures registered == producers == dataProducers == {}
    {
      if closed {
        NothingOpen(members, transports, registered);
        return;
      }
      closed := true;
      ghost var before, gone := members, {};
      CloseNone(members, transports);
      var todo := registered;
      while todo != {}
        invariant Core() && TransportsOk(members, transports, registered) && todo == registered
        invariant members == CloseAll(before, gone) && |transports| == |old(transports)|
        invariant closed && closeSignals == 0
        decreases |todo|
      {
        var t :| t in todo;
        CloseAllTwice(before, gone, OpenOn(members, t));
        gone := gone + OpenOn(members, t);
        CloseTransport(t, false);
        todo := todo - {t};
      }
      NothingOpen(members, transports, registered);
      producers := {};
      dataProducers := {};
      closeSignals := closeSignals + 1;
    }

    /**
     Creating a producer, consumer, data producer or data consumer. The transport
     refuses an id its map already has; the worker refuses a closed transport, and a
     published id that is in use anywhere on the router.
     */
    method Create(t: nat, kind: Kind, id: string) returns (created: bool)
      requires Valid() && t < |transports|
      modifies this`members, this`transports, this`producers, this`dataProducers
      ensures Valid()
      ensures created <==> !old(transports[t].closed) && !KeyInUse(old(members), t, kind, id)
      ensures members == if created then old(members) + [Member(kind, id, t, false, 0)] else old(members)
      ensures transports == Refresh(old(transports), members)
    {
      CloseNone(members, transports);
      if Contains(members, transports[t].held, kind, id) {
        assert KeyInUse(members, t, kind, id);
        return false;
      }
      created := !transports[t].closed && !KeyInUse(members, t, kind, id);
      if created {
        var o := |members|;
        AddOne(members, Member(kind, id, t, false, 0));
        members := members + [Member(kind, id, t, false, 0)];
        transports := transports[t := transports[t].(held := transports[t].held + {o})];
        if kind == Producer {
          producers := producers + {o};
        } else if kind == DataProducer {
          dataProducers := dataProducers + {o};
        }
        forall s: nat | s < |transports| ensures transports[s] == old(transports)[s].(held := OpenOn(members, s)) {
          assert OpenOn(members, s) == OpenOn(old(members), s) + if s == t then {o} else {};
        }
        assert transports == Refresh(old(transports), members);
      }
    }

    /** One external event, in place. */
    method Perform(e: Event)
      requires Valid()
      modifies this
      ensures Valid() && View() == Next(old(View()), e) && Later(old(members), members)
    {
      ghost var view := View();
      match e {
        case NewTransport =>
          var _ := CreateTransport();
        case NewMember(t, kind, id) =>
          if t < |transports| {
            var _ := Create(t, kind, id);
          }
        case EndOfTransport(t, byItself) =>
          if t < |transports| {
            EndTransport(t, byItself);
          }
        case EndOfMember(o) =>
          if o < |members| {
            EndMember(o);
          }
        case EndOfRouter =>
          if closed {
            NothingOpen(members, transports, registered);
          }
          Close();
      }
      assert View().ended == Next(view, e).ended;
      assert View().members == Next(view, e).members;
    }

    /**
     Any run of external events: the maps agree after it, every member keeps its kind,
     id and owner and at most is closed, once, a closed member is never touched again,
     and a closed router stays closed with nothing new on it.
     */
    method PerformAll(events: seq<Event>)
      requires Valid()
      modifies this
      ensures Valid() && View() == Run(old(View()), events) && Later(old(members), members)
      ensures old(closed) ==> closed && members == old(members)
    {
      ghost var before, view := members, View();
      var i := 0;
      if closed {
        NothingOpen(members, transports, registered);
      }
      while i < |events|
        invariant 0 <= i <= |events| && Valid() && Later(before, members)
        invariant View() == Run(view, events[..i])
        invariant old(closed) ==> closed && members == before
      {
        assert events[..i + 1][..i] == events[..i];
        ghost var now := members;
        if closed {
          NothingOpen(members, transports, registered);
        }
        Perform(events[i]);
        LaterStep(before, now, members);
        i := i + 1;
      }
      assert events[..i] == events;
    }
  }

  /** Whether an open member has this key on the transport, or for published kinds anywhere on the router. */
  predicate KeyInUse(members: seq<Member>, t: nat, kind: Kind, id: string) {
    exists o :: 0 <= o < |members| && !members[o].closed && SameKey(members[o], Member(kind, id, t, false, 0))
  }

  lemma AddOne(members: seq<Member>, m: Member)
    requires IdsOk(members) && !m.closed && !KeyInUse(members, m.owner, m.kind, m.id)
    ensures IdsOk(members + [m])
    ensures forall t: nat :: OpenOn(members + [m], t) == OpenOn(members, t) + if t == m.owner then {|members|} else {}
    ensures forall kind: Kind ::
      OpenOfKind(members + [m], kind) == OpenOfKind(members, kind) + if kind == m.kind then {|members|} else {}
  {
    var after := members + [m];
    forall a, b | IsOpen(after, a) && IsOpen(after, b) && SameKey(after[a], after[b]) ensures a == b {
      if a < |members| && b < |members| {
        assert SameKey(members[a], members[b]);
      }
    }
  }

  /** With no transport registered, nothing is open. */
  lemma NothingOpen(members: seq<Member>, transports: seq<Transport>, registered: set<nat>)
    requires MembersOk(members, transports) && HeldOk(members, transports)
    requires TransportsOk(members, transports, registered) && registered == {}
    ensures forall o :: 0 <= o < |members| ==> members[o].closed
    ensures forall t :: 0 <= t < |transports| ==> transports[t].closed
    ensures OpenOfKind(members, Producer) == {} && OpenOfKind(members, DataProducer) == {}
  {
    forall t | 0 <= t < |transports| ensures transports[t].closed {
      assert t !in registered;
    }
    forall o | 0 <= o < |members| ensures members[o].closed {
      assert members[o].owner !in registered;
      assert o !in OpenOn(members, members[o].owner);
    }
  }

  /** The router's map of a published kind is the union of its transports' maps of that kind. */
  lemma RouterMapIsUnion(members: seq<Member>, transports: seq<Transport>, kind: Kind)
    requires MembersOk(members, transports) && HeldOk(members, transports)
    ensures OpenOfKind(members, kind)
         == set t, o | 0 <= t < |transports| && o in OfKind(members, transports[t].held, kind) :: o
  {
    forall o | o in OpenOfKind(members, kind)
      ensures o in set t, o | 0 <= t < |transports| && o in OfKind(members, transports[t].held, kind) :: o
    {
      assert o in OfKind(members, transports[members[o].owner].held, kind);
    }
  }

  lemma EveryKind(kind: Kind, kinds: seq<Kind>)
    requires kinds == [Producer, Consumer, DataProducer, DataConsumer]
    ensures kind in kinds
  {
    assert kinds[0] == Producer && kinds[1] == Consumer && kinds[2] == DataProducer && kinds[3] == DataConsumer;
  }

  /** Closing what is open on one transport leaves the other transports' members alone. */
  lemma OthersUntouched(members: seq<Member>, t: nat)
    ensures forall s: nat ::
      OpenOn(CloseAll(members, OpenOn(members, t)), s) == if s == t then {} else OpenOn(members, s)
  {
    forall s: nat
      ensures OpenOn(CloseAll(members, OpenOn(members, t)), s) == if s == t then {} else OpenOn(members, s)
    {
      CloseAllOpen(members, OpenOn(members, t), s, Producer);
    }
  }

  /** Once a member is closed, no open member has its key, so passing its signal on again erases nothing. */
  lemma NothingLeftToErase(before: seq<Member>, members: seq<Member>, o: nat)
    requires IdsOk(before) && IsOpen(before, o) && |members| == |before| && members[o] == Closed(before[o])
    requires forall x :: 0 <= x < |members| ==> members[x] == before[x] || members[x] == Closed(before[x])
    ensures forall kind :: IsPublished(kind) && kind == members[o].kind ==>
      Erase(members, OpenOfKind(members, kind), kind, members[o].id) == OpenOfKind(members, kind)
  {
    forall x | IsOpen(members, x) && IsPublished(members[o].kind) && HasKey(members, x, members[o].kind, members[o].id)
      ensures false
    {
      assert IsOpen(before, x) && SameKey(before[x], before[o]);
    }
  }
}
