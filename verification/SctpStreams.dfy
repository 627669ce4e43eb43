/** The allocation of SCTP stream ids to the data consumers of one transport. */
module SctpStreams {
  import opened Common

  /** Offsets from the cursor, taken around the end of the list. */
  function Slot(cursor: nat, offset: nat, size: nat): nat
    requires size > 0
  {
    (cursor + offset) % size
  }

  predicate HasFree(ids: seq<int>) {
    exists i :: 0 <= i < |ids| && ids[i] == 0
  }

  /** `id` is the first unmarked slot in circular order from the cursor. */
  ghost predicate FirstFree(ids: seq<int>, cursor: nat, id: int) {
    exists offset {:trigger Slot(cursor, offset, |ids|)} ::
      && 0 <= offset < |ids| && id == Slot(cursor, offset, |ids|) && ids[Slot(cursor, offset, |ids|)] == 0
      && forall k :: 0 <= k < offset ==> ids[Slot(cursor, k, |ids|)] != 0
  }

  /** The search from an offset on. */
  function Search(ids: seq<int>, cursor: nat, offset: nat): Option<nat>
    requires 0 < |ids| && offset <= |ids|
    decreases |ids| - offset
  {
    if offset == |ids| then None
    else if ids[Slot(cursor, offset, |ids|)] == 0 then Some(Slot(cursor, offset, |ids|))
    else Search(ids, cursor, offset + 1)
  }

  lemma ModOnce(x: nat, size: nat)
    requires 0 < size && x < 2 * size
    ensures x % size == if x < size then x else x - size
  {
    if x >= size {
      assert x == size * 1 + (x - size);
    }
  }

  /** Every slot is reached from any cursor by an offset below the size. */
  lemma SlotReached(cursor: nat, i: nat, size: nat) returns (offset: nat)
    requires i < size && cursor <= size
    ensures offset < size && Slot(cursor, offset, size) == i
  {
    offset := if i >= cursor then i - cursor else i + size - cursor;
    if cursor == size {
      offset := i;
    }
    ModOnce(cursor + offset, size);
  }

  lemma {:induction false} SearchFrom(ids: seq<int>, cursor: nat, offset: nat)
    requires 0 < |ids| && offset <= |ids|
    requires forall k :: 0 <= k < offset ==> ids[Slot(cursor, k, |ids|)] != 0
    ensures match Search(ids, cursor, offset)
      case Some(id) => FirstFree(ids, cursor, id)
      case None => forall k :: 0 <= k < |ids| ==> ids[Slot(cursor, k, |ids|)] != 0
    decreases |ids| - offset
  {
    if offset < |ids| && ids[Slot(cursor, offset, |ids|)] != 0 {
      SearchFrom(ids, cursor, offset + 1);
    }
  }

  /** The search finds the first unmarked slot in circular order, and nothing exactly when every slot is marked. */
  lemma SearchMeaning(ids: seq<int>, cursor: nat)
    requires 0 < |ids| && cursor <= |ids|
    ensures match Search(ids, cursor, 0)
      case Some(id) => HasFree(ids) && FirstFree(ids, cursor, id) && id < |ids| && ids[id] == 0
      case None => !HasFree(ids)
  {
    SearchFrom(ids, cursor, 0);
    forall i | 0 <= i < |ids| && Search(ids, cursor, 0).None? ensures ids[i] != 0 {
      var offset := SlotReached(cursor, i, |ids|);
    }
  }

  /** The marks, the cursor, and the live data consumers with their stream ids. */
  datatype Streams = Streams(ids: seq<int>, next: nat, live: map<string, nat>)

  /** The list is empty before its first use, and the cursor stays within 0 to MIS. */
  ghost predicate Fits(s: Streams, mis: nat) {
    && (s.ids == [] || |s.ids| == mis)
    && s.next <= mis
    && (forall c :: c in s.live ==> s.live[c] < |s.ids|)
  }

  /** The live consumers hold marked slots, each a different one. */
  ghost predicate Exclusive(s: Streams) {
    && (forall c :: c in s.live ==> s.live[c] < |s.ids| && s.ids[s.live[c]] != 0)
    && (forall c, d :: c in s.live && d in s.live && s.live[c] == s.live[d] ==> c == d)
  }

  /** The list as the allocator searches it; it is made on first use, with every slot unmarked. */
  function Slots(ids: seq<int>, mis: nat): (slots: seq<int>)
    ensures ids != [] ==> slots == ids
    ensures ids == [] ==> |slots| == mis && forall i :: 0 <= i < mis ==> slots[i] == 0
  {
    if ids == [] then seq(mis, _ => 0) else ids
  }

  predicate SlotFree(s: Streams, mis: nat) {
    HasFree(Slots(s.ids, mis))
  }

  /** What the allocator answers: the slot found, or 0 when all are marked. */
  function Allocated(s: Streams, mis: nat): nat
    requires mis > 0 && (s.ids == [] || |s.ids| == mis)
  {
    var found := Search(Slots(s.ids, mis), s.next, 0);
    if found.Some? then found.value else 0
  }

  datatype Event =
    | Consume(consumer: string, accepted: bool)
    | Close(consumer: string)
    | DataProducerClosed(consumer: string)

  /** A new data consumer: its slot is marked before the worker is asked, and stays marked if the worker refuses. */
  function Consumed(s: Streams, mis: nat, consumer: string, accepted: bool): Streams
    requires mis > 0 && (s.ids == [] || |s.ids| == mis) && Allocated(s, mis) < mis
  {
    var id := Allocated(s, mis);
    Streams(Slots(s.ids, mis)[id := 1],
      if Search(Slots(s.ids, mis), s.next, 0).Some? then id + 1 else s.next,
      if accepted then s.live[consumer := id] else s.live)
  }

  /** The removal handler of one data consumer. */
  function Removed(s: Streams, consumer: string, streamId: nat): Streams
    requires s.ids != [] ==> streamId < |s.ids|
  {
    Streams(if s.ids == [] then [] else s.ids[streamId := 0], s.next, s.live - {consumer})
  }

  /**
   One event. The close of a data producer fires two signals of its consumer, and the
   removal handler is connected to both. Ids of new consumers are fresh.
   */
  function Next(s: Streams, mis: nat, e: Event): Streams
    requires mis > 0 && Fits(s, mis)
  {
    match e
    case Consume(c, accepted) =>
      SearchMeaning(Slots(s.ids, mis), s.next);
      if c in s.live then s else Consumed(s, mis, c, accepted)
    case Close(c) => if c in s.live then Removed(s, c, s.live[c]) else s
    case DataProducerClosed(c) =>
      if c in s.live then Removed(Removed(s, c, s.live[c]), c, s.live[c]) else s
  }

  /** A second firing of the handler changes nothing. */
  lemma RemovedTwice(s: Streams, consumer: string, streamId: nat)
    requires s.ids != [] ==> streamId < |s.ids|
    ensures Removed(Removed(s, consumer, streamId), consumer, streamId) == Removed(s, consumer, streamId)
  {
    assert s.live - {consumer} - {consumer} == s.live - {consumer};
  }

  /** The new consumer's stream is the first free one, and no other slot changes. */
  lemma ConsumedMeaning(s: Streams, mis: nat, consumer: string, accepted: bool)
    requires mis > 0 && Fits(s, mis) && consumer !in s.live && SlotFree(s, mis)
    ensures Allocated(s, mis) < mis && FirstFree(Slots(s.ids, mis), s.next, Allocated(s, mis))
    ensures var s' := Consumed(s, mis, consumer, accepted);
      && s'.next == Allocated(s, mis) + 1 && s'.ids[Allocated(s, mis)] != 0
      && (forall i :: 0 <= i < mis && i != Allocated(s, mis) ==> s'.ids[i] == Slots(s.ids, mis)[i])
  {
    SearchMeaning(Slots(s.ids, mis), s.next);
  }

  lemma ConsumedFits(s: Streams, mis: nat, consumer: string, accepted: bool)
    requires mis > 0 && Fits(s, mis) && consumer !in s.live
    ensures Allocated(s, mis) < mis && Fits(Consumed(s, mis, consumer, accepted), mis)
  {
    SearchMeaning(Slots(s.ids, mis), s.next);
    assert s.ids == [] ==> s.live == map[];
  }

  /**
   After a new consumer, stream ids are exclusive exactly when a slot was free, or the
   worker refused, or nobody held stream 0.
   */
  lemma ConsumedExclusive(s: Streams, mis: nat, consumer: string, accepted: bool)
    requires mis > 0 && Fits(s, mis) && Exclusive(s) && consumer !in s.live && Allocated(s, mis) < mis
    ensures Exclusive(Consumed(s, mis, consumer, accepted))
       <==> SlotFree(s, mis) || !accepted || forall c :: c in s.live ==> s.live[c] != 0
  {
    var s' := Consumed(s, mis, consumer, accepted);
    SearchMeaning(Slots(s.ids, mis), s.next);
    assert s.ids == [] ==> s.live == map[];
    assert forall c :: c in s.live ==> c in s'.live && c != consumer && s'.live[c] == s.live[c];
    if accepted && !SlotFree(s, mis) {
      assert consumer in s'.live && s'.live[consumer] == 0;
    }
  }

  /** Removal frees exactly that consumer's slot and keeps the ids of the others exclusive. */
  lemma RemovedExclusive(s: Streams, mis: nat, consumer: string)
    requires Fits(s, mis) && Exclusive(s) && consumer in s.live
    ensures var s' := Removed(s, consumer, s.live[consumer]);
      Fits(s', mis) && Exclusive(s') && s'.ids[s.live[consumer]] == 0
  {
  }

  /**
   What one event does. A new consumer marks the slot the allocator answers, and holds it
   if the worker accepts; the end of a live consumer, either way, forgets it and frees
   its slot; nothing else changes anything.
   */
  lemma EventEffect(s: Streams, mis: nat, e: Event) returns (id: nat)
    requires mis > 0 && Fits(s, mis)
    ensures var s', c := Next(s, mis, e), e.consumer;
      if e.Consume? then
        if c in s.live then s' == s
        else
          && id < mis && s'.ids == Slots(s.ids, mis)[id := 1]
          && s'.live == (if e.accepted then s.live[c := id] else s.live)
          && (if SlotFree(s, mis) then FirstFree(Slots(s.ids, mis), s.next, id) && s'.next == id + 1
              else id == 0 && s'.next == s.next)
      else if c in s.live then
        s'.live == s.live - {c} && s'.ids == s.ids[s.live[c] := 0] && s'.next == s.next
      else s' == s
  {
    SearchMeaning(Slots(s.ids, mis), s.next);
    id := Allocated(s, mis);
    if !e.Consume? && e.consumer in s.live {
      RemovedTwice(s, e.consumer, s.live[e.consumer]);
    }
  }

  predicate Ends(e: Event, consumer: string) {
    !e.Consume? && e.consumer == consumer
  }

  /**
   Whether a consumer is live after a run, as the events tell: it was accepted, or live
   before, and has not ended since.
   */
  ghost predicate LiveByEvents(before: bool, events: seq<Event>, consumer: string) {
    || (before && forall j :: 0 <= j < |events| ==> !Ends(events[j], consumer))
    || (exists i :: 0 <= i < |events| && events[i] == Consume(consumer, true) && NotEndedAfter(events, i, consumer))
  }

  predicate NotEndedAfter(events: seq<Event>, i: nat, consumer: string) {
    forall j :: i < j < |events| ==> !Ends(events[j], consumer)
  }

  lemma LiveSnoc(before: bool, events: seq<Event>, e: Event, consumer: string)
    ensures LiveByEvents(before, events + [e], consumer)
       <==> e == Consume(consumer, true) || (!Ends(e, consumer) && LiveByEvents(before, events, consumer))
  {
    var all := events + [e];
    assert all[|events|] == e && forall i :: 0 <= i < |events| ==> all[i] == events[i];
    if e == Consume(consumer, true) {
      assert NotEndedAfter(all, |events|, consumer);
    }
    forall i | 0 <= i < |events| && events[i] == Consume(consumer, true)
      ensures NotEndedAfter(all, i, consumer) <==> NotEndedAfter(events, i, consumer) && !Ends(e, consumer)
    {
      if NotEndedAfter(all, i, consumer) {
        assert !Ends(all[|events|], consumer);
        forall j | i < j < |events| ensures !Ends(events[j], consumer) {
          assert !Ends(all[j], consumer);
        }
      }
    }
    if forall j :: 0 <= j < |all| ==> !Ends(all[j], consumer) {
      assert !Ends(all[|events|], consumer);
      forall j | 0 <= j < |events| ensures !Ends(events[j], consumer) {
        assert !Ends(all[j], consumer);
      }
    }
  }

  /** What keeps stream ids exclusive in one step, in terms of the state before it. */
  predicate StepSafe(s: Streams, mis: nat, e: Event) {
    e.Consume? && e.consumer !in s.live ==>
      SlotFree(s, mis) || !e.accepted || forall c :: c in s.live ==> s.live[c] != 0
  }

  lemma NextFits(s: Streams, mis: nat, e: Event)
    requires mis > 0 && Fits(s, mis)
    ensures Fits(Next(s, mis, e), mis)
  {
    match e
    case Consume(c, accepted) =>
      if c !in s.live {
        ConsumedFits(s, mis, c, accepted);
      }
    case _ =>
  }

  lemma NextExclusive(s: Streams, mis: nat, e: Event)
    requires mis > 0 && Fits(s, mis) && Exclusive(s)
    ensures Exclusive(Next(s, mis, e)) <==> StepSafe(s, mis, e)
  {
    match e
    case Consume(c, accepted) =>
      if c !in s.live {
        ConsumedFits(s, mis, c, accepted);
        ConsumedExclusive(s, mis, c, accepted);
      }
    case Close(c) =>
      if c in s.live {
        RemovedExclusive(s, mis, c);
      }
    case DataProducerClosed(c) =>
      if c in s.live {
        RemovedTwice(s, c, s.live[c]);
        RemovedExclusive(s, mis, c);
      }
  }

  ghost function Run(s: Streams, mis: nat, events: seq<Event>): (s': Streams)
    requires mis > 0 && Fits(s, mis)
    ensures Fits(s', mis)
    decreases events
  {
    if events == [] then s
    else
      NextFits(s, mis, events[0]);
      Run(Next(s, mis, events[0]), mis, events[1..])
  }

  /** The streams are exclusive in every state of a run. */
  ghost predicate AlwaysExclusive(s: Streams, mis: nat, events: seq<Event>)
    requires mis > 0 && Fits(s, mis)
  {
    forall n :: 0 <= n <= |events| ==> Exclusive(Run(s, mis, events[..n]))
  }

  /** Every new consumer of a run meets the condition of its step. */
  ghost predicate SafeRun(s: Streams, mis: nat, events: seq<Event>)
    requires mis > 0 && Fits(s, mis)
  {
    forall n :: 0 <= n < |events| ==> StepSafe(Run(s, mis, events[..n]), mis, events[n])
  }

  /** Every new consumer of a run comes while a slot is unmarked. */
  ghost predicate WithinCapacity(s: Streams, mis: nat, events: seq<Event>)
    requires mis > 0 && Fits(s, mis)
  {
    forall n :: 0 <= n < |events| && events[n].Consume? ==> SlotFree(Run(s, mis, events[..n]), mis)
  }

  lemma {:induction false} RunSnoc(s: Streams, mis: nat, events: seq<Event>, e: Event)
    requires mis > 0 && Fits(s, mis)
    ensures Run(s, mis, events + [e]) == Next(Run(s, mis, events), mis, e)
    decreases events
  {
    if events != [] {
      assert (events + [e])[1..] == events[1..] + [e];
      NextFits(s, mis, events[0]);
      RunSnoc(Next(s, mis, events[0]), mis, events[1..], e);
    } else {
      assert [e][1..] == [];
      NextFits(s, mis, e);
    }
  }

  /** Over every run, the consumers that are live are exactly those the events say. */
  lemma {:induction false} LiveTellsTheEvents(s: Streams, mis: nat, events: seq<Event>, consumer: string)
    requires mis > 0 && Fits(s, mis)
    ensures consumer in Run(s, mis, events).live <==> LiveByEvents(consumer in s.live, events, consumer)
    decreases |events|
  {
    if events != [] {
      var front, e := events[..|events| - 1], events[|events| - 1];
      assert events == front + [e];
      LiveTellsTheEvents(s, mis, front, consumer);
      RunSnoc(s, mis, front, e);
      LiveSnoc(consumer in s.live, front, e, consumer);
      var _ := EventEffect(Run(s, mis, front), mis, e);
    }
  }

  lemma {:induction false} ExclusiveUpTo(s: Streams, mis: nat, events: seq<Event>, n: nat)
    requires mis > 0 && Fits(s, mis) && Exclusive(s) && n <= |events| && SafeRun(s, mis, events)
    ensures Exclusive(Run(s, mis, events[..n]))
  {
    if n > 0 {
      ExclusiveUpTo(s, mis, events, n - 1);
      assert events[..n] == events[..n - 1] + [events[n - 1]];
      RunSnoc(s, mis, events[..n - 1], events[n - 1]);
      NextExclusive(Run(s, mis, events[..n - 1]), mis, events[n - 1]);
    }
  }

  /**
   Over every run: live data consumers hold pairwise distinct marked streams all the
   time exactly when every new consumer came while a slot was free, or was refused by
   the worker, or came while nobody held stream 0.
   */
  lemma RunExclusive(s: Streams, mis: nat, events: seq<Event>)
    requires mis > 0 && Fits(s, mis) && Exclusive(s)
    ensures AlwaysExclusive(s, mis, events) <==> SafeRun(s, mis, events)
  {
    if SafeRun(s, mis, events) {
      forall n | 0 <= n <= |events| ensures Exclusive(Run(s, mis, events[..n])) {
        ExclusiveUpTo(s, mis, events, n);
      }
    }
    if AlwaysExclusive(s, mis, events) {
      forall n | 0 <= n < |events| ensures StepSafe(Run(s, mis, events[..n]), mis, events[n]) {
        assert events[..n + 1] == events[..n] + [events[n]];
        RunSnoc(s, mis, events[..n], events[n]);
        assert Exclusive(Run(s, mis, events[..n + 1]));
        NextExclusive(Run(s, mis, events[..n]), mis, events[n]);
      }
    }
  }

  /** In particular, a run that consumes only while a slot is unmarked keeps the streams exclusive. */
  lemma CapacityKeepsExclusive(mis: nat, events: seq<Event>)
    requires mis > 0 && WithinCapacity(Streams([], 0, map[]), mis, events)
    ensures AlwaysExclusive(Streams([], 0, map[]), mis, events)
  {
    RunExclusive(Streams([], 0, map[]), mis, events);
  }

  class DataConsumers {
    const mis: nat
    var sctpStreamIds: seq<int>
    var nextSctpStreamId: nat
    /** The live data consumers and their stream ids. */
    var live: map<string, nat>

    ghost function View(): Streams
      reads this
    {
      Streams(sctpStreamIds, nextSctpStreamId, live)
    }

    ghost predicate Valid()
      reads this
    {
      Fits(View(), mis)
    }

    constructor (mis: nat)
      ensures Valid() && Exclusive(View()) && this.mis == mis && View() == Streams([], 0, map[])
    {
      this.mis := mis;
      sctpStreamIds, nextSctpStreamId, live := [], 0, map[];
    }

    /**
     The next stream id: the first unmarked slot in circular order from the cursor.
     With no SCTP streams the result is -1; with every slot marked it is 0.
     */
    method GetNextSctpStreamId() returns (id: int)
      requires Valid()
      modifies this`sctpStreamIds, this`nextSctpStreamId
      ensures Valid()
      ensures mis == 0 ==> id == -1 && sctpStreamIds == old(sctpStreamIds) && nextSctpStreamId == old(nextSctpStreamId)
      ensures mis > 0 ==> sctpStreamIds == Slots(old(sctpStreamIds), mis) && id == Allocated(old(View()), mis)
      ensures mis > 0 && old(SlotFree(View(), mis)) ==>
        0 <= id < mis && FirstFree(sctpStreamIds, old(nextSctpStreamId), id) && nextSctpStreamId == id + 1
      ensures mis > 0 && !old(SlotFree(View(), mis)) ==> id == 0 && nextSctpStreamId == old(nextSctpStreamId)
    {
      if mis == 0 {
        return -1;
      }
      if sctpStreamIds == [] {
        sctpStreamIds := seq(mis, _ => 0);
        assert live == map[];
      }
      SearchMeaning(sctpStreamIds, nextSctpStreamId);
      var idx := 0;
      while idx < |sctpStreamIds|
        invariant 0 <= idx <= |sctpStreamIds| == mis && nextSctpStreamId == old(nextSctpStreamId)
        invariant Search(sctpStreamIds, nextSctpStreamId, idx) == Search(sctpStreamIds, nextSctpStreamId, 0)
      {
        id := (nextSctpStreamId + idx) % |sctpStreamIds|;
        if sctpStreamIds[id] == 0 {
          assert id == Slot(nextSctpStreamId, idx, mis);
          nextSctpStreamId := id + 1;
          return;
        }
        idx := idx + 1;
      }
      id := 0;
    }

    /** A new data consumer, accepted or refused by the worker. */
    method ConsumeData(consumer: string, accepted: bool) returns (id: nat)
      requires Valid() && mis > 0 && consumer !in live
      modifies this
      ensures Valid() && View() == Next(old(View()), mis, Consume(consumer, accepted))
      ensures old(SlotFree(View(), mis)) ==>
        FirstFree(Slots(old(sctpStreamIds), mis), old(nextSctpStreamId), id) && nextSctpStreamId == id + 1
      ensures id < mis && sctpStreamIds == Slots(old(sctpStreamIds), mis)[id := 1]
      ensures live == if accepted then old(live)[consumer := id] else old(live)
      ensures old(Exclusive(View())) ==>
        (Exclusive(View()) <==>
          old(SlotFree(View(), mis)) || !accepted || forall c :: c in old(live) ==> old(live[c]) != 0)
    {
      ghost var before := View();
      ConsumedFits(before, mis, consumer, accepted);
      id := GetNextSctpStreamId();
      SearchMeaning(sctpStreamIds, before.next);
      sctpStreamIds := sctpStreamIds[id := 1];
      if accepted {
        live := live[consumer := id];
      }
      assert View() == Consumed(before, mis, consumer, accepted);
      if Exclusive(before) {
        ConsumedExclusive(before, mis, consumer, accepted);
      }
    }

    /** The removal handler of a data consumer, connected to two of its signals. */
    method Remove(consumer: string, streamId: nat)
      requires Valid() && (sctpStreamIds != [] ==> streamId < |sctpStreamIds|)
      modifies this`live, this`sctpStreamIds
      ensures Valid() && live == old(live) - {consumer}
      ensures sctpStreamIds == if old(sctpStreamIds) == [] then [] else old(sctpStreamIds)[streamId := 0]
    {
      if consumer in live {
        live := live - {consumer};
      }
      if |sctpStreamIds| != 0 {
        sctpStreamIds := sctpStreamIds[streamId := 0];
      }
    }

    /** Any run of events; the handler runs twice when a data producer closes. */
    method PerformAll(events: seq<Event>)
      requires Valid() && mis > 0
      modifies this
      ensures Valid() && View() == Run(old(View()), mis, events)
      ensures old(Exclusive(View())) && SafeRun(old(View()), mis, events) ==> Exclusive(View())
    {
      ghost var before := View();
      var i := 0;
      while i < |events|
        invariant 0 <= i <= |events| && Valid() && View() == Run(before, mis, events[..i])
      {
        RunSnoc(before, mis, events[..i], events[i]);
        assert events[..i + 1] == events[..i] + [events[i]];
        match events[i] {
          case Consume(c, accepted) =>
            if c !in live {
              var _ := ConsumeData(c, accepted);
            }
          case Close(c) =>
            if c in live {
              Remove(c, live[c]);
            }
          case DataProducerClosed(c) =>
            if c in live {
              var id := live[c];
              Remove(c, id);
              Remove(c, id);
            }
        }
        i := i + 1;
      }
      assert events[..i] == events;
      if Exclusive(before) && SafeRun(before, mis, events) {
        ExclusiveUpTo(before, mis, events, |events|);
      }
    }
  }
}
