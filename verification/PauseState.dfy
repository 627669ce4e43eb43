/**
 The pause and resume signals of a consumer. The controller of a data consumer is
 the same automaton, with the data producer in place of the producer.
 */
module PauseState {

  datatype Signal = Paused | Resumed

  datatype Event = Pause | Resume | ProducerPaused | ProducerResumed

  datatype State = State(paused: bool, producerPaused: bool, emitted: seq<Signal>)

  /** One local call or one notification about the producer. */
  function Next(s: State, e: Event): State {
    match e
    case Pause =>
      s.(paused := true, emitted := s.emitted + if !s.paused && !s.producerPaused then [Paused] else [])
    case Resume =>
      s.(paused := false, emitted := s.emitted + if s.paused && !s.producerPaused then [Resumed] else [])
    case ProducerPaused =>
      if s.producerPaused then s
      else s.(producerPaused := true, emitted := s.emitted + if !s.paused then [Paused] else [])
    case ProducerResumed =>
      if !s.producerPaused then s
      else s.(producerPaused := false, emitted := s.emitted + if !s.paused then [Resumed] else [])
  }

  function Run(s: State, events: seq<Event>): State
    decreases |events|
  {
    if events == [] then s else Next(Run(s, events[..|events| - 1]), events[|events| - 1])
  }

  /** Nothing flows while either side is paused. */
  predicate Silent(s: State) {
    s.paused || s.producerPaused
  }

  ghost predicate Alternating(signals: seq<Signal>) {
    forall i, j :: 0 <= i < j < |signals| && j == i + 1 ==> signals[i] != signals[j]
  }

  /** The signals alternate, begin with a change of the initial state, and the last one tells the present state. */
  ghost predicate Faithful(initiallySilent: bool, s: State) {
    && Alternating(s.emitted)
    && (s.emitted == [] ==> Silent(s) == initiallySilent)
    && (s.emitted != [] ==> s.emitted[0] == (if initiallySilent then Resumed else Paused))
    && (s.emitted != [] ==> s.emitted[|s.emitted| - 1] == (if Silent(s) then Paused else Resumed))
  }

  lemma NextKeepsFaithful(initiallySilent: bool, s: State, e: Event)
    requires Faithful(initiallySilent, s)
    ensures Faithful(initiallySilent, Next(s, e))
  {
    var before, after := s.emitted, Next(s, e).emitted;
    if after != before {
      assert after == before + [after[|before|]];
    }
  }

  /** Over every sequence of calls and notifications. */
  lemma {:induction false} SignalsTellTheState(paused: bool, producerPaused: bool, events: seq<Event>)
    ensures Faithful(paused || producerPaused, Run(State(paused, producerPaused, []), events))
    decreases |events|
  {
    if events != [] {
      var start := State(paused, producerPaused, []);
      SignalsTellTheState(paused, producerPaused, events[..|events| - 1]);
      NextKeepsFaithful(Silent(start), Run(start, events[..|events| - 1]), events[|events| - 1]);
    }
  }

  /** A signal is emitted exactly when an event starts or ends the silence, and it says which. */
  lemma EmitsOnChange(s: State, e: Event)
    ensures Next(s, e).emitted
         == s.emitted + if Silent(s) == Silent(Next(s, e)) then [] else [if Silent(Next(s, e)) then Paused else Resumed]
  {
  }

  predicate IsLocal(e: Event) {
    e.Pause? || e.Resume?
  }

  /** Event `i` is the latest local call, or the latest notification. */
  predicate LatestAt(events: seq<Event>, i: nat, local: bool)
    requires i < |events|
  {
    IsLocal(events[i]) == local && forall j :: i < j < |events| ==> IsLocal(events[j]) != local
  }

  predicate NoneOfSort(events: seq<Event>, local: bool) {
    forall i :: 0 <= i < |events| ==> IsLocal(events[i]) != local
  }

  /** What a flag is after the events, given what it was before them. */
  ghost predicate FlagIs(events: seq<Event>, local: bool, before: bool, after: bool) {
    && (NoneOfSort(events, local) ==> after == before)
    && (forall i :: 0 <= i < |events| && LatestAt(events, i, local) ==>
          after == (events[i] == if local then Pause else ProducerPaused))
  }

  lemma FlagSnoc(events: seq<Event>, e: Event, local: bool, before: bool, after: bool)
    requires FlagIs(events, local, before, after)
    ensures FlagIs(events + [e], local, before,
              if IsLocal(e) == local then e == (if local then Pause else ProducerPaused) else after)
  {
    var all := events + [e];
    assert all[|events|] == e;
    forall i | 0 <= i < |events| && LatestAt(all, i, local) ensures IsLocal(e) != local && LatestAt(events, i, local) {
      assert forall j :: i < j < |events| ==> all[j] == events[j];
    }
    assert forall i :: 0 <= i < |events| ==> all[i] == events[i];
  }

  /**
   Over every sequence of events each flag is what the latest event about it says: the
   latest local call decides whether the consumer is paused, the latest notification
   whether its producer is.
   */
  lemma {:induction false} FlagsTellTheEvents(s: State, events: seq<Event>)
    ensures FlagIs(events, true, s.paused, Run(s, events).paused)
    ensures FlagIs(events, false, s.producerPaused, Run(s, events).producerPaused)
    decreases |events|
  {
    if events != [] {
      var front, e := events[..|events| - 1], events[|events| - 1];
      FlagsTellTheEvents(s, front);
      FlagSnoc(front, e, true, s.paused, Run(s, front).paused);
      FlagSnoc(front, e, false, s.producerPaused, Run(s, front).producerPaused);
      assert events == front + [e];
      FlagsAfter(Run(s, front), e);
    }
  }

  /** What one event does to the flags. */
  lemma FlagsAfter(s: State, e: Event)
    ensures Next(s, e).paused == if IsLocal(e) then e == Pause else s.paused
    ensures Next(s, e).producerPaused == if IsLocal(e) then s.producerPaused else e == ProducerPaused
  {
  }

  /** The two flags of a controller, changed in place; every method keeps the signals true to them. */
  class ConsumerController {
    ghost const initiallySilent: bool
    var paused: bool
    var producerPaused: bool
    ghost var emitted: seq<Signal>

    ghost function View(): State
      reads this
    {
      State(paused, producerPaused, emitted)
    }

    ghost predicate Valid()
      reads this
    {
      Faithful(initiallySilent, View())
    }

    constructor (paused: bool, producerPaused: bool)
      ensures Valid() && initiallySilent == (paused || producerPaused)
      ensures View() == State(paused, producerPaused, [])
    {
      initiallySilent := paused || producerPaused;
      this.paused, this.producerPaused, emitted := paused, producerPaused, [];
    }

    method PauseConsumer()
      requires Valid()
      modifies this
      ensures Valid() && View() == Next(old(View()), Pause)
      ensures paused && producerPaused == old(producerPaused)
    {
      ghost var before := View();
      NextKeepsFaithful(initiallySilent, before, Pause);
      var wasPaused := paused;
      paused := true;
      if !wasPaused && !producerPaused {
        emitted := emitted + [Paused];
      }
      assert View() == Next(before, Pause);
    }

    method ResumeConsumer()
      requires Valid()
      modifies this
      ensures Valid() && View() == Next(old(View()), Resume)
      ensures !paused && producerPaused == old(producerPaused)
    {
      ghost var before := View();
      NextKeepsFaithful(initiallySilent, before, Resume);
      var wasPaused := paused;
      paused := false;
      if wasPaused && !producerPaused {
        emitted := emitted + [Resumed];
      }
      assert View() == Next(before, Resume);
    }

    method OnProducerPause()
      requires Valid()
      modifies this
      ensures Valid() && View() == Next(old(View()), ProducerPaused)
      ensures producerPaused && paused == old(paused)
    {
      ghost var before := View();
      NextKeepsFaithful(initiallySilent, before, ProducerPaused);
      if producerPaused {
        return;
      }
      producerPaused := true;
      if !paused {
        emitted := emitted + [Paused];
      }
      assert View() == Next(before, ProducerPaused);
    }

    method OnProducerResume()
      requires Valid()
      modifies this
      ensures Valid() && View() == Next(old(View()), ProducerResumed)
      ensures !producerPaused && paused == old(paused)
    {
      ghost var before := View();
      NextKeepsFaithful(initiallySilent, before, ProducerResumed);
      if !producerPaused {
        return;
      }
      producerPaused := false;
      if !paused {
        emitted := emitted + [Resumed];
      }
      assert View() == Next(before, ProducerResumed);
    }
  }
}
