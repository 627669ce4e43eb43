/** The blocking queue object, built on the semaphore object and changed in place. */
module BlockingConcurrentQueueObject {
  import opened Semaphore
  import opened BlockingQueue
  import opened LightweightSemaphoreObject

  class BlockingConcurrentQueue<T(==)> {
    var inner: multiset<T>
    const sema: LightweightSemaphore
    var stages: seq<Stage<T>>
    ghost var offered: multiset<T>
    ghost var delivered: multiset<T>

    ghost function View(): Queue<T>
      reads this, sema
    {
      Queue(sema.View(), inner, stages, offered, delivered)
    }

    ghost predicate Valid()
      reads this, sema
    {
      QueueInv(View())
    }

    constructor (threads: nat, maxSpins: nat)
      ensures View() == InitQueue<T>(threads, maxSpins) && Valid() && fresh(sema)
    {
      inner, offered, delivered := multiset{}, multiset{}, multiset{};
      stages := seq(threads, _ => Free);
      sema := new LightweightSemaphore(threads, 0, maxSpins);
      new;
      InitQueueInv<T>(threads, maxSpins);
    }

    /** Entry to any of the enqueue operations. */
    method StartEnqueue(t: nat, items: multiset<T>)
      requires Valid() && t < |stages| && stages[t].Free?
      modifies this
      ensures Valid() && View() == Perform(old(View()), t, CallEnqueue(items))
      ensures stages == old(stages)[t := Inserting(items)]
    {
      ghost var q := View();
      PerformKeepsInv(q, t, CallEnqueue(items));
      stages := stages[t := Inserting(items)];
      assert View() == Perform(q, t, CallEnqueue(items));
    }

    /** Any of the enqueue operations: the inner insertion, and on success the start of the signal. */
    method InsertItems(t: nat, succeeds: bool) returns (inserted: bool)
      requires Valid() && t < |stages| && stages[t].Inserting?
      modifies this, sema
      ensures Valid() && View() == Perform(old(View()), t, Insert(succeeds))
      ensures inserted == succeeds
      ensures inserted ==> inner == old(inner) + old(stages[t]).items && offered == old(offered) + old(stages[t]).items
      ensures inserted ==> sema.frames == old(sema.frames)[t := Active(Signal(|old(stages[t]).items|), Add)]
      ensures !inserted ==> inner == old(inner) && offered == old(offered) && sema.frames == old(sema.frames)
      ensures stages == old(stages)[t := if inserted then Announcing else Free] && sema.Mem() == old(sema.Mem())
    {
      ghost var q := View();
      PerformKeepsInv(q, t, Insert(succeeds));
      var items := stages[t].items;
      if succeeds {
        inner, offered := inner + items, offered + items;
        sema.BeginCall(t, Signal(|items|));
        stages := stages[t := Announcing];
      } else {
        stages := stages[t := Free];
      }
      inserted := succeeds;
      assert View() == Perform(q, t, Insert(succeeds));
    }

    method StartDequeue(t: nat, call: Call)
      requires Valid() && t < |stages| && stages[t].Free? && !call.Signal?
      modifies this, sema
      ensures Valid() && View() == Perform(old(View()), t, CallDequeue(call))
      ensures stages == old(stages)[t := Acquiring]
      ensures sema.frames == old(sema.frames)[t := Active(call, TryLoad(false))]
    {
      ghost var q := View();
      PerformKeepsInv(q, t, CallDequeue(call));
      sema.BeginCall(t, call);
      stages := stages[t := Acquiring];
      assert View() == Perform(q, t, CallDequeue(call));
    }

    method StepSemaphore(t: nat, choice: Choice)
      requires Valid() && t < |stages| && (stages[t].Announcing? || stages[t].Acquiring?)
      modifies this, sema
      ensures Valid() && View() == Perform(old(View()), t, SemaphoreStep(choice))
      ensures sema.View() == Next(old(sema.View()), Advance(t, choice)) && stages == old(stages) && inner == old(inner)
    {
      ghost var q := View();
      PerformKeepsInv(q, t, SemaphoreStep(choice));
      sema.AdvanceThread(t, choice);
      assert View() == Perform(q, t, SemaphoreStep(choice));
    }

    /** The semaphore call returns; a consumer then owns as many items as it was granted permits. */
    method ReturnFromSemaphore(t: nat) returns (permits: nat)
      requires Valid() && t < |stages| && (stages[t].Announcing? || stages[t].Acquiring?)
      requires sema.frames[t].at.Done?
      modifies this, sema
      ensures Valid() && View() == Perform(old(View()), t, SemaphoreReturn)
      ensures permits == old(sema.frames[t].at.granted) && sema.frames == old(sema.frames)[t := Idle]
      ensures stages
           == old(stages)[t := if old(stages[t]).Acquiring? then Extracting(permits, multiset{}) else Free]
    {
      ghost var q := View();
      ReturnPerformed(q, t);
      permits := sema.FinishCall(t);
      stages := stages[t := if stages[t].Announcing? then Free else Extracting(permits, multiset{})];
      assert View() == SemaphorePart(q, t, SemaphoreReturn);
    }

    /** One round of the extraction loop: the inner queue yields `items`, possibly none. */
    method ExtractItems(t: nat, items: multiset<T>)
      requires Valid() && t < |stages| && stages[t].Extracting?
      requires items <= inner && |items| <= stages[t].left
      modifies this
      ensures Valid() && View() == Perform(old(View()), t, Extract(items))
      ensures inner == old(inner) - items
      ensures stages == old(stages)[t := Extracting(old(stages[t]).left - |items|, old(stages[t]).got + items)]
    {
      ghost var q := View();
      PerformKeepsInv(q, t, Extract(items));
      var after := Extracting(stages[t].left - |items|, stages[t].got + items);
      inner := inner - items;
      stages := stages[t := after];
      assert View() == Perform(q, t, Extract(items));
    }

    method DeliverItems(t: nat) returns (items: multiset<T>)
      requires Valid() && t < |stages| && stages[t].Extracting? && stages[t].left == 0
      modifies this
      ensures Valid() && View() == Perform(old(View()), t, Deliver)
      ensures items == old(stages[t].got) && items <= offered
      ensures delivered == old(delivered) + items && stages == old(stages)[t := Free] && inner == old(inner)
    {
      ghost var q := View();
      PerformKeepsInv(q, t, Deliver);
      items := stages[t].got;
      delivered := delivered + items;
      stages := stages[t := Free];
      assert View() == Perform(q, t, Deliver);
    }

    method SizeApprox() returns (size: nat)
      requires Valid()
      ensures size <= |inner|
      ensures (forall t :: 0 <= t < |stages| ==> stages[t].Free?) ==> size == |inner|
    {
      InnerCount(View());
      if forall t :: 0 <= t < |stages| ==> stages[t].Free? {
        SizeWhenFree(View());
      }
      size := sema.Approximate();
    }
  }
}
