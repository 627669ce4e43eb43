/**
 The blocking queue: an inner concurrent queue, taken as a bag of items, and a
 semaphore with one permit for every item announced. A producer inserts and then
 signals; a consumer waits for permits and then extracts until it has as many
 items as permits, spinning whenever the inner queue gives it fewer.
 */
module BlockingQueue {
  import opened Sums
  import opened Semaphore

  /** What a thread is doing with the queue; its semaphore call, if any, is in the semaphore's frames. */
  datatype Stage<T> =
    | Free
    | Inserting(items: multiset<T>)
    | Announcing
    | Acquiring
    | Extracting(left: nat, got: multiset<T>)

  /** `offered` and `delivered` record everything inserted and everything handed to callers. */
  datatype Queue<T> = Queue(
    sem: State,
    inner: multiset<T>,
    stages: seq<Stage<T>>,
    offered: multiset<T>,
    delivered: multiset<T>)

  datatype Action<T> =
    | CallEnqueue(items: multiset<T>)
    | Insert(succeeds: bool)
    | CallDequeue(call: Call)
    | SemaphoreStep(choice: Choice)
    | SemaphoreReturn
    | Extract(items: multiset<T>)
    | Deliver

  /** One action of thread `t`; an action that is not possible changes nothing. */
  function Perform<T>(q: Queue<T>, t: nat, a: Action<T>): Queue<T>
    requires FramesOk(q.sem.frames) && |q.stages| == |q.sem.frames|
  {
    if t >= |q.stages| then q else
    match q.stages[t]
    case Free =>
      if a.CallEnqueue? then q.(stages := q.stages[t := Inserting(a.items)])
      else if a.CallDequeue? && !a.call.Signal? then
        q.(stages := q.stages[t := Acquiring], sem := Next(q.sem, Begin(t, a.call)))
      else q
    case Inserting(items) =>
      if a == Insert(true) then
        q.(stages := q.stages[t := Announcing], sem := Next(q.sem, Begin(t, Signal(|items|))),
           inner := q.inner + items, offered := q.offered + items)
      else if a == Insert(false) then q.(stages := q.stages[t := Free])
      else q
    case Announcing => SemaphorePart(q, t, a)
    case Acquiring => SemaphorePart(q, t, a)
    case Extracting(left, got) =>
      if a.Extract? && a.items <= q.inner && |a.items| <= left then
        q.(stages := q.stages[t := Extracting(left - |a.items|, got + a.items)], inner := q.inner - a.items)
      else if a.Deliver? && left == 0 then
        q.(stages := q.stages[t := Free], delivered := q.delivered + got)
      else q
  }

  /** A thread inside a semaphore call: its next atomic step, or the return of the call. */
  function SemaphorePart<T>(q: Queue<T>, t: nat, a: Action<T>): Queue<T>
    requires FramesOk(q.sem.frames) && |q.stages| == |q.sem.frames| && t < |q.stages|
  {
    var f := q.sem.frames[t];
    if a.SemaphoreStep? then q.(sem := Next(q.sem, Advance(t, a.choice)))
    else if a.SemaphoreReturn? && f.Active? && f.at.Done? then
      q.(sem := Next(q.sem, Finish(t)),
         stages := q.stages[t := if q.stages[t].Announcing? then Free else Extracting(f.at.granted, multiset{})])
    else q
  }

  /** Items a consumer has permits for and has yet to take out of the inner queue. */
  function Left<T>(s: Stage<T>): nat {
    if s.Extracting? then s.left else 0
  }

  function Got<T>(s: Stage<T>): multiset<T> {
    if s.Extracting? then s.got else multiset{}
  }

  /** All items taken out of the inner queue and not yet handed to a caller. */
  function InHand<T>(stages: seq<Stage<T>>): multiset<T> {
    if stages == [] then multiset{} else Got(stages[0]) + InHand(stages[1..])
  }

  /** A stage and the semaphore frame of the same thread belong together. */
  predicate Coupled<T>(s: Stage<T>, f: Frame) {
    match s
    case Announcing => f.Active? && f.call.Signal?
    case Acquiring => f.Active? && !f.call.Signal?
    case _ => f.Idle?
  }

  ghost predicate QueueInv<T>(q: Queue<T>) {
    && Inv(q.sem)
    && |q.stages| == |q.sem.frames|
    && (forall i :: 0 <= i < |q.stages| ==> Coupled(q.stages[i], q.sem.frames[i]))
    && q.offered == q.inner + InHand(q.stages) + q.delivered
    && |q.offered| == q.sem.mem.issued + Sum(q.sem.frames, Unannounced)
    && q.sem.mem.returned == Sum(q.stages, Left<T>) + |InHand(q.stages)| + |q.delivered|
  }

  lemma {:induction false} InHandUpdate<T>(stages: seq<Stage<T>>, t: nat, s: Stage<T>)
    requires t < |stages|
    ensures InHand(stages[t := s]) + Got(stages[t]) == InHand(stages) + Got(s)
  {
    if t == 0 {
      assert stages[t := s][1..] == stages[1..];
    } else {
      assert stages[t := s][1..] == stages[1..][t - 1 := s];
      InHandUpdate(stages[1..], t - 1, s);
      var rest, rest' := InHand(stages[1..]), InHand(stages[1..][t - 1 := s]);
      assert Got(stages[0]) + rest' + Got(stages[t]) == Got(stages[0]) + (rest' + Got(stages[t]));
      assert Got(stages[0]) + rest + Got(s) == Got(stages[0]) + (rest + Got(s));
    }
  }

  /** Totals move by what one thread's share moves. */
  lemma BagAlgebra<T>(
    offered: multiset<T>, inner: multiset<T>, hands: multiset<T>, delivered: multiset<T>, got: multiset<T>,
    offered': multiset<T>, inner': multiset<T>, hands': multiset<T>, delivered': multiset<T>, got': multiset<T>)
    requires offered == inner + hands + delivered && hands' + got == hands + got'
    requires offered' + (inner + got + delivered) == offered + (inner' + got' + delivered')
    ensures offered' == inner' + hands' + delivered'
    ensures |hands'| + |got| == |hands| + |got'|
  {
    assert |hands' + got| == |hands + got'|;
    forall x: T
      ensures offered'[x] == (inner' + hands' + delivered')[x]
    {
      assert (hands' + got)[x] == (hands + got')[x];
      assert (offered' + (inner + got + delivered))[x] == (offered + (inner' + got' + delivered'))[x];
    }
  }

  /** A change of one thread's stage and frame that accounts for every item, announcement and permit it moves. */
  ghost predicate Accounted<T>(q: Queue<T>, t: nat, q': Queue<T>)
    requires t < |q.stages| == |q.sem.frames|
  {
    && |q'.stages| == |q.stages| && |q'.sem.frames| == |q.stages|
    && var s, s', f, f' := q.stages[t], q'.stages[t], q.sem.frames[t], q'.sem.frames[t];
    && q'.stages == q.stages[t := s'] && q'.sem.frames == q.sem.frames[t := f'] && Coupled(s', f')
    && q'.offered + (q.inner + Got(s) + q.delivered) == q.offered + (q'.inner + Got(s') + q'.delivered)
    && |q'.offered| - q'.sem.mem.issued - Unannounced(f') == |q.offered| - q.sem.mem.issued - Unannounced(f)
    && q'.sem.mem.returned - Left(s') - |Got(s')| - |q'.delivered|
       == q.sem.mem.returned - Left(s) - |Got(s)| - |q.delivered|
  }

  lemma AccountedKeepsInv<T>(q: Queue<T>, t: nat, q': Queue<T>)
    requires QueueInv(q) && t < |q.stages| && Accounted(q, t, q') && Inv(q'.sem)
    ensures QueueInv(q')
  {
    var s', f' := q'.stages[t], q'.sem.frames[t];
    InHandUpdate(q.stages, t, s');
    SumUpdate(q.stages, t, s', Left<T>);
    SumUpdate(q.sem.frames, t, f', Unannounced);
    BagAlgebra(q.offered, q.inner, InHand(q.stages), q.delivered, Got(q.stages[t]),
               q'.offered, q'.inner, InHand(q'.stages), q'.delivered, Got(s'));
  }

  lemma FreeAccounted<T>(q: Queue<T>, t: nat, a: Action<T>)
    requires QueueInv(q) && t < |q.stages| && q.stages[t].Free?
    ensures var q' := Perform(q, t, a); Accounted(q, t, q') && Inv(q'.sem)
  {
    if a.CallDequeue? {
      NextKeepsInv(q.sem, Begin(t, a.call));
    }
  }

  lemma InsertAccounted<T>(q: Queue<T>, t: nat, a: Action<T>)
    requires QueueInv(q) && t < |q.stages| && q.stages[t].Inserting?
    ensures var q' := Perform(q, t, a); Accounted(q, t, q') && Inv(q'.sem)
  {
    var items := q.stages[t].items;
    if a == Insert(true) {
      NextKeepsInv(q.sem, Begin(t, Signal(|items|)));
      assert q.offered + items + (q.inner + multiset{} + q.delivered)
          == q.offered + (q.inner + items + multiset{} + q.delivered);
    }
  }

  lemma StepAccounted<T>(q: Queue<T>, t: nat, choice: Choice)
    requires QueueInv(q) && t < |q.stages| && (q.stages[t].Announcing? || q.stages[t].Acquiring?)
    ensures var q' := SemaphorePart(q, t, SemaphoreStep(choice)); Accounted(q, t, q') && Inv(q'.sem)
  {
    var f := q.sem.frames[t];
    assert Coupled(q.stages[t], f) && FrameOk(f);
    NextKeepsInv(q.sem, Advance(t, choice));
    ActAnnounces(q.sem.mem, q.sem.maxSpins, f.call, f.at, choice);
  }

  lemma ReturnAccounted<T>(q: Queue<T>, t: nat)
    requires QueueInv(q) && t < |q.stages| && (q.stages[t].Announcing? || q.stages[t].Acquiring?)
    ensures var q' := SemaphorePart(q, t, SemaphoreReturn); Accounted(q, t, q') && Inv(q'.sem)
  {
    assert Coupled(q.stages[t], q.sem.frames[t]) && FrameOk(q.sem.frames[t]);
    NextKeepsInv(q.sem, Finish(t));
  }

  lemma ExtractAccounted<T>(q: Queue<T>, t: nat, a: Action<T>)
    requires QueueInv(q) && t < |q.stages| && q.stages[t].Extracting?
    ensures var q' := Perform(q, t, a); Accounted(q, t, q') && Inv(q'.sem)
  {
    var got := q.stages[t].got;
    if a.Extract? && a.items <= q.inner {
      assert q.inner == (q.inner - a.items) + a.items;
      assert q.inner + got + q.delivered == (q.inner - a.items) + (got + a.items) + q.delivered;
    } else if a.Deliver? {
      assert q.inner + got + q.delivered == q.inner + multiset{} + (q.delivered + got);
    }
  }

  lemma PerformKeepsInv<T>(q: Queue<T>, t: nat, a: Action<T>)
    requires QueueInv(q)
    ensures QueueInv(Perform(q, t, a))
  {
    if t < |q.stages| {
      match q.stages[t] {
        case Free => FreeAccounted(q, t, a);
        case Inserting(_) => InsertAccounted(q, t, a);
        case Extracting(_, _) => ExtractAccounted(q, t, a);
        case _ =>
          if a.SemaphoreStep? {
            StepAccounted(q, t, a.choice);
          } else if a.SemaphoreReturn? {
            ReturnAccounted(q, t);
          }
      }
      if Perform(q, t, a) != q {
        AccountedKeepsInv(q, t, Perform(q, t, a));
      }
    }
  }

  lemma ReturnPerformed<T>(q: Queue<T>, t: nat)
    requires QueueInv(q) && t < |q.stages| && (q.stages[t].Announcing? || q.stages[t].Acquiring?)
    ensures Perform(q, t, SemaphoreReturn) == SemaphorePart(q, t, SemaphoreReturn) && q.sem.frames[t].Active?
    ensures QueueInv(SemaphorePart(q, t, SemaphoreReturn))
  {
    assert Coupled(q.stages[t], q.sem.frames[t]);
    PerformKeepsInv(q, t, SemaphoreReturn);
  }

  /** An empty queue and threads that are doing nothing. */
  function InitQueue<T>(threads: nat, maxSpins: nat): Queue<T> {
    Queue(Init(threads, 0, maxSpins), multiset{}, seq(threads, _ => Free), multiset{}, multiset{})
  }

  lemma InitQueueInv<T>(threads: nat, maxSpins: nat)
    ensures QueueInv(InitQueue<T>(threads, maxSpins))
  {
    var q := InitQueue<T>(threads, maxSpins);
    InitInv(threads, 0, maxSpins);
    NothingInHand(q.stages);
    SumZero(q.stages, Left<T>);
    SumZero(q.sem.frames, Unannounced);
  }

  lemma {:induction false} NothingInHand<T>(stages: seq<Stage<T>>)
    requires forall i :: 0 <= i < |stages| ==> stages[i].Free?
    ensures InHand(stages) == multiset{}
  {
    if stages != [] {
      NothingInHand(stages[1..]);
    }
  }

  /** The queue after a whole schedule of thread actions. */
  ghost function RunQueue<T>(q: Queue<T>, schedule: seq<(nat, Action<T>)>): (q': Queue<T>)
    requires QueueInv(q)
    ensures QueueInv(q') && |q'.stages| == |q.stages|
    decreases schedule
  {
    if schedule == [] then q
    else
      var (t, a) := schedule[0];
      PerformKeepsInv(q, t, a);
      RunQueue(Perform(q, t, a), schedule[1..])
  }

  ghost function QueueAfter<T>(threads: nat, maxSpins: nat, schedule: seq<(nat, Action<T>)>): (q: Queue<T>)
    ensures QueueInv(q) && |q.stages| == threads
  {
    InitQueueInv<T>(threads, maxSpins);
    RunQueue(InitQueue(threads, maxSpins), schedule)
  }

  /**
   Where every item is: the inner queue holds one item for each spare or owed
   permit, each insertion not yet announced, and each permit granted for an item
   not yet extracted.
   */
  lemma InnerCount<T>(q: Queue<T>)
    requires QueueInv(q)
    ensures |q.inner| == (q.sem.mem.count + Sum(q.sem.frames, Waiting)) + Sum(q.sem.frames, Unannounced)
                         + (Sum(q.sem.frames, Held) + Sum(q.stages, Left<T>))
  {
    assert |q.offered| == |q.inner| + |InHand(q.stages)| + |q.delivered|;
  }

  /** A spinning consumer has its items reserved: taking all it still needs is possible in every reachable state. */
  lemma SpinCanFinish<T>(threads: nat, maxSpins: nat, schedule: seq<(nat, Action<T>)>, t: nat)
    returns (items: multiset<T>)
    requires t < threads && QueueAfter(threads, maxSpins, schedule).stages[t].Extracting?
    ensures var q := QueueAfter(threads, maxSpins, schedule);
      && q.stages[t].left <= |q.inner|
      && Perform(q, t, Extract(items)).stages[t] == Extracting(0, q.stages[t].got + items)
      && items <= q.inner && |items| == q.stages[t].left
  {
    var q := QueueAfter(threads, maxSpins, schedule);
    InnerCount(q);
    SumAtLeast(q.stages, t, Left<T>);
    items := Choose(q.inner, q.stages[t].left);
  }

  /** All consumers together: the reservations of different threads do not overlap. */
  lemma ReservationsFit<T>(threads: nat, maxSpins: nat, schedule: seq<(nat, Action<T>)>)
    ensures var q := QueueAfter(threads, maxSpins, schedule);
      Sum(q.stages, Left<T>) + Sum(q.sem.frames, Held) + Sum(q.sem.frames, Unannounced) <= |q.inner|
  {
    InnerCount(QueueAfter(threads, maxSpins, schedule));
  }

  lemma {:induction false} Choose<T>(bag: multiset<T>, n: nat) returns (part: multiset<T>)
    requires n <= |bag|
    ensures part <= bag && |part| == n
  {
    part := multiset{};
    if n > 0 {
      var x :| x in bag;
      part := Choose(bag - multiset{x}, n - 1);
      part := part + multiset{x};
    }
  }

  /** The size estimate never exceeds the number of items the inner queue holds. */
  lemma SizeApproxSafe<T>(threads: nat, maxSpins: nat, schedule: seq<(nat, Action<T>)>)
    ensures var q := QueueAfter(threads, maxSpins, schedule);
      AvailableApprox(q.sem.mem) <= |q.inner|
  {
    InnerCount(QueueAfter(threads, maxSpins, schedule));
  }

  /** Items are neither lost nor duplicated, and nothing is delivered that was not offered. */
  lemma ItemsConserved<T>(threads: nat, maxSpins: nat, schedule: seq<(nat, Action<T>)>)
    ensures var q := QueueAfter(threads, maxSpins, schedule);
      q.offered == q.inner + InHand(q.stages) + q.delivered && q.delivered <= q.offered
  {
    assert QueueInv(QueueAfter(threads, maxSpins, schedule));
  }

  /**
   A consumer that stays blocked leaves no item behind: with no token present and
   no signal under way, every item in the inner queue is reserved for a thread
   that already has its permit.
   */
  lemma BlockedLeavesNothing<T>(threads: nat, maxSpins: nat, schedule: seq<(nat, Action<T>)>, t: nat)
    requires var q := QueueAfter(threads, maxSpins, schedule);
      && t < threads && Waiting(q.sem.frames[t]) == 1 && q.sem.mem.tokens == 0
      && forall u :: 0 <= u < threads ==> !q.stages[u].Announcing?
    ensures var q := QueueAfter(threads, maxSpins, schedule);
      |q.inner| == Sum(q.sem.frames, Held) + Sum(q.stages, Left<T>)
  {
    var q := QueueAfter(threads, maxSpins, schedule);
    InnerCount(q);
    SumAtLeast(q.sem.frames, t, Waiting);
    forall u | 0 <= u < threads
      ensures Posting(q.sem.frames[u]) == 0 && Unannounced(q.sem.frames[u]) == 0
    {
      assert Coupled(q.stages[u], q.sem.frames[u]) && FrameOk(q.sem.frames[u]);
    }
    SumZero(q.sem.frames, Posting);
    SumZero(q.sem.frames, Unannounced);
  }

  /** With every thread outside the queue, the size estimate is exact. */
  lemma SizeWhenFree<T>(q: Queue<T>)
    requires QueueInv(q) && forall t :: 0 <= t < |q.stages| ==> q.stages[t].Free?
    ensures AvailableApprox(q.sem.mem) == |q.inner| && q.offered == q.inner + q.delivered
  {
    forall t | 0 <= t < |q.stages| ensures q.sem.frames[t].Idle? {
      assert Coupled(q.stages[t], q.sem.frames[t]);
    }
    SumZero(q.sem.frames, Waiting);
    SumZero(q.sem.frames, Held);
    SumZero(q.sem.frames, Posting);
    SumZero(q.sem.frames, Unannounced);
    SumZero(q.stages, Left<T>);
    NothingInHand(q.stages);
    InnerCount(q);
  }

  lemma SizeApproxExact<T>(threads: nat, maxSpins: nat, schedule: seq<(nat, Action<T>)>)
    requires forall t :: 0 <= t < threads ==> QueueAfter(threads, maxSpins, schedule).stages[t].Free?
    ensures var q := QueueAfter(threads, maxSpins, schedule);
      AvailableApprox(q.sem.mem) == |q.inner| && q.offered == q.inner + q.delivered
  {
    SizeWhenFree(QueueAfter(threads, maxSpins, schedule));
  }

  /** The items each thread has been asked to insert, as the events tell. */
  ghost function Asked<T>(q: Queue<T>, asked: seq<multiset<T>>, t: nat, a: Action<T>): seq<multiset<T>> {
    if t < |asked| == |q.stages| && q.stages[t].Free? && a.CallEnqueue? then asked[t := a.items] else asked
  }

  /** All items of the insertions that succeed in a schedule, collected from the events. */
  ghost function Insertions<T>(q: Queue<T>, asked: seq<multiset<T>>, schedule: seq<(nat, Action<T>)>): multiset<T>
    requires QueueInv(q) && |asked| == |q.stages|
    decreases schedule
  {
    if schedule == [] then multiset{}
    else
      var (t, a) := schedule[0];
      PerformKeepsInv(q, t, a);
      (if t < |q.stages| && q.stages[t].Inserting? && a == Insert(true) then asked[t] else multiset{})
        + Insertions(Perform(q, t, a), Asked(q, asked, t, a), schedule[1..])
  }

  ghost predicate AsAsked<T>(q: Queue<T>, asked: seq<multiset<T>>) {
    |asked| == |q.stages| && forall t :: 0 <= t < |asked| && q.stages[t].Inserting? ==> q.stages[t].items == asked[t]
  }

  /** One event adds to the items offered exactly the items asked for, if it is a successful insertion. */
  lemma OfferedStep<T>(q: Queue<T>, asked: seq<multiset<T>>, t: nat, a: Action<T>)
    requires QueueInv(q) && AsAsked(q, asked)
    ensures var q' := Perform(q, t, a);
      && AsAsked(q', Asked(q, asked, t, a))
      && q'.offered
         == q.offered + if t < |q.stages| && q.stages[t].Inserting? && a == Insert(true) then asked[t] else multiset{}
  {
  }

  lemma {:induction false} OfferedIsInserted<T>(q: Queue<T>, asked: seq<multiset<T>>, schedule: seq<(nat, Action<T>)>)
    requires QueueInv(q) && AsAsked(q, asked)
    ensures RunQueue(q, schedule).offered == q.offered + Insertions(q, asked, schedule)
    decreases schedule
  {
    if schedule != [] {
      var (t, a) := schedule[0];
      PerformKeepsInv(q, t, a);
      OfferedStep(q, asked, t, a);
      OfferedIsInserted(Perform(q, t, a), Asked(q, asked, t, a), schedule[1..]);
    }
  }

  /**
   No item is lost or invented: over every run, the items of all insertions that
   succeeded are inside, in threads' hands, or delivered.
   */
  lemma InsertedIsSomewhere<T>(threads: nat, maxSpins: nat, schedule: seq<(nat, Action<T>)>)
    ensures var q := QueueAfter(threads, maxSpins, schedule);
      Insertions(FirstQueue(threads, maxSpins), seq(threads, _ => multiset{}), schedule)
        == q.inner + InHand(q.stages) + q.delivered
  {
    var q := FirstQueue<T>(threads, maxSpins);
    OfferedIsInserted(q, seq(threads, _ => multiset{}), schedule);
  }

  ghost function FirstQueue<T>(threads: nat, maxSpins: nat): (q: Queue<T>)
    ensures QueueInv(q) && q == InitQueue(threads, maxSpins) && |q.stages| == threads
    ensures q.offered == multiset{} && forall t :: 0 <= t < threads ==> q.stages[t].Free?
  {
    InitQueueInv<T>(threads, maxSpins);
    InitQueue(threads, maxSpins)
  }

  /** The schedule leads from one state to the other. */
  ghost predicate Leads<T>(q: Queue<T>, schedule: seq<(nat, Action<T>)>, q': Queue<T>) {
    QueueInv(q) && QueueInv(q') && RunQueue(q, schedule) == q'
  }

  lemma LeadsOne<T>(q: Queue<T>, t: nat, a: Action<T>)
    requires QueueInv(q)
    ensures Leads(q, [(t, a)], Perform(q, t, a))
  {
    PerformKeepsInv(q, t, a);
    assert [(t, a)][1..] == [];
  }

  lemma {:induction false} LeadsThen<T>(
    q: Queue<T>, first: seq<(nat, Action<T>)>, second: seq<(nat, Action<T>)>, q': Queue<T>)
    requires QueueInv(q) && Leads(RunQueue(q, first), second, q')
    ensures Leads(q, first + second, q')
    decreases first
  {
    if first == [] {
      assert first + second == second;
    } else {
      var (t, a) := first[0];
      assert (first + second)[1..] == first[1..] + second;
      PerformKeepsInv(q, t, a);
      LeadsThen(Perform(q, t, a), first[1..], second, q');
    }
  }

  lemma LeadsNext<T>(q: Queue<T>, first: seq<(nat, Action<T>)>, q1: Queue<T>, t: nat, a: Action<T>)
    requires Leads(q, first, q1)
    ensures Leads(q, first + [(t, a)], Perform(q1, t, a))
  {
    LeadsOne(q1, t, a);
    LeadsThen(q, first, [(t, a)], Perform(q1, t, a));
  }

  /** A step of a thread's semaphore call acts on the semaphore and on nothing else. */
  lemma StepLeads<T>(q: Queue<T>, t: nat, choice: Choice)
    requires QueueInv(q) && t < |q.stages| && (q.stages[t].Announcing? || q.stages[t].Acquiring?)
    ensures Leads(q, [(t, SemaphoreStep(choice))], q.(sem := Next(q.sem, Advance(t, choice))))
  {
    LeadsOne(q, t, SemaphoreStep(choice));
  }

  lemma {:induction false} CallLeads<T>(q: Queue<T>, t: nat, steps: seq<Event>)
    returns (schedule: seq<(nat, Action<T>)>)
    requires QueueInv(q) && t < |q.stages| && (q.stages[t].Announcing? || q.stages[t].Acquiring?) && OwnSteps(t, steps)
    ensures Leads(q, schedule, q.(sem := Run(q.sem, steps)))
    decreases steps
  {
    schedule := [];
    if steps != [] {
      var choice := steps[0].choice;
      assert steps[0] in steps && steps[0] == Advance(t, choice);
      StepLeads(q, t, choice);
      var q1 := q.(sem := Next(q.sem, Advance(t, choice)));
      var rest := CallLeads(q1, t, steps[1..]);
      schedule := [(t, SemaphoreStep(choice))] + rest;
      LeadsThen(q, [(t, SemaphoreStep(choice))], rest, q1.(sem := Run(q1.sem, steps[1..])));
    }
  }

  /** The state of a queue in which one thread stands at another point and the semaphore has another memory. */
  function Moved<T>(q: Queue<T>, t: nat, stage: Stage<T>, frame: Frame, mem: Memory): Queue<T>
    requires t < |q.stages| == |q.sem.frames|
  {
    q.(stages := q.stages[t := stage], sem := q.sem.(mem := mem, frames := q.sem.frames[t := frame]))
  }

  lemma MovedBack<T>(q: Queue<T>, t: nat, mem: Memory)
    requires QueueInv(q) && t < |q.stages| && q.stages[t].Free?
    ensures Moved(q, t, Free, Idle, mem) == q.(sem := q.sem.(mem := mem))
  {
    assert Coupled(q.stages[t], q.sem.frames[t]);
    assert q.stages[t := Free] == q.stages && q.sem.frames[t := Idle] == q.sem.frames;
  }

  lemma InsertLeads<T>(q: Queue<T>, t: nat, items: multiset<T>) returns (schedule: seq<(nat, Action<T>)>, q': Queue<T>)
    requires QueueInv(q) && t < |q.stages| && q.stages[t].Free?
    ensures Leads(q, schedule, q')
    ensures q' == Moved(q.(inner := q.inner + items, offered := q.offered + items),
                        t, Announcing, Active(Signal(|items|), Add), q.sem.mem)
  {
    assert Coupled(q.stages[t], q.sem.frames[t]);
    LeadsOne(q, t, CallEnqueue(items));
    var asked := Perform(q, t, CallEnqueue(items));
    LeadsNext(q, [(t, CallEnqueue(items))], asked, t, Insert(true));
    schedule := [(t, CallEnqueue(items))] + [(t, Insert(true))];
    q' := Perform(asked, t, Insert(true));
    assert q.stages[t := Inserting(items)][t := Announcing] == q.stages[t := Announcing];
  }

  /**
   The sequential meaning of the enqueue operations: run alone, an insertion that
   succeeds puts all its items in, adds a permit for each, and posts a token for each
   waiting consumer it has an item for.
   */
  lemma EnqueueAlone<T>(q: Queue<T>, t: nat, items: multiset<T>) returns (schedule: seq<(nat, Action<T>)>)
    requires QueueInv(q) && t < |q.stages| && q.stages[t].Free?
    ensures RunQueue(q, schedule)
         == q.(inner := q.inner + items, offered := q.offered + items,
               sem := q.sem.(mem := AfterSignal(q.sem.mem, |items|)))
  {
    var first, q1 := InsertLeads(q, t, items);
    var steps := CallSteps(q1.sem, t);
    var second := CallLeads(q1, t, steps);
    var q2 := q1.(sem := Run(q1.sem, steps));
    LeadsThen(q, first, second, q2);
    LeadsNext(q, first + second, q2, t, SemaphoreReturn);
    schedule := first + second + [(t, SemaphoreReturn)];
    AnnouncedReturns(q, t, items, q2);
  }

  lemma AnnouncedReturns<T>(q: Queue<T>, t: nat, items: multiset<T>, q2: Queue<T>)
    requires QueueInv(q) && t < |q.stages| && q.stages[t].Free? && QueueInv(q2)
    requires q2 == Moved(q.(inner := q.inner + items, offered := q.offered + items),
                         t, Announcing, Active(Signal(|items|), Done(0)), AfterSignal(q.sem.mem, |items|))
    ensures Perform(q2, t, SemaphoreReturn)
         == q.(inner := q.inner + items, offered := q.offered + items,
               sem := q.sem.(mem := AfterSignal(q.sem.mem, |items|)))
  {
    MovedBack(q, t, AfterSignal(q.sem.mem, |items|));
    assert q2.stages[t := Free] == q.stages[t := Free] && q2.sem.frames[t := Idle] == q.sem.frames[t := Idle];
  }

  /** A consumer with permits can extract that many items and deliver them. */
  lemma ExtractsAlone<T>(q: Queue<T>, t: nat, k: nat) returns (items: multiset<T>)
    requires QueueInv(q) && t < |q.stages| && q.stages[t] == Extracting(k, multiset{})
    ensures |items| == k && items <= q.inner
    ensures Leads(q, [(t, Extract(items))] + [(t, Deliver)],
                  q.(stages := q.stages[t := Free], inner := q.inner - items, delivered := q.delivered + items))
  {
    items := ItemsLeft(q, t);
    LeadsOne(q, t, Extract(items));
    var extracted := Perform(q, t, Extract(items));
    assert multiset{} + items == items;
    assert extracted == q.(stages := q.stages[t := Extracting(0, items)], inner := q.inner - items);
    LeadsNext(q, [(t, Extract(items))], extracted, t, Deliver);
    assert q.stages[t := Extracting(0, items)][t := Free] == q.stages[t := Free];
  }

  lemma ItemsLeft<T>(q: Queue<T>, t: nat) returns (items: multiset<T>)
    requires QueueInv(q) && t < |q.stages| && q.stages[t].Extracting?
    ensures |items| == q.stages[t].left && items <= q.inner
  {
    InnerCount(q);
    SumAtLeast(q.stages, t, Left<T>);
    items := Choose(q.inner, q.stages[t].left);
  }

  /** A dequeue operation that needs no other thread's help, alone, up to its return from the semaphore. */
  lemma AcquireLeads<T>(q: Queue<T>, t: nat, call: Call) returns (schedule: seq<(nat, Action<T>)>)
    requires QueueInv(q) && t < |q.stages| && q.stages[t].Free? && !call.Signal? && NeedsNoHelp(q.sem.mem, call)
    ensures Result(q.sem.mem, call) >= 0
    ensures Leads(q, schedule,
      Moved(q, t, Acquiring, Active(call, Done(Result(q.sem.mem, call))), AfterCall(q.sem.mem, call)))
  {
    assert Coupled(q.stages[t], q.sem.frames[t]);
    LeadsOne(q, t, CallDequeue(call));
    var asked := Perform(q, t, CallDequeue(call));
    var steps := CallSteps(asked.sem, t);
    var rest := CallLeads(asked, t, steps);
    schedule := [(t, CallDequeue(call))] + rest;
    LeadsThen(q, [(t, CallDequeue(call))], rest, asked.(sem := Run(asked.sem, steps)));
    assert q.sem.frames[t := Active(call, TryLoad(false))][t := Active(call, Done(Result(q.sem.mem, call)))]
        == q.sem.frames[t := Active(call, Done(Result(q.sem.mem, call)))];
  }

  /**
   The sequential meaning of the dequeue operations: run alone, a call that needs no
   other thread's help takes as many items as there are spare permits, up to its
   maximum, and delivers them.
   */
  lemma DequeueAlone<T>(q: Queue<T>, t: nat, call: Call) returns (schedule: seq<(nat, Action<T>)>, items: multiset<T>)
    requires QueueInv(q) && t < |q.stages| && q.stages[t].Free? && !call.Signal? && NeedsNoHelp(q.sem.mem, call)
    ensures |items| == Result(q.sem.mem, call) && items <= q.inner
    ensures RunQueue(q, schedule)
         == q.(inner := q.inner - items, delivered := q.delivered + items,
               sem := q.sem.(mem := Taken(q.sem.mem, |items|).(returned := q.sem.mem.returned + |items|)))
  {
    var first := AcquireLeads(q, t, call);
    var k: nat := Result(q.sem.mem, call);
    var q1 := Moved(q, t, Acquiring, Active(call, Done(k)), AfterCall(q.sem.mem, call));
    LeadsNext(q, first, q1, t, SemaphoreReturn);
    var q2 := Perform(q1, t, SemaphoreReturn);
    AcquiredReturns(q, t, call, k, q1);
    items := ExtractsAlone(q2, t, k);
    var last := [(t, Extract(items))] + [(t, Deliver)];
    var q3 := q2.(stages := q2.stages[t := Free], inner := q2.inner - items, delivered := q2.delivered + items);
    LeadsThen(q, first + [(t, SemaphoreReturn)], last, q3);
    schedule := first + [(t, SemaphoreReturn)] + last;
    MovedBack(q, t, q2.sem.mem);
    assert q2.stages[t := Free] == q.stages[t := Free];
  }

  lemma AcquiredReturns<T>(q: Queue<T>, t: nat, call: Call, k: nat, q1: Queue<T>)
    requires QueueInv(q) && QueueInv(q1) && t < |q.stages| && !call.Signal?
    requires q1 == Moved(q, t, Acquiring, Active(call, Done(k)), AfterCall(q.sem.mem, call))
    ensures Perform(q1, t, SemaphoreReturn)
         == Moved(q, t, Extracting(k, multiset{}), Idle,
                  AfterCall(q.sem.mem, call).(returned := AfterCall(q.sem.mem, call).returned + k))
  {
    assert q1.stages[t := Extracting(k, multiset{})] == q.stages[t := Extracting(k, multiset{})];
    assert q1.sem.frames[t := Idle] == q.sem.frames[t := Idle];
  }
}
