/** Request ids and the matching of responses to requests on the worker channel. */
module ChannelRequests {

  const MAX_ID := 0xFFFF_FFFF

  type uint32 = n: int | 0 <= n <= MAX_ID

  /** The counter after one more id; it wraps to 1, so 0 is never an id. */
  function NextId(last: uint32): uint32 {
    if last < MAX_ID then last + 1 else 1
  }

  /** The id of the `k`-th call, starting from a counter value. */
  function IdAfter(start: uint32, k: nat): uint32 {
    if k == 0 then start else NextId(IdAfter(start, k - 1))
  }

  lemma ModStep(x: nat)
    ensures (x + 1) % MAX_ID == if x % MAX_ID + 1 == MAX_ID then 0 else x % MAX_ID + 1
  {
  }

  /** The ids run through 1 to 2^32 - 1 in a cycle. */
  lemma {:induction false} IdClosedForm(start: uint32, k: nat)
    requires k > 0
    ensures IdAfter(start, k) == (start + k - 1) % MAX_ID + 1
  {
    if k > 1 {
      IdClosedForm(start, k - 1);
      ModStep(start + k - 2);
    }
  }

  lemma ModEqual(x: nat, y: nat)
    requires x <= y
    ensures x % MAX_ID == y % MAX_ID <==> (y - x) % MAX_ID == 0
  {
  }

  /** No id is 0, and two calls get the same id exactly when a multiple of 2^32 - 1 calls lies between them. */
  lemma IdsCycle(start: uint32, i: nat, j: nat)
    requires 0 < i <= j
    ensures IdAfter(start, i) != 0
    ensures IdAfter(start, i) == IdAfter(start, j) <==> (j - i) % MAX_ID == 0
  {
    IdClosedForm(start, i);
    IdClosedForm(start, j);
    ModEqual(start + i - 1, start + j - 1);
  }

  datatype Reply = Accepted | Rejected | Neither

  datatype Outcome = Resolved | Failed

  /**
   `made` ids so far, one for each request, numbered from 0; `unsent` are the requests
   that have their id and are not registered yet; `pending` is the callback map from
   ids to request numbers; `outcomes` are the settled requests.
   */
  datatype Ledger = Ledger(
    nextId: uint32,
    made: nat,
    unsent: set<nat>,
    pending: map<uint32, nat>,
    outcomes: map<nat, Outcome>)

  datatype Event = Generate | Register(r: nat) | Respond(id: uint32, reply: Reply)

  function Init(): Ledger {
    Ledger(0, 0, {}, map[], map[])
  }

  /** The id of request number `r`. */
  function IdOf(r: nat): uint32 {
    IdAfter(0, r + 1)
  }

  /** Taking an id and registering the callback under it are two steps; other threads may come between them. */
  function Next(l: Ledger, e: Event): Ledger {
    match e
    case Generate => l.(nextId := NextId(l.nextId), made := l.made + 1, unsent := l.unsent + {l.made})
    case Register(r) =>
      if r !in l.unsent then l
      else l.(unsent := l.unsent - {r}, pending := if IdOf(r) in l.pending then l.pending else l.pending[IdOf(r) := r])
    case Respond(id, reply) =>
      if id !in l.pending || reply.Neither? then l
      else l.(pending := l.pending - {id},
              outcomes := l.outcomes[l.pending[id] := if reply.Accepted? then Resolved else Failed])
  }

  /** A pending request is registered under its own id and is not settled. */
  ghost predicate LedgerInv(l: Ledger) {
    && l.nextId == IdAfter(0, l.made)
    && (forall r :: r in l.unsent ==> r < l.made && r !in l.outcomes)
    && (forall id :: id in l.pending ==>
          && l.pending[id] < l.made && id == IdOf(l.pending[id])
          && l.pending[id] !in l.outcomes && l.pending[id] !in l.unsent)
    && (forall r :: r in l.outcomes ==> r < l.made)
  }

  lemma NextKeepsLedger(l: Ledger, e: Event)
    requires LedgerInv(l)
    ensures LedgerInv(Next(l, e))
  {
    var l' := Next(l, e);
    if e.Respond? && l' != l {
      forall id | id in l'.pending ensures l'.pending[id] !in l'.outcomes {
        assert id != e.id && IdOf(l.pending[id]) == id;
      }
    }
  }

  ghost function Run(l: Ledger, events: seq<Event>): (l': Ledger)
    requires LedgerInv(l)
    ensures LedgerInv(l')
    decreases events
  {
    if events == [] then l
    else
      NextKeepsLedger(l, events[0]);
      Run(Next(l, events[0]), events[1..])
  }

  predicate Waiting(l: Ledger, r: nat) {
    IdOf(r) in l.pending && l.pending[IdOf(r)] == r
  }

  function Apart(q: nat, r: nat): nat {
    if q <= r then r - q else q - r
  }

  /** A request is registered exactly when no waiting request is a multiple of 2^32 - 1 requests away from it. */
  lemma RegisteredIff(l: Ledger, r: nat)
    requires LedgerInv(l) && r in l.unsent
    ensures Waiting(Next(l, Register(r)), r)
       <==> forall q: nat :: q < l.made && Waiting(l, q) ==> Apart(q, r) % MAX_ID != 0
  {
    forall q: nat | q < l.made ensures IdOf(q) == IdOf(r) <==> Apart(q, r) % MAX_ID == 0 {
      if q <= r {
        IdsCycle(0, q + 1, r + 1);
      } else {
        IdsCycle(0, r + 1, q + 1);
      }
    }
    if IdOf(r) in l.pending {
      assert Waiting(l, l.pending[IdOf(r)]);
    }
  }

  /** One response: it settles a waiting request exactly if it carries that request's id and accepts or rejects. */
  lemma SettledBy(l: Ledger, r: nat, id: uint32, reply: Reply)
    requires LedgerInv(l) && Waiting(l, r)
    ensures var l' := Next(l, Respond(id, reply));
      if id == IdOf(r) && !reply.Neither?
      then !Waiting(l', r) && r in l'.outcomes && l'.outcomes[r] == (if reply.Accepted? then Resolved else Failed)
      else Waiting(l', r) && r !in l'.outcomes
  {
    if id in l.pending && id != IdOf(r) {
      assert id == IdOf(l.pending[id]);
    }
  }

  /** A response nobody waits for, such as a second answer to the same request, changes nothing. */
  lemma StrayResponse(l: Ledger, id: uint32, reply: Reply)
    requires LedgerInv(l) && forall r: nat :: r < l.made && IdOf(r) == id ==> !Waiting(l, r)
    ensures Next(l, Respond(id, reply)) == l
  {
    if id in l.pending {
      assert Waiting(l, l.pending[id]);
    }
  }

  /** A settled request stays settled the same way, whatever happens later. */
  lemma {:induction false} OutcomesStable(l: Ledger, events: seq<Event>, r: nat)
    requires LedgerInv(l) && r in l.outcomes
    ensures r in Run(l, events).outcomes && Run(l, events).outcomes[r] == l.outcomes[r]
    decreases events
  {
    if events != [] {
      NextKeepsLedger(l, events[0]);
      OutcomesStable(Next(l, events[0]), events[1..], r);
    }
  }

  /** No request is registered while one is waiting whose id has come round since, or will have. */
  predicate Prompt(l: Ledger, events: seq<Event>)
    decreases events
  {
    events != [] ==>
      && (events[0].Register? && events[0].r in l.unsent ==>
            forall q :: 0 <= q < l.made && Waiting(l, q) ==> Apart(q, events[0].r) < MAX_ID)
      && Prompt(Next(l, events[0]), events[1..])
  }

  ghost predicate AllAccountedFor(l: Ledger) {
    forall r :: 0 <= r < l.made ==> r in l.unsent || Waiting(l, r) || r in l.outcomes
  }

  lemma NextAccounts(l: Ledger, e: Event)
    requires LedgerInv(l) && AllAccountedFor(l) && Prompt(l, [e])
    ensures AllAccountedFor(Next(l, e))
  {
    var l' := Next(l, e);
    forall r | 0 <= r < l'.made ensures r in l'.unsent || Waiting(l', r) || r in l'.outcomes {
      if e.Register? && r == e.r && r in l.unsent {
        RegisteredIff(l, r);
        forall q: nat | q < l.made && Waiting(l, q) ensures Apart(q, r) % MAX_ID != 0 {
          assert 0 < Apart(q, r) < MAX_ID;
        }
      } else if e.Respond? && Waiting(l, r) {
        SettledBy(l, r, e.id, e.reply);
      }
    }
  }

  /**
   If requests are answered before their ids come round, every request is settled,
   waits under its own id, or is still to be registered.
   */
  lemma {:induction false} PromptRunsLoseNothing(l: Ledger, events: seq<Event>)
    requires LedgerInv(l) && AllAccountedFor(l) && Prompt(l, events)
    ensures AllAccountedFor(Run(l, events))
    decreases events
  {
    if events != [] {
      assert [events[0]][1..] == [];
      NextAccounts(l, events[0]);
      NextKeepsLedger(l, events[0]);
      PromptRunsLoseNothing(Next(l, events[0]), events[1..]);
    }
  }

  /** The channel object. A callback is known by the number of its request. */
  class Channel {
    var nextId: uint32
    var callbackMap: map<uint32, nat>
    var made: nat
    ghost var unsent: set<nat>
    ghost var outcomes: map<nat, Outcome>

    ghost function View(): Ledger
      reads this
    {
      Ledger(nextId, made, unsent, callbackMap, outcomes)
    }

    ghost predicate Valid()
      reads this
    {
      LedgerInv(View())
    }

    constructor ()
      ensures View() == Init() && Valid()
    {
      nextId, callbackMap, made, unsent, outcomes := 0, map[], 0, {}, map[];
    }

    /** The next id, and the number of the request it is for. */
    method GenRequestId() returns (id: uint32, r: nat)
      requires Valid()
      modifies this`nextId, this`made, this`unsent
      ensures Valid() && View() == Next(old(View()), Generate)
      ensures r == old(made) && r in unsent && id == IdOf(r) == NextId(old(nextId)) && id != 0
    {
      NextKeepsLedger(View(), Generate);
      r := made;
      if nextId < MAX_ID {
        nextId := nextId + 1;
      } else {
        nextId := 1;
      }
      id := nextId;
      made, unsent := made + 1, unsent + {r};
    }

    /** Registers the callback of a request under its id, unless an older one is still there. */
    method Request(id: uint32, r: nat)
      requires Valid() && r in unsent && id == IdOf(r)
      modifies this`callbackMap, this`unsent
      ensures Valid() && View() == Next(old(View()), Register(r))
      ensures id in callbackMap && (id in old(callbackMap) ==> callbackMap == old(callbackMap))
    {
      NextKeepsLedger(View(), Register(r));
      if id !in callbackMap {
        callbackMap := callbackMap[id := r];
      }
      unsent := unsent - {r};
    }

    method ProcessResponse(id: uint32, reply: Reply)
      requires Valid()
      modifies this`callbackMap, this`outcomes
      ensures Valid() && View() == Next(old(View()), Respond(id, reply))
    {
      NextKeepsLedger(View(), Respond(id, reply));
      if id !in callbackMap || reply.Neither? {
        return;
      }
      outcomes := outcomes[callbackMap[id] := if reply.Accepted? then Resolved else Failed];
      callbackMap := callbackMap - {id};
    }
  }
}
