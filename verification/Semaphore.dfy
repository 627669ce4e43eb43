/**
 The step system of the lightweight semaphore: a signed atomic count in front of
 a kernel semaphore. Any number of threads run the semaphore's operations, and
 each step is one atomic operation of one thread: a load, an exchange, an
 addition, or one operation of the kernel semaphore. Atomic operations are
 sequentially consistent.

 A wait for a single permit is a bulk wait with a maximum of 1: the two bodies
 take the same branches for that maximum.
 */
module Semaphore {
  import opened Sums

  /** The sign of the timeout argument: negative, zero or positive. */
  datatype Timeout = Forever | Immediate | Bounded

  datatype Call =
    | TryWaitMany(max: nat)
    | WaitMany(max: nat, timeout: Timeout)
    | Signal(count: nat)

  /** Where a thread stands inside a call; `seen` is its local copy of the count. */
  datatype Point =
    | TryLoad(topUp: bool)
    | TryExchange(topUp: bool, seen: int)
    | SpinLoad(spins: nat)
    | SpinExchange(spins: nat, seen: int)
    | Register
    | Block
    | UndoLoad
    | UndoTry
    | UndoExchange(seen: int)
    | Add
    | Post(left: nat)
    | Done(granted: nat)

  datatype Frame = Idle | Active(call: Call, at: Point)

  /**
   What the threads share: the count and the kernel semaphore's tokens. The other
   fields only record history: `issued` is the initial count plus all permits
   signalled, `granted` the permits taken, `returned` the permits that calls have
   handed to their callers.
   */
  datatype Memory = Memory(count: int, tokens: nat, issued: nat, granted: nat, returned: nat)

  datatype State = State(mem: Memory, maxSpins: nat, frames: seq<Frame>)

  /** What the environment decides: a weak exchange may fail, a timeout may fire. */
  datatype Choice = Proceed | Disturb

  datatype Event =
    | Begin(t: nat, call: Call)
    | Advance(t: nat, choice: Choice)
    | Finish(t: nat)

  function Min(a: int, b: int): int {
    if a < b then a else b
  }

  function Shortfall(count: int): nat {
    if count < 0 then -count else 0
  }

  /** What is left of a positive count when up to `max` permits are taken from it. */
  function Remainder(count: int, max: nat): (left: int)
    ensures count > 0 ==> left >= 0 && count - left == Min(count, max)
  {
    if count > max then count - max else 0
  }

  /** Lowering the count from `m.count` to `left` grants the difference. */
  function Take(m: Memory, left: int): Memory
    requires left <= m.count
  {
    m.(count := left, granted := m.granted + (m.count - left))
  }

  function TakeToken(m: Memory): Memory
    requires m.tokens > 0
  {
    m.(tokens := m.tokens - 1, granted := m.granted + 1)
  }

  function Start(call: Call): Point {
    if call.Signal? then Add else TryLoad(false)
  }

  /** The head of the try loop, with the count the thread has just seen. */
  function TryHead(call: Call, topUp: bool, seen: int, maxSpins: nat): Point
    requires !call.Signal?
  {
    if seen > 0 then TryExchange(topUp, seen) else TryExit(call, topUp, 0, maxSpins)
  }

  /** Where a try loop that obtained `got` permits returns to. */
  function TryExit(call: Call, topUp: bool, got: nat, maxSpins: nat): Point
    requires !call.Signal?
  {
    if topUp then Done(1 + got)
    else if call.WaitMany? && got == 0 && call.max > 0 then SpinLoad(maxSpins)
    else Done(got)
  }

  /** After the first permit of a blocking wait, the rest is tried for. */
  function Acquired(call: Call): Point
    requires !call.Signal?
  {
    if call.max > 1 then TryLoad(true) else Done(1)
  }

  /** What a call may return: at most what was asked, and an endless wait never comes back empty. */
  predicate ResultOk(call: Call, k: nat) {
    match call
    case TryWaitMany(max) => k <= max
    case WaitMany(max, timeout) => k <= max && (timeout.Forever? && max > 0 ==> k > 0)
    case Signal(_) => k == 0
  }

  /** Which points each call can reach, and what is known of a thread there. */
  predicate PointOk(call: Call, at: Point) {
    match at
    case TryLoad(topUp) => !call.Signal? && (topUp ==> call.WaitMany? && call.max > 1)
    case TryExchange(topUp, seen) => !call.Signal? && seen > 0 && (topUp ==> call.WaitMany? && call.max > 1)
    case SpinLoad(_) => call.WaitMany? && call.max > 0
    case SpinExchange(_, seen) => call.WaitMany? && call.max > 0 && seen > 0
    case Register => call.WaitMany? && call.max > 0
    case Block => call.WaitMany? && call.max > 0 && !call.timeout.Immediate?
    case UndoLoad => call.WaitMany? && call.max > 0 && !call.timeout.Forever?
    case UndoTry => call.WaitMany? && call.max > 0 && !call.timeout.Forever?
    case UndoExchange(seen) => call.WaitMany? && call.max > 0 && !call.timeout.Forever? && seen < 0
    case Add => call.Signal?
    case Post(left) => call.Signal? && left > 0
    case Done(k) => ResultOk(call, k)
  }

  predicate FrameOk(f: Frame) {
    f.Active? ==> PointOk(f.call, f.at)
  }

  predicate FramesOk(frames: seq<Frame>) {
    forall i :: 0 <= i < |frames| ==> FrameOk(frames[i])
  }

  /** The loop that takes permits while the count is positive. */
  function TryStep(m: Memory, maxSpins: nat, call: Call, at: Point, choice: Choice): (Memory, Point)
    requires PointOk(call, at) && (at.TryLoad? || at.TryExchange?)
  {
    match at
    case TryLoad(topUp) =>
      (m, TryHead(call, topUp, m.count, maxSpins))
    case TryExchange(topUp, seen) =>
      if m.count == seen && choice.Proceed? then
        var left := Remainder(seen, if topUp then call.max - 1 else call.max);
        (Take(m, left), TryExit(call, topUp, seen - left, maxSpins))
      else
        (m, TryHead(call, topUp, m.count, maxSpins))
  }

  /** The bounded spinning phase, which ends by lowering the count once. */
  function SpinStep(m: Memory, call: Call, at: Point): (Memory, Point)
    requires PointOk(call, at) && (at.SpinLoad? || at.SpinExchange? || at.Register?)
  {
    match at
    case SpinLoad(spins) =>
      (m, if spins == 0 then Register
          else if m.count > 0 then SpinExchange(spins - 1, m.count) else SpinLoad(spins - 1))
    case SpinExchange(spins, seen) =>
      if m.count == seen then
        var left := Remainder(seen, call.max);
        (Take(m, left), Done(seen - left))
      else
        (m, SpinLoad(spins))
    case Register =>
      if m.count > 0 then (Take(m, m.count - 1), Acquired(call))
      else (m.(count := m.count - 1), if call.timeout.Immediate? then UndoLoad else Block)
  }

  /** Blocking on the kernel semaphore, and undoing the registration after a timeout. */
  function BlockStep(m: Memory, call: Call, at: Point, choice: Choice): (Memory, Point)
    requires PointOk(call, at) && (at.Block? || at.UndoLoad? || at.UndoTry? || at.UndoExchange?)
  {
    match at
    case Block =>
      if choice.Disturb? && call.timeout.Bounded? then (m, UndoLoad)
      else if m.tokens > 0 then (TakeToken(m), Acquired(call))
      else (m, Block)
    case UndoLoad =>
      (m, if m.count >= 0 then UndoTry else UndoExchange(m.count))
    case UndoTry =>
      if m.tokens > 0 then (TakeToken(m), Acquired(call)) else (m, UndoLoad)
    case UndoExchange(seen) =>
      if m.count == seen then (m.(count := seen + 1), Done(0)) else (m, UndoLoad)
  }

  function SignalStep(m: Memory, call: Call, at: Point): (Memory, Point)
    requires PointOk(call, at) && (at.Add? || at.Post?)
  {
    match at
    case Add =>
      var release := Min(-m.count, call.count);
      (m.(count := m.count + call.count, issued := m.issued + call.count),
       if release > 0 then Post(release) else Done(0))
    case Post(left) =>
      (m.(tokens := m.tokens + 1), if left > 1 then Post(left - 1) else Done(0))
  }

  /** One atomic operation of a thread that is inside a call. */
  function Act(m: Memory, maxSpins: nat, call: Call, at: Point, choice: Choice): (Memory, Point)
    requires PointOk(call, at)
  {
    if at.TryLoad? || at.TryExchange? then TryStep(m, maxSpins, call, at, choice)
    else if at.SpinLoad? || at.SpinExchange? || at.Register? then SpinStep(m, call, at)
    else if at.Add? || at.Post? then SignalStep(m, call, at)
    else if at.Done? then (m, at)
    else BlockStep(m, call, at, choice)
  }

  /** One event; an event that is not possible changes nothing. */
  function Next(s: State, e: Event): State
    requires FramesOk(s.frames)
  {
    if e.t >= |s.frames| then s else
    var f := s.frames[e.t];
    match e
    case Begin(t, call) =>
      if f.Idle? then s.(frames := s.frames[t := Active(call, Start(call))]) else s
    case Advance(t, choice) =>
      if f.Idle? then s else
      var (mem, at) := Act(s.mem, s.maxSpins, f.call, f.at, choice);
      s.(mem := mem, frames := s.frames[t := f.(at := at)])
    case Finish(t) =>
      if f.Active? && f.at.Done? then
        s.(mem := s.mem.(returned := s.mem.returned + f.at.granted), frames := s.frames[t := Idle])
      else s
  }

  /** 1 for a thread that has lowered the count and is still owed a permit. */
  function Waiting(f: Frame): nat {
    if f.Active? && (f.at.Block? || f.at.UndoLoad? || f.at.UndoTry? || f.at.UndoExchange?) then 1 else 0
  }

  /** Tokens a signaller has promised and not yet posted. */
  function Posting(f: Frame): nat {
    if f.Active? && f.at.Post? then f.at.left else 0
  }

  /** Permits of a signal that has not yet reached the count. */
  function Unannounced(f: Frame): nat {
    if f.Active? && f.at.Add? && f.call.Signal? then f.call.count else 0
  }

  /** Permits a thread has taken and not yet handed to its caller. */
  function Held(f: Frame): nat {
    if !f.Active? then 0
    else match f.at
      case TryLoad(topUp) => if topUp then 1 else 0
      case TryExchange(topUp, _) => if topUp then 1 else 0
      case Done(k) => k
      case _ => 0
  }

  ghost predicate Inv(s: State) {
    && FramesOk(s.frames)
    && s.mem.issued == s.mem.count + s.mem.granted + Sum(s.frames, Waiting)
    && Sum(s.frames, Waiting) == Shortfall(s.mem.count) + s.mem.tokens + Sum(s.frames, Posting)
    && s.mem.granted == s.mem.returned + Sum(s.frames, Held)
  }

  function Init(threads: nat, initialCount: nat, maxSpins: nat): State {
    State(Memory(initialCount, 0, initialCount, 0, 0), maxSpins, seq(threads, _ => Idle))
  }

  lemma InitInv(threads: nat, initialCount: nat, maxSpins: nat)
    ensures Inv(Init(threads, initialCount, maxSpins))
  {
    var frames := Init(threads, initialCount, maxSpins).frames;
    SumZero(frames, Waiting);
    SumZero(frames, Posting);
    SumZero(frames, Held);
  }

  /** The step of one thread moves the shared counters by exactly what its own frame accounts for. */
  ghost predicate Balanced(m: Memory, f: Frame, m': Memory, f': Frame) {
    && FrameOk(f')
    && m'.issued - m'.count - m'.granted - Waiting(f') == m.issued - m.count - m.granted - Waiting(f)
    && Waiting(f') - Shortfall(m'.count) - m'.tokens - Posting(f')
       == Waiting(f) - Shortfall(m.count) - m.tokens - Posting(f)
    && m'.granted - m'.returned - Held(f') == m.granted - m.returned - Held(f)
  }

  lemma ActBalanced(m: Memory, maxSpins: nat, call: Call, at: Point, choice: Choice)
    requires PointOk(call, at)
    ensures var (m', at') := Act(m, maxSpins, call, at, choice);
      Balanced(m, Active(call, at), m', Active(call, at'))
  {
    if at.TryLoad? || at.TryExchange? {
      TryBalanced(m, maxSpins, call, at, choice);
    } else if at.SpinLoad? || at.SpinExchange? || at.Register? {
      SpinBalanced(m, call, at);
    }
  }

  lemma TryBalanced(m: Memory, maxSpins: nat, call: Call, at: Point, choice: Choice)
    requires PointOk(call, at) && (at.TryLoad? || at.TryExchange?)
    ensures var (m', at') := TryStep(m, maxSpins, call, at, choice);
      Balanced(m, Active(call, at), m', Active(call, at'))
  {
  }

  lemma SpinBalanced(m: Memory, call: Call, at: Point)
    requires PointOk(call, at) && (at.SpinLoad? || at.SpinExchange? || at.Register?)
    ensures var (m', at') := SpinStep(m, call, at);
      Balanced(m, Active(call, at), m', Active(call, at'))
  {
  }

  lemma BalancedKeepsInv(s: State, t: nat, m': Memory, f': Frame)
    requires Inv(s) && t < |s.frames| && Balanced(s.mem, s.frames[t], m', f')
    ensures Inv(State(m', s.maxSpins, s.frames[t := f']))
  {
    SumUpdate(s.frames, t, f', Waiting);
    SumUpdate(s.frames, t, f', Posting);
    SumUpdate(s.frames, t, f', Held);
  }

  lemma NextKeepsInv(s: State, e: Event)
    requires Inv(s)
    ensures Inv(Next(s, e))
  {
    if e.t < |s.frames| {
      var s' := Next(s, e);
      var f := s.frames[e.t];
      if e.Advance? && f.Active? {
        ActBalanced(s.mem, s.maxSpins, f.call, f.at, e.choice);
      }
      if s' != s {
        BalancedKeepsInv(s, e.t, s'.mem, s'.frames[e.t]);
      }
    }
  }

  /** The state after a whole schedule. */
  ghost function Run(s: State, schedule: seq<Event>): (s': State)
    requires Inv(s)
    ensures Inv(s') && |s'.frames| == |s.frames|
    decreases schedule
  {
    if schedule == [] then s
    else
      NextKeepsInv(s, schedule[0]);
      Run(Next(s, schedule[0]), schedule[1..])
  }

  ghost function Reached(threads: nat, initialCount: nat, maxSpins: nat, schedule: seq<Event>): (s: State)
    ensures Inv(s)
  {
    InitInv(threads, initialCount, maxSpins);
    Run(Init(threads, initialCount, maxSpins), schedule)
  }

  /** No wake-up is lost: a waiter that sees a non-negative count has a token posted or about to be posted. */
  lemma NoLostWakeup(threads: nat, initialCount: nat, maxSpins: nat, schedule: seq<Event>, t: nat)
    returns (signaller: nat)
    requires var s := Reached(threads, initialCount, maxSpins, schedule);
      t < |s.frames| && Waiting(s.frames[t]) == 1 && s.mem.count >= 0
    ensures var s := Reached(threads, initialCount, maxSpins, schedule);
      s.mem.tokens > 0 || (signaller < |s.frames| && Posting(s.frames[signaller]) > 0)
  {
    var s := Reached(threads, initialCount, maxSpins, schedule);
    SumAtLeast(s.frames, t, Waiting);
    signaller := 0;
    if s.mem.tokens == 0 {
      signaller := SumWitness(s.frames, Posting);
    }
  }

  /** A wait that finds no token, while nobody is posting one, means every permit ever issued has been granted. */
  lemma WaitsOnlyWhenExhausted(threads: nat, initialCount: nat, maxSpins: nat, schedule: seq<Event>, t: nat)
    requires var s := Reached(threads, initialCount, maxSpins, schedule);
      && t < |s.frames| && Waiting(s.frames[t]) == 1 && s.mem.tokens == 0
      && forall u :: 0 <= u < |s.frames| ==> Posting(s.frames[u]) == 0
    ensures var s := Reached(threads, initialCount, maxSpins, schedule);
      s.mem.count < 0 && s.mem.granted == s.mem.issued
  {
    var s := Reached(threads, initialCount, maxSpins, schedule);
    SumAtLeast(s.frames, t, Waiting);
    SumZero(s.frames, Posting);
  }

  /** Permits handed out never exceed the initial count plus those signalled; the estimate counts only spare ones. */
  lemma NeverOvergranted(threads: nat, initialCount: nat, maxSpins: nat, schedule: seq<Event>)
    ensures var m := Reached(threads, initialCount, maxSpins, schedule).mem;
      m.returned <= m.granted <= m.issued && AvailableApprox(m) <= m.issued - m.granted
  {
    assert Inv(Reached(threads, initialCount, maxSpins, schedule));
  }

  function AvailableApprox(m: Memory): nat {
    if m.count > 0 then m.count else 0
  }

  /** Between calls nothing is owed: the kernel semaphore is empty and the count is exactly the permits not returned. */
  lemma Quiescent(threads: nat, initialCount: nat, maxSpins: nat, schedule: seq<Event>)
    requires forall f :: f in Reached(threads, initialCount, maxSpins, schedule).frames ==> f.Idle?
    ensures var m := Reached(threads, initialCount, maxSpins, schedule).mem;
      m.tokens == 0 && m.count == AvailableApprox(m) == m.issued - m.returned
  {
    var s := Reached(threads, initialCount, maxSpins, schedule);
    forall i | 0 <= i < |s.frames| ensures s.frames[i].Idle? {
      assert s.frames[i] in s.frames;
    }
    SumZero(s.frames, Waiting);
    SumZero(s.frames, Posting);
    SumZero(s.frames, Held);
  }

  /** A semaphore step adds the permits of a signal exactly when they stop being announced. */
  lemma ActAnnounces(m: Memory, maxSpins: nat, call: Call, at: Point, choice: Choice)
    requires PointOk(call, at)
    ensures var (m', at') := Act(m, maxSpins, call, at, choice);
      && m'.issued + Unannounced(Active(call, at')) == m.issued + Unannounced(Active(call, at))
      && m'.returned == m.returned
  {
  }

  /** The permits of all signals begun in a schedule, counted from the events. */
  ghost function Signalled(s: State, schedule: seq<Event>): nat
    requires Inv(s)
    decreases schedule
  {
    if schedule == [] then 0
    else
      var e := schedule[0];
      NextKeepsInv(s, e);
      (if e.Begin? && e.call.Signal? && e.t < |s.frames| && s.frames[e.t].Idle? then e.call.count else 0)
        + Signalled(Next(s, e), schedule[1..])
  }

  lemma NextAnnounces(s: State, e: Event)
    requires Inv(s)
    ensures Next(s, e).mem.issued + Sum(Next(s, e).frames, Unannounced)
         == s.mem.issued + Sum(s.frames, Unannounced)
            + if e.Begin? && e.call.Signal? && e.t < |s.frames| && s.frames[e.t].Idle? then e.call.count else 0
  {
    if e.t < |s.frames| {
      var f, s' := s.frames[e.t], Next(s, e);
      if e.Advance? && f.Active? {
        ActAnnounces(s.mem, s.maxSpins, f.call, f.at, e.choice);
      }
      if s' != s {
        SumUpdate(s.frames, e.t, s'.frames[e.t], Unannounced);
      }
    }
  }

  lemma {:induction false} RunAnnounces(s: State, schedule: seq<Event>)
    requires Inv(s)
    ensures Run(s, schedule).mem.issued + Sum(Run(s, schedule).frames, Unannounced)
         == s.mem.issued + Sum(s.frames, Unannounced) + Signalled(s, schedule)
    decreases schedule
  {
    if schedule != [] {
      NextKeepsInv(s, schedule[0]);
      NextAnnounces(s, schedule[0]);
      RunAnnounces(Next(s, schedule[0]), schedule[1..]);
    }
  }

  /**
   Every permit comes from somewhere: over every run, the initial count and the permits
   of all signals begun are what is in the count, has been granted, is owed to waiting
   threads, or belongs to signals that have not reached the count.
   */
  lemma PermitsAccounted(threads: nat, initialCount: nat, maxSpins: nat, schedule: seq<Event>)
    ensures var s := Reached(threads, initialCount, maxSpins, schedule);
      initialCount + Signalled(InitOk(threads, initialCount, maxSpins), schedule)
        == s.mem.count + s.mem.granted + Sum(s.frames, Waiting) + Sum(s.frames, Unannounced)
  {
    var s := InitOk(threads, initialCount, maxSpins);
    RunAnnounces(s, schedule);
    SumZero(s.frames, Unannounced);
  }

  ghost function InitOk(threads: nat, initialCount: nat, maxSpins: nat): (s: State)
    ensures Inv(s) && s == Init(threads, initialCount, maxSpins)
    ensures s.mem.issued == initialCount && forall i :: 0 <= i < |s.frames| ==> s.frames[i].Idle?
  {
    InitInv(threads, initialCount, maxSpins);
    Init(threads, initialCount, maxSpins)
  }

  /** The steps are steps of thread `t` alone. */
  ghost predicate OwnSteps(t: nat, steps: seq<Event>) {
    forall e :: e in steps ==> e.Advance? && e.t == t
  }

  ghost predicate Undisturbed(steps: seq<Event>) {
    forall e :: e in steps ==> e.Advance? && e.choice.Proceed?
  }

  lemma RunCons(s: State, e: Event, rest: seq<Event>)
    requires Inv(s)
    ensures Inv(Next(s, e)) && Run(s, [e] + rest) == Run(Next(s, e), rest)
  {
    NextKeepsInv(s, e);
    assert ([e] + rest)[1..] == rest;
  }

  lemma {:induction false} RunAppend(s: State, a: seq<Event>, b: seq<Event>)
    requires Inv(s)
    ensures Run(s, a + b) == Run(Run(s, a), b)
    decreases a
  {
    if a == [] {
      assert a + b == b;
    } else {
      assert (a + b)[1..] == a[1..] + b;
      NextKeepsInv(s, a[0]);
      RunAppend(Next(s, a[0]), a[1..], b);
    }
  }

  /**
   What a blocked thread does: if there is a token it takes it and has a permit; if
   there is none it stays; a timeout, which only a bounded wait has, leaves it waiting
   with its registration to undo.
   */
  lemma BlockedWakes(s: State, t: nat, choice: Choice)
    requires Inv(s) && t < |s.frames| && s.frames[t].Active? && s.frames[t].at.Block?
    ensures var s', f, f' := Next(s, Advance(t, choice)), s.frames[t], Next(s, Advance(t, choice)).frames[t];
      if choice.Disturb? && f.call.timeout.Bounded? then
        s'.mem == s.mem && Waiting(f') == 1 && !f'.at.Block?
      else if s.mem.tokens > 0 then
        && Waiting(f') == 0 && Held(f') == 1
        && s'.mem == s.mem.(tokens := s.mem.tokens - 1, granted := s.mem.granted + 1)
      else s' == s
  {
  }

  /** Steps a waiting thread still needs when nobody interferes; a blocked one needs a token. */
  function WaitRank(m: Memory, f: Frame): nat {
    if Waiting(f) == 0 then 0
    else match f.at
      case Block => 1
      case UndoLoad => 2
      case UndoTry => if m.tokens > 0 then 1 else 3
      case UndoExchange(seen) => if m.count == seen then 1 else 3
      case _ => 0
  }

  /** How a wait ends: with a permit from a token, or with the registration undone. */
  ghost predicate WaitEnded(m: Memory, m': Memory, f': Frame) {
    && Waiting(f') == 0
    && if Held(f') == 1 then m.tokens > 0 && m' == m.(tokens := m.tokens - 1, granted := m.granted + 1)
       else f'.Active? && f'.at == Done(0) && m.count < 0 && m' == m.(count := m.count + 1)
  }

  lemma WaitRankFalls(m: Memory, maxSpins: nat, call: Call, at: Point, choice: Choice)
    requires PointOk(call, at) && WaitRank(m, Active(call, at)) > 0
    requires m.count >= 0 || at.Block? ==> m.tokens > 0
    requires at.Block? ==> choice.Proceed?
    ensures var (m', at') := Act(m, maxSpins, call, at, choice);
      && WaitRank(m', Active(call, at')) < WaitRank(m, Active(call, at))
      && !at'.Block? && Posting(Active(call, at')) == 0
      && (Waiting(Active(call, at')) == 1 ==> m' == m)
      && (Waiting(Active(call, at')) == 0 ==> WaitEnded(m, m', Active(call, at')))
      && (at.Block? ==> Held(Active(call, at')) == 1)
  {
  }

  /**
   A wait cannot go on for ever on its own: from any state in which no token is still
   being posted, and, for a blocked thread, some token is there, at most three
   undisturbed steps of the thread end its wait. It ends with a permit for every
   blocked thread, and whenever the count is not negative.
   */
  lemma {:induction false} WaitEndsAlone(s: State, t: nat) returns (steps: seq<Event>)
    requires Inv(s) && t < |s.frames| && Waiting(s.frames[t]) == 1
    requires s.frames[t].at.Block? ==> s.mem.tokens > 0
    requires forall u :: 0 <= u < |s.frames| ==> Posting(s.frames[u]) == 0
    ensures |steps| <= WaitRank(s.mem, s.frames[t]) <= 3 && OwnSteps(t, steps) && Undisturbed(steps)
    ensures var s' := Run(s, steps);
      && s' == s.(mem := s'.mem, frames := s.frames[t := s'.frames[t]])
      && WaitEnded(s.mem, s'.mem, s'.frames[t])
      && (s.frames[t].at.Block? || s.mem.count >= 0 ==> Held(s'.frames[t]) == 1)
    decreases WaitRank(s.mem, s.frames[t])
  {
    var f, e := s.frames[t], Advance(t, Proceed);
    SumAtLeast(s.frames, t, Waiting);
    SumZero(s.frames, Posting);
    WaitRankFalls(s.mem, s.maxSpins, f.call, f.at, Proceed);
    NextKeepsInv(s, e);
    var s' := Next(s, e);
    var rest := [];
    if Waiting(s'.frames[t]) == 1 {
      rest := WaitEndsAlone(s', t);
    }
    steps := [e] + rest;
    RunCons(s, e, rest);
  }

  /** Steps a thread that is not waiting still needs, alone, to take what it can. */
  function TakeRank(m: Memory, at: Point): nat {
    match at
    case TryLoad(_) => 3
    case TryExchange(_, seen) => if m.count == seen then 2 else 3
    case SpinLoad(_) => 6
    case SpinExchange(_, seen) => if m.count == seen then 2 else 7
    case Register => 5
    case _ => 0
  }

  /** `k` permits more have been taken from the count and are held. */
  function Taken(m: Memory, k: nat): Memory {
    m.(count := m.count - k, granted := m.granted + k)
  }

  /** What a thread can still take: all that is spare, up to its maximum. */
  function Obtainable(m: Memory, f: Frame): int
    requires f.Active? && !f.call.Signal?
  {
    Min(AvailableApprox(m), f.call.max - Held(f))
  }

  /** The points at which a thread that is not waiting takes permits without having to wait. */
  ghost predicate CanTake(m: Memory, f: Frame) {
    && f.Active? && !f.call.Signal? && Waiting(f) == 0 && !f.at.Done?
    && (m.count > 0 || Held(f) == 1 || f.call.TryWaitMany? || (f.call.max == 0 && f.at.TryLoad?))
  }

  /** One step of such a thread; a weak exchange that fails for no reason only costs a step. */
  lemma TakeStep(m: Memory, maxSpins: nat, call: Call, at: Point, choice: Choice)
    requires PointOk(call, at) && CanTake(m, Active(call, at))
    ensures var (m', at') := Act(m, maxSpins, call, at, choice);
      var f, f' := Active(call, at), Active(call, at');
      && (choice.Proceed? ==> TakeRank(m', at') < TakeRank(m, at))
      && Held(f') >= Held(f) && m' == Taken(m, Held(f') - Held(f))
      && Held(f') + (if at'.Done? then 0 else Obtainable(m', f')) == Held(f) + Obtainable(m, f)
      && (at'.Done? || CanTake(m', f'))
  {
  }

  /**
   Greedy taking: a thread that finds permits, or tries without waiting, or tops up,
   ends alone with all that is spare, up to its maximum.
   */
  lemma {:induction false} TakesGreedily(s: State, t: nat) returns (steps: seq<Event>)
    requires Inv(s) && t < |s.frames| && CanTake(s.mem, s.frames[t])
    ensures OwnSteps(t, steps) && Undisturbed(steps)
    ensures var f := s.frames[t];
      var more := Obtainable(s.mem, f);
      && more >= 0
      && Run(s, steps) == s.(mem := Taken(s.mem, more), frames := s.frames[t := Active(f.call, Done(Held(f) + more))])
    decreases TakeRank(s.mem, s.frames[t].at)
  {
    var f, e := s.frames[t], Advance(t, Proceed);
    TakeStep(s.mem, s.maxSpins, f.call, f.at, Proceed);
    NextKeepsInv(s, e);
    var s' := Next(s, e);
    var rest := [];
    if !s'.frames[t].at.Done? {
      rest := TakesGreedily(s', t);
    }
    steps := [e] + rest;
    RunCons(s, e, rest);
  }

  /** The memory after a signal of `n` permits: as many tokens are posted as there are permits for waiting threads. */
  function AfterSignal(m: Memory, n: nat): Memory {
    m.(count := m.count + n, issued := m.issued + n, tokens := m.tokens + Min(Shortfall(m.count), n))
  }

  lemma {:induction false} PostsAlone(s: State, t: nat) returns (steps: seq<Event>)
    requires Inv(s) && t < |s.frames| && s.frames[t].Active? && s.frames[t].at.Post?
    ensures OwnSteps(t, steps) && Undisturbed(steps)
    ensures Run(s, steps)
         == s.(mem := s.mem.(tokens := s.mem.tokens + s.frames[t].at.left),
               frames := s.frames[t := Active(s.frames[t].call, Done(0))])
    decreases s.frames[t].at.left
  {
    var e := Advance(t, Proceed);
    NextKeepsInv(s, e);
    var rest := [];
    if s.frames[t].at.left > 1 {
      rest := PostsAlone(Next(s, e), t);
    }
    steps := [e] + rest;
    RunCons(s, e, rest);
  }

  /** A signal, alone, adds its permits and wakes as many waiting threads as it has permits for. */
  lemma SignalsAlone(s: State, t: nat) returns (steps: seq<Event>)
    requires Inv(s) && t < |s.frames| && s.frames[t].Active? && s.frames[t].at.Add?
    ensures OwnSteps(t, steps) && Undisturbed(steps)
    ensures Run(s, steps)
         == s.(mem := AfterSignal(s.mem, s.frames[t].call.count),
               frames := s.frames[t := Active(s.frames[t].call, Done(0))])
  {
    var e := Advance(t, Proceed);
    NextKeepsInv(s, e);
    var s' := Next(s, e);
    var rest := [];
    if s'.frames[t].at.Post? {
      rest := PostsAlone(s', t);
    }
    steps := [e] + rest;
    RunCons(s, e, rest);
  }

  /** A blocking wait comes back empty-handed only by undoing its registration, at a count below 0. */
  lemma EmptyOnlyByUndo(m: Memory, maxSpins: nat, call: Call, at: Point, choice: Choice)
    requires PointOk(call, at) && call.WaitMany? && call.max > 0 && !at.Done?
    ensures var (m', at') := Act(m, maxSpins, call, at, choice);
      at' == Done(0) ==> at.UndoExchange? && m.count < 0 && m' == m.(count := m.count + 1)
  {
  }

  /** Without a permit the spinning phase ends at the registration, and nothing has changed. */
  lemma {:induction false} SpinsAlone(s: State, t: nat) returns (steps: seq<Event>)
    requires Inv(s) && t < |s.frames| && s.frames[t].Active? && s.frames[t].at.SpinLoad? && s.mem.count <= 0
    ensures OwnSteps(t, steps) && Undisturbed(steps) && |steps| == s.frames[t].at.spins + 1
    ensures Run(s, steps) == s.(frames := s.frames[t := Active(s.frames[t].call, Register)])
    decreases s.frames[t].at.spins
  {
    var e := Advance(t, Proceed);
    NextKeepsInv(s, e);
    var rest := [];
    if s.frames[t].at.spins > 0 {
      rest := SpinsAlone(Next(s, e), t);
    }
    steps := [e] + rest;
    RunCons(s, e, rest);
  }

  /**
   Without a permit a wait spins as often as it is told to, registers and blocks; with a
   timeout of 0 it goes straight to undoing.
   */
  lemma BlocksWhenEmpty(s: State, t: nat) returns (steps: seq<Event>)
    requires Inv(s) && t < |s.frames| && s.mem.count <= 0
    requires s.frames[t].Active? && s.frames[t].call.WaitMany? && s.frames[t].call.max > 0
    requires s.frames[t].at == TryLoad(false)
    ensures OwnSteps(t, steps) && Undisturbed(steps) && |steps| == s.maxSpins + 3
    ensures var call := s.frames[t].call;
      Run(s, steps) == s.(mem := s.mem.(count := s.mem.count - 1),
        frames := s.frames[t := Active(call, if call.timeout.Immediate? then UndoLoad else Block)])
  {
    var e := Advance(t, Proceed);
    NextKeepsInv(s, e);
    var spun := SpinsAlone(Next(s, e), t);
    var registered := Run(Next(s, e), spun);
    steps := [e] + (spun + [e]);
    RunCons(s, e, spun + [e]);
    RunAppend(Next(s, e), spun, [e]);
    RunCons(registered, e, []);
    assert [e] + [] == [e];
  }

  /** A wait that has timed out without a token undoes its registration and changes nothing. */
  lemma UndoesAlone(s: State, t: nat) returns (steps: seq<Event>)
    requires Inv(s) && t < |s.frames| && s.mem.count < 0
    requires s.frames[t].Active? && s.frames[t].call.WaitMany? && s.frames[t].at.UndoLoad?
    ensures OwnSteps(t, steps) && Undisturbed(steps)
    ensures Run(s, steps) == s.(mem := s.mem.(count := s.mem.count + 1),
      frames := s.frames[t := Active(s.frames[t].call, Done(0))])
  {
    var e := Advance(t, Proceed);
    NextKeepsInv(s, e);
    NextKeepsInv(Next(s, e), e);
    steps := [e] + ([e] + []);
    RunCons(s, e, [e] + []);
    RunCons(Next(s, e), e, []);
  }

  /** A timed wait without a permit, alone, comes back empty-handed and leaves everything as it was. */
  lemma GivesUp(s: State, t: nat) returns (steps: seq<Event>)
    requires Inv(s) && t < |s.frames| && s.mem.count <= 0
    requires s.frames[t].Active? && s.frames[t].call.WaitMany? && s.frames[t].call.max > 0
    requires !s.frames[t].call.timeout.Forever? && s.frames[t].at == TryLoad(false)
    ensures OwnSteps(t, steps)
    ensures Run(s, steps) == s.(frames := s.frames[t := Active(s.frames[t].call, Done(0))])
  {
    var first := BlocksWhenEmpty(s, t);
    var waiting := Run(s, first);
    if s.frames[t].call.timeout.Bounded? {
      var timeout := Advance(t, Disturb);
      RunCons(waiting, timeout, []);
      RunAppend(s, first, [timeout] + []);
      first := first + ([timeout] + []);
      waiting := Run(s, first);
    }
    var last := UndoesAlone(waiting, t);
    RunAppend(s, first, last);
    steps := first + last;
  }

  /** Whether a call can return without another thread's help. */
  predicate NeedsNoHelp(m: Memory, call: Call) {
    m.count > 0 || call.Signal? || call.TryWaitMany? || call.max == 0 || !call.timeout.Forever?
  }

  /** The permits a call gets when it runs alone: all that are spare, up to its maximum. */
  function Result(m: Memory, call: Call): int {
    if call.Signal? then 0 else Min(AvailableApprox(m), call.max)
  }

  /** The memory after the steps of a call that ran alone; its result is still to be handed to the caller. */
  function AfterCall(m: Memory, call: Call): Memory {
    if call.Signal? then AfterSignal(m, call.count) else Taken(m, Result(m, call))
  }

  lemma CallSteps(s: State, t: nat) returns (steps: seq<Event>)
    requires Inv(s) && t < |s.frames| && s.frames[t].Active? && NeedsNoHelp(s.mem, s.frames[t].call)
    requires s.frames[t].at == if s.frames[t].call.Signal? then Add else TryLoad(false)
    ensures var call := s.frames[t].call;
      && OwnSteps(t, steps) && Result(s.mem, call) >= 0
      && Run(s, steps)
         == s.(mem := AfterCall(s.mem, call), frames := s.frames[t := Active(call, Done(Result(s.mem, call)))])
  {
    var call := s.frames[t].call;
    if call.Signal? {
      steps := SignalsAlone(s, t);
    } else if s.mem.count > 0 || call.TryWaitMany? || call.max == 0 {
      steps := TakesGreedily(s, t);
    } else {
      steps := GivesUp(s, t);
    }
  }

  /**
   The sequential meaning of every operation: a call that needs no other thread's help,
   begun by an idle thread and run alone, can return. A signal adds its permits and
   posts a token for each waiting thread it has a permit for; any other call takes
   and returns all spare permits up to its maximum, and a timed one without any
   changes nothing.
   */
  lemma CallAlone(s: State, t: nat, call: Call) returns (steps: seq<Event>)
    requires Inv(s) && t < |s.frames| && s.frames[t].Idle? && NeedsNoHelp(s.mem, call)
    ensures OwnSteps(t, steps) && Result(s.mem, call) >= 0
    ensures Run(s, [Begin(t, call)] + steps + [Finish(t)])
         == s.(mem := AfterCall(s.mem, call).(returned := s.mem.returned + Result(s.mem, call)))
  {
    var begin, finish := Begin(t, call), Finish(t);
    NextKeepsInv(s, begin);
    var begun := Next(s, begin);
    steps := CallSteps(begun, t);
    var done := Run(begun, steps);
    RunAppend(s, [begin] + steps, [finish]);
    RunCons(s, begin, steps);
    RunCons(done, finish, []);
    assert [finish] + [] == [finish];
    assert done.frames[t := Idle] == s.frames;
  }

  /**
   A wake-up arrives: a signal run alone while a thread is blocked and the count shows
   it lets that thread end its wait with a permit by its next step.
   */
  lemma SignalWakes(s: State, u: nat, t: nat, n: nat) returns (steps: seq<Event>)
    requires Inv(s) && t < |s.frames| && s.frames[t].Active? && s.frames[t].at.Block?
    requires u < |s.frames| && s.frames[u].Idle? && n > 0 && s.mem.count < 0
    ensures OwnSteps(u, steps)
    ensures var f' := Run(s, [Begin(u, Signal(n))] + steps + [Finish(u)] + [Advance(t, Proceed)]).frames[t];
      Waiting(f') == 0 && Held(f') == 1
  {
    steps := CallAlone(s, u, Signal(n));
    var all := [Begin(u, Signal(n))] + steps + [Finish(u)];
    var woken := Run(s, all);
    RunAppend(s, all, [Advance(t, Proceed)]);
    RunCons(woken, Advance(t, Proceed), []);
    assert [Advance(t, Proceed)] + [] == [Advance(t, Proceed)];
    BlockedWakes(woken, t, Proceed);
  }
}
