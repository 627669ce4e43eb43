/**
 The semaphore object: its fields changed in place, one atomic operation at a
 time. Each method is proved against the step function of module Semaphore.
 */
module LightweightSemaphoreObject {
  import opened Semaphore

  class LightweightSemaphore {
    var mCount: int
    var mSema: nat
    const mMaxSpins: nat
    var frames: seq<Frame>
    ghost var issued: nat
    ghost var granted: nat
    ghost var returned: nat

    ghost function Mem(): Memory
      reads this
    {
      Memory(mCount, mSema, issued, granted, returned)
    }

    ghost function View(): State
      reads this
    {
      State(Mem(), mMaxSpins, frames)
    }

    ghost predicate Valid()
      reads this
    {
      Inv(View())
    }

    constructor (threads: nat, initialCount: nat, maxSpins: nat)
      ensures View() == Init(threads, initialCount, maxSpins) && Valid()
    {
      mCount, mSema, mMaxSpins := initialCount, 0, maxSpins;
      frames := seq(threads, _ => Idle);
      issued, granted, returned := initialCount, 0, 0;
      new;
      InitInv(threads, initialCount, maxSpins);
    }

    /** The strong compare-and-exchange of the count; `seen` is the count afterwards seen by a failing caller. */
    method CompareExchange(expected: int, desired: int) returns (ok: bool)
      modifies this`mCount
      ensures ok <==> old(mCount) == expected
      ensures mCount == if ok then desired else old(mCount)
    {
      ok := mCount == expected;
      if ok {
        mCount := desired;
      }
    }

    method FetchAdd(n: int) returns (before: int)
      modifies this`mCount
      ensures before == old(mCount) && mCount == before + n
    {
      before := mCount;
      mCount := mCount + n;
    }

    /** The kernel semaphore's non-blocking wait. */
    method KernelTryWait() returns (ok: bool)
      modifies this`mSema
      ensures ok <==> old(mSema) > 0
      ensures mSema == if ok then old(mSema) - 1 else old(mSema)
    {
      ok := mSema > 0;
      if ok {
        mSema := mSema - 1;
      }
    }

    method TryOnce(call: Call, at: Point, choice: Choice) returns (next: Point)
      requires PointOk(call, at) && (at.TryLoad? || at.TryExchange?)
      modifies this`mCount, this`granted
      ensures (Mem(), next) == TryStep(old(Mem()), mMaxSpins, call, at, choice)
    {
      if at.TryExchange? && choice.Proceed? {
        var left := Remainder(at.seen, if at.topUp then call.max - 1 else call.max);
        var ok := CompareExchange(at.seen, left);
        if ok {
          granted := granted + (at.seen - left);
          return TryExit(call, at.topUp, at.seen - left, mMaxSpins);
        }
      }
      next := TryHead(call, at.topUp, mCount, mMaxSpins);
    }

    method SpinOnce(call: Call, at: Point) returns (next: Point)
      requires PointOk(call, at) && (at.SpinLoad? || at.SpinExchange? || at.Register?)
      modifies this`mCount, this`granted
      ensures (Mem(), next) == SpinStep(old(Mem()), call, at)
    {
      match at
      case SpinLoad(spins) =>
        if spins == 0 {
          next := Register;
        } else {
          next := if mCount > 0 then SpinExchange(spins - 1, mCount) else SpinLoad(spins - 1);
        }
      case SpinExchange(spins, seen) =>
        var left := Remainder(seen, call.max);
        var ok := CompareExchange(seen, left);
        if ok {
          granted := granted + (seen - left);
          next := Done(seen - left);
        } else {
          next := SpinLoad(spins);
        }
      case Register =>
        var before := FetchAdd(-1);
        if before > 0 {
          granted := granted + 1;
          next := Acquired(call);
        } else {
          next := if call.timeout.Immediate? then UndoLoad else Block;
        }
    }

    method BlockOnce(call: Call, at: Point, choice: Choice) returns (next: Point)
      requires PointOk(call, at) && (at.Block? || at.UndoLoad? || at.UndoTry? || at.UndoExchange?)
      modifies this`mCount, this`mSema, this`granted
      ensures (Mem(), next) == BlockStep(old(Mem()), call, at, choice)
      ensures at.Block? && old(mSema) > 0 && (choice.Proceed? || call.timeout.Forever?) ==>
        mSema == old(mSema) - 1 && granted == old(granted) + 1 && !next.Block?
    {
      match at
      case Block =>
        if choice.Disturb? && call.timeout.Bounded? {
          return UndoLoad;
        }
        var ok := KernelTryWait();
        if ok {
          granted := granted + 1;
          next := Acquired(call);
        } else {
          next := Block;
        }
      case UndoLoad =>
        next := if mCount >= 0 then UndoTry else UndoExchange(mCount);
      case UndoTry =>
        var ok := KernelTryWait();
        if ok {
          granted := granted + 1;
          next := Acquired(call);
        } else {
          next := UndoLoad;
        }
      case UndoExchange(seen) =>
        var ok := CompareExchange(seen, seen + 1);
        next := if ok then Done(0) else UndoLoad;
    }

    method SignalOnce(call: Call, at: Point) returns (next: Point)
      requires PointOk(call, at) && (at.Add? || at.Post?)
      modifies this`mCount, this`mSema, this`issued
      ensures (Mem(), next) == SignalStep(old(Mem()), call, at)
      ensures at.Add? ==> mCount == old(mCount) + call.count && issued == old(issued) + call.count
      ensures at.Post? ==> mSema == old(mSema) + 1
    {
      match at
      case Add =>
        var before := FetchAdd(call.count);
        issued := issued + call.count;
        var release := if -before < call.count then -before else call.count;
        next := if release > 0 then Post(release) else Done(0);
      case Post(left) =>
        mSema := mSema + 1;
        next := if left > 1 then Post(left - 1) else Done(0);
    }

    method AdvanceThread(t: nat, choice: Choice)
      requires Valid() && t < |frames| && frames[t].Active?
      modifies this
      ensures Valid() && View() == Next(old(View()), Advance(t, choice))
    {
      NextKeepsInv(View(), Advance(t, choice));
      var call, at := frames[t].call, frames[t].at;
      if at.TryLoad? || at.TryExchange? {
        at := TryOnce(call, at, choice);
      } else if at.SpinLoad? || at.SpinExchange? || at.Register? {
        at := SpinOnce(call, at);
      } else if at.Add? || at.Post? {
        at := SignalOnce(call, at);
      } else if !at.Done? {
        at := BlockOnce(call, at, choice);
      }
      frames := frames[t := Active(call, at)];
    }

    method BeginCall(t: nat, call: Call)
      requires Valid() && t < |frames| && frames[t].Idle?
      modifies this`frames
      ensures Valid() && View() == Next(old(View()), Begin(t, call))
    {
      NextKeepsInv(View(), Begin(t, call));
      frames := frames[t := Active(call, Start(call))];
    }

    /** Hands the result of a finished call to its caller. */
    method FinishCall(t: nat) returns (result: nat)
      requires Valid() && t < |frames| && frames[t].Active? && frames[t].at.Done?
      modifies this`frames, this`returned
      ensures Valid() && View() == Next(old(View()), Finish(t))
      ensures result == old(frames[t].at.granted) && ResultOk(old(frames[t].call), result)
      ensures returned == old(returned) + result
    {
      NextKeepsInv(View(), Finish(t));
      result := frames[t].at.granted;
      returned := returned + result;
      frames := frames[t := Idle];
    }

    method Approximate() returns (spare: nat)
      requires Valid()
      ensures spare == AvailableApprox(Mem()) <= issued - granted
    {
      spare := if mCount > 0 then mCount else 0;
    }

    /** Any schedule of any threads, carried out in place. */
    method Execute(schedule: seq<Event>)
      requires Valid()
      modifies this
      ensures Valid() && View() == Run(old(View()), schedule)
    {
      var i := 0;
      while i < |schedule|
        invariant 0 <= i <= |schedule| && Valid()
        invariant Run(View(), schedule[i..]) == Run(old(View()), schedule)
      {
        var e := schedule[i];
        assert schedule[i..][0] == e && schedule[i..][1..] == schedule[i + 1..];
        if e.t < |frames| {
          if e.Begin? && frames[e.t].Idle? {
            BeginCall(e.t, e.call);
          } else if e.Advance? && frames[e.t].Active? {
            AdvanceThread(e.t, e.choice);
          } else if e.Finish? && frames[e.t].Active? && frames[e.t].at.Done? {
            var _ := FinishCall(e.t);
          }
        }
        i := i + 1;
      }
    }
  }
}
