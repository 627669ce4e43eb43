/**
 Length-prefixed framing on the channel: the one-shot decoder, its laws, and the
 reader that works in place on a fixed buffer and is fed arbitrary chunks.
 */
module ChannelFraming {
  import opened Common

  type byte = n: int | 0 <= n < 0x100

  const PAYLOAD_MAX_LEN := 4194304
  const MESSAGE_MAX_LEN := 4194308

  /** The number with these bytes, least significant first. */
  function LittleEndian(b: seq<byte>): nat {
    if b == [] then 0 else b[0] + 0x100 * LittleEndian(b[1..])
  }

  /** The 4-byte length at the front of `b`. */
  function Length(b: seq<byte>): nat
    requires |b| >= 4
  {
    LittleEndian(b[..4])
  }

  /** The four bytes are the length, the least significant first. */
  lemma LengthMeaning(b: seq<byte>)
    requires |b| >= 4
    ensures Length(b) == b[0] as int + 0x100 * b[1] as int + 0x1_0000 * b[2] as int + 0x100_0000 * b[3] as int
  {
    assert b[..4][1..] == b[1..4] && b[1..4][1..] == b[2..4] && b[2..4][1..] == b[3..4] && b[3..4][1..] == [];
    assert LittleEndian(b[3..4]) == b[3];
    assert LittleEndian(b[2..4]) == b[2] as int + 0x100 * b[3] as int;
    assert LittleEndian(b[1..4]) == b[1] + 0x100 * LittleEndian(b[2..4]);
  }

  predicate Complete(b: seq<byte>) {
    |b| >= 4 && |b| >= 4 + Length(b)
  }

  datatype Decoded = Decoded(messages: seq<seq<byte>>, rest: seq<byte>)

  /** All complete frames at the front of `b`, and what is left. */
  function Decode(b: seq<byte>): Decoded
    decreases |b|
  {
    if !Complete(b) then Decoded([], b)
    else
      var n := 4 + Length(b);
      var d := Decode(b[n..]);
      Decoded([b[4..n]] + d.messages, d.rest)
  }

  /** The number in `k` bytes, least significant first. */
  function Bytes(n: nat, k: nat): (b: seq<byte>)
    ensures |b| == k
  {
    if k == 0 then [] else [n % 0x100] + Bytes(n / 0x100, k - 1)
  }

  function Prefix(n: nat): (b: seq<byte>)
    ensures |b| == 4
  {
    Bytes(n, 4)
  }

  function Encode(payload: seq<byte>): seq<byte>
    requires |payload| < 0x1_0000_0000
  {
    Prefix(|payload|) + payload
  }

  predicate Encodable(payloads: seq<seq<byte>>) {
    forall i :: 0 <= i < |payloads| ==> |payloads[i]| < 0x1_0000_0000
  }

  function EncodeAll(payloads: seq<seq<byte>>): seq<byte>
    requires Encodable(payloads)
  {
    if payloads == [] then [] else Encode(payloads[0]) + EncodeAll(payloads[1..])
  }

  /** Decoding in two parts: the second part continues with what the first part left. */
  lemma {:induction false} DecodeAppend(a: seq<byte>, b: seq<byte>)
    ensures var first := Decode(a);
      var second := Decode(first.rest + b);
      Decode(a + b) == Decoded(first.messages + second.messages, second.rest)
    decreases |a|
  {
    if Complete(a) {
      var n := 4 + Length(a);
      assert (a + b)[..4] == a[..4];
      assert (a + b)[n..] == a[n..] + b && (a + b)[4..n] == a[4..n];
      DecodeAppend(a[n..], b);
      assert [a[4..n]] + Decode(a[n..]).messages + Decode(Decode(a[n..]).rest + b).messages
          == [a[4..n]] + (Decode(a[n..]).messages + Decode(Decode(a[n..]).rest + b).messages);
    }
  }

  lemma {:induction false} RestIncomplete(b: seq<byte>)
    ensures !Complete(Decode(b).rest)
    decreases |b|
  {
    if Complete(b) {
      RestIncomplete(b[4 + Length(b)..]);
    }
  }

  function Power256(k: nat): nat {
    if k == 0 then 1 else 0x100 * Power256(k - 1)
  }

  lemma {:induction false} BytesValue(n: nat, k: nat)
    requires n < Power256(k)
    ensures LittleEndian(Bytes(n, k)) == n
  {
    if k > 0 {
      assert Bytes(n, k)[1..] == Bytes(n / 0x100, k - 1);
      BytesValue(n / 0x100, k - 1);
    }
  }

  lemma {:induction false} ValueBytes(b: seq<byte>)
    ensures LittleEndian(b) < Power256(|b|) && Bytes(LittleEndian(b), |b|) == b
  {
    if b != [] {
      ValueBytes(b[1..]);
      var rest := LittleEndian(b[1..]);
      assert LittleEndian(b) / 0x100 == rest && LittleEndian(b) % 0x100 == b[0];
      assert b == [b[0]] + b[1..];
    }
  }

  lemma FourBytes()
    ensures Power256(4) == 0x1_0000_0000
  {
    assert Power256(2) == 0x1_0000 && Power256(3) == 0x100_0000;
  }

  lemma PrefixLength(n: nat, rest: seq<byte>)
    requires n < 0x1_0000_0000
    ensures Length(Prefix(n) + rest) == n
  {
    FourBytes();
    BytesValue(n, 4);
    assert (Prefix(n) + rest)[..4] == Bytes(n, 4);
  }

  /** Encoding any payloads and decoding the bytes returns them, with nothing left over. */
  lemma {:induction false} RoundTrip(payloads: seq<seq<byte>>)
    requires Encodable(payloads)
    ensures Decode(EncodeAll(payloads)) == Decoded(payloads, [])
  {
    if payloads != [] {
      var p, rest := payloads[0], EncodeAll(payloads[1..]);
      var b := Encode(p) + rest;
      assert b == Prefix(|p|) + (p + rest);
      PrefixLength(|p|, p + rest);
      assert b[4..4 + |p|] == p && b[4 + |p|..] == rest;
      RoundTrip(payloads[1..]);
    }
  }

  lemma PrefixOfLength(b: seq<byte>)
    requires |b| >= 4
    ensures Length(b) < 0x1_0000_0000 && Prefix(Length(b)) == b[..4]
  {
    FourBytes();
    ValueBytes(b[..4]);
  }

  lemma EncodeFrame(b: seq<byte>)
    requires Complete(b)
    ensures var n := 4 + Length(b); Length(b) < 0x1_0000_0000 && Encode(b[4..n]) == b[..n]
  {
    PrefixOfLength(b);
    assert b[..4] + b[4..4 + Length(b)] == b[..4 + Length(b)];
  }

  lemma EncodeCons(payload: seq<byte>, payloads: seq<seq<byte>>)
    requires |payload| < 0x1_0000_0000 && Encodable(payloads)
    ensures Encodable([payload] + payloads)
    ensures EncodeAll([payload] + payloads) == Encode(payload) + EncodeAll(payloads)
  {
    assert ([payload] + payloads)[1..] == payloads;
  }

  lemma JoinFrames(front: seq<byte>, middle: seq<byte>, rest: seq<byte>, b: seq<byte>, n: nat)
    requires n <= |b| && front == b[..n] && middle + rest == b[n..]
    ensures (front + middle) + rest == b
  {
    assert front + (middle + rest) == b;
  }

  /** Nothing is lost: the messages encoded again, followed by the rest, are the stream. */
  lemma {:induction false} DecodeEncode(b: seq<byte>)
    ensures var d := Decode(b); Encodable(d.messages) && EncodeAll(d.messages) + d.rest == b
    decreases |b|
  {
    if Complete(b) {
      var n := 4 + Length(b);
      EncodeFrame(b);
      DecodeEncode(b[n..]);
      var tail := Decode(b[n..]);
      EncodeCons(b[4..n], tail.messages);
      JoinFrames(b[..n], EncodeAll(tail.messages), tail.rest, b, n);
    }
  }

  function Concat(chunks: seq<seq<byte>>): seq<byte> {
    if chunks == [] then [] else chunks[0] + Concat(chunks[1..])
  }

  /** What a reader that holds `pending` delivers while it is fed the chunks one by one. */
  function Feed(pending: seq<byte>, chunks: seq<seq<byte>>): Decoded
    decreases |chunks|
  {
    if chunks == [] then Decoded([], pending)
    else
      var now := Decode(pending + chunks[0]);
      var later := Feed(now.rest, chunks[1..]);
      Decoded(now.messages + later.messages, later.rest)
  }

  /** How the stream is cut into chunks does not matter. */
  lemma {:induction false} ChunksDoNotMatter(pending: seq<byte>, chunks: seq<seq<byte>>)
    requires !Complete(pending)
    ensures Feed(pending, chunks) == Decode(pending + Concat(chunks))
    decreases |chunks|
  {
    if chunks == [] {
      assert pending + [] == pending;
    } else {
      var first, rest := pending + chunks[0], Concat(chunks[1..]);
      assert pending + Concat(chunks) == first + rest;
      DecodeAppend(first, rest);
      RestIncomplete(first);
      ChunksDoNotMatter(Decode(first).rest, chunks[1..]);
    }
  }

  /** Payloads encoded, concatenated and cut into chunks in any way come out as they went in. */
  lemma ChunkedRoundTrip(payloads: seq<seq<byte>>, chunks: seq<seq<byte>>)
    requires Encodable(payloads) && Concat(chunks) == EncodeAll(payloads)
    ensures Feed([], chunks) == Decoded(payloads, [])
  {
    ChunksDoNotMatter([], chunks);
    RoundTrip(payloads);
    assert [] + EncodeAll(payloads) == EncodeAll(payloads);
  }

  /** Every length announced in the stream is within the payload limit. */
  predicate FramesFit(b: seq<byte>)
    decreases |b|
  {
    |b| >= 4 ==> Length(b) <= PAYLOAD_MAX_LEN && (Complete(b) ==> FramesFit(b[4 + Length(b)..]))
  }

  /** With frames that fit, what is left over is always shorter than the buffer. */
  lemma {:induction false} RestFits(b: seq<byte>)
    requires FramesFit(b)
    ensures |Decode(b).rest| < MESSAGE_MAX_LEN
    decreases |b|
  {
    if Complete(b) {
      RestFits(b[4 + Length(b)..]);
    }
  }

  /**
   A pending frame can be completed by bytes that fit the buffer exactly when its
   length is within the payload limit; beyond it the reader never delivers again.
   */
  lemma DeliverableIffFits(pending: seq<byte>)
    requires |pending| >= 4 && !Complete(pending) && |pending| <= MESSAGE_MAX_LEN
    ensures (exists more :: |pending| + |more| <= MESSAGE_MAX_LEN && Decode(pending + more).messages != [])
       <==> Length(pending) <= PAYLOAD_MAX_LEN
  {
    if Length(pending) <= PAYLOAD_MAX_LEN {
      var more: seq<byte> := seq(4 + Length(pending) - |pending|, _ => 0);
      assert (pending + more)[..4] == pending[..4];
      assert Decode(pending + more).messages != [];
    }
    forall more: seq<byte> | |pending| + |more| <= MESSAGE_MAX_LEN && Decode(pending + more).messages != []
      ensures Length(pending) <= PAYLOAD_MAX_LEN
    {
      assert (pending + more)[..4] == pending[..4];
    }
  }

  /** The front frame of `b`. */
  function Frame(b: seq<byte>): seq<byte>
    requires Complete(b)
  {
    b[4..4 + Length(b)]
  }

  function AfterFrame(b: seq<byte>): seq<byte>
    requires Complete(b)
  {
    b[4 + Length(b)..]
  }

  /** Once the messages `sent` are out, decoding `all` amounts to decoding `tail`. */
  ghost predicate Progress(all: Decoded, tail: Decoded, sent: seq<seq<byte>>) {
    all == Decoded(sent + tail.messages, tail.rest)
  }

  lemma DecodeFrame(b: seq<byte>)
    requires Complete(b)
    ensures Decode(b) == Decoded([Frame(b)] + Decode(AfterFrame(b)).messages, Decode(AfterFrame(b)).rest)
  {
  }

  lemma SendOne(all: Decoded, tail: Decoded, tail': Decoded, sent: seq<seq<byte>>, message: seq<byte>)
    requires Progress(all, tail, sent) && tail == Decoded([message] + tail'.messages, tail'.rest)
    ensures Progress(all, tail', sent + [message])
  {
    assert sent + ([message] + tail'.messages) == (sent + [message]) + tail'.messages;
  }

  lemma ProgressStep(all: Decoded, tail: seq<byte>, sent: seq<seq<byte>>)
    requires Progress(all, Decode(tail), sent) && Complete(tail)
    ensures Progress(all, Decode(AfterFrame(tail)), sent + [Frame(tail)])
  {
    DecodeFrame(tail);
    SendOne(all, Decode(tail), Decode(AfterFrame(tail)), sent, Frame(tail));
  }

  lemma ProgressDone(all: Decoded, tail: seq<byte>, sent: seq<seq<byte>>, before: seq<seq<byte>>)
    requires Progress(all, Decode(tail), sent)
    ensures before + sent <= before + all.messages
    ensures !Complete(tail) ==> all == Decoded(sent, tail)
  {
    assert before + sent + Decode(tail).messages == before + all.messages;
    assert sent + [] == sent;
  }

  /** What a read delivers of the messages it completes, when the listener closes the socket in callback `closesAt`. */
  function Until(messages: seq<seq<byte>>, closesAt: Option<nat>): seq<seq<byte>> {
    if closesAt.Some? && closesAt.value < |messages| then messages[..closesAt.value + 1] else messages
  }

  /** Whether the listener closes the socket during a read that completes so many messages. */
  predicate Closes(messages: seq<seq<byte>>, closesAt: Option<nat>) {
    closesAt.Some? && closesAt.value < |messages|
  }

  lemma SentUntil(messages: seq<seq<byte>>, sent: seq<seq<byte>>, later: seq<seq<byte>>, closesAt: Option<nat>)
    requires messages == sent + later
    requires if later == [] && !(closesAt.Some? && closesAt.value + 1 == |sent|)
      then closesAt.None? || closesAt.value >= |sent|
      else closesAt.Some? && closesAt.value + 1 == |sent|
    ensures sent == Until(messages, closesAt)
    ensures Closes(messages, closesAt) <==> closesAt.Some? && closesAt.value + 1 == |sent|
  {
  }

  /** The reading side of the socket: a buffer allocated on first use and filled behind its last data byte. */
  class ConsumerSocket {
    var buffer: array?<byte>
    var bufferDataLen: nat
    var closed: bool
    ghost var received: seq<byte>
    ghost var delivered: seq<seq<byte>>

    /** The bytes not yet consumed. */
    ghost function Pending(): seq<byte>
      reads this, buffer
      requires buffer == null || bufferDataLen <= buffer.Length
    {
      if buffer == null then [] else buffer[..bufferDataLen]
    }

    /** As long as the socket is open, it has done exactly what the one-shot decoder does to all it received. */
    ghost predicate Valid()
      reads this, buffer
    {
      && (if buffer == null then bufferDataLen == 0 else buffer.Length == MESSAGE_MAX_LEN)
      && bufferDataLen <= MESSAGE_MAX_LEN
      && (!closed ==> Decode(received) == Decoded(delivered, Pending()))
    }

    constructor ()
      ensures Valid() && !closed && received == [] && delivered == []
    {
      buffer, bufferDataLen, closed, received, delivered := null, 0, false, [], [];
    }

    /** The room the reader gives to the next read. */
    method OnUvReadAlloc() returns (space: nat)
      requires Valid()
      modifies this`buffer
      ensures Valid() && buffer != null
      ensures (old(buffer) == null ==> fresh(buffer)) && (old(buffer) != null ==> buffer == old(buffer))
      ensures Pending() == old(Pending()) && space == MESSAGE_MAX_LEN - |Pending()|
      ensures !closed && FramesFit(received) ==> space > 0
    {
      if buffer == null {
        buffer := new byte[MESSAGE_MAX_LEN](_ => 0);
        assert Pending() == [];
      }
      space := if MESSAGE_MAX_LEN > bufferDataLen then MESSAGE_MAX_LEN - bufferDataLen else 0;
      if !closed && FramesFit(received) {
        RestFits(received);
      }
    }

    /**
     A read of `chunk` bytes, no more than the room given. `closesAt` says in which
     of this read's callbacks the listener closes the socket, if in any.
     */
    method OnUvRead(chunk: seq<byte>, closesAt: Option<nat>)
      requires Valid() && !closed && buffer != null && |chunk| <= MESSAGE_MAX_LEN - bufferDataLen
      modifies this, buffer
      ensures Valid() && buffer == old(buffer)
      ensures received == old(received) + chunk
      ensures !closed ==> delivered == Decode(received).messages && Pending() == Decode(received).rest
      ensures closed ==> delivered <= Decode(received).messages
      ensures var completed := Decode(old(Pending()) + chunk).messages;
        if closesAt.Some? && closesAt.value < |completed|
        then closed && delivered == old(delivered) + completed[..closesAt.value + 1]
        else !closed && delivered == old(delivered) + completed
    {
      if |chunk| == 0 {
        assert received + chunk == received && Pending() + chunk == Pending();
        RestIncomplete(received);
        return;
      }
      ghost var before := Pending();
      FillBuffer(chunk);
      DecodeAppend(received, chunk);
      received := received + chunk;
      UserOnUnixStreamRead(closesAt);
    }

    /** What the event loop does before the callback: it writes behind the last data byte. */
    method FillBuffer(chunk: seq<byte>)
      requires buffer != null && buffer.Length == MESSAGE_MAX_LEN && bufferDataLen + |chunk| <= MESSAGE_MAX_LEN
      modifies this`bufferDataLen, buffer
      ensures bufferDataLen == old(bufferDataLen) + |chunk|
      ensures buffer[..bufferDataLen] == old(buffer[..bufferDataLen]) + chunk
    {
      var i := 0;
      while i < |chunk|
        invariant 0 <= i <= |chunk| && bufferDataLen == old(bufferDataLen)
        invariant buffer[..bufferDataLen + i] == old(buffer[..bufferDataLen]) + chunk[..i]
      {
        buffer[bufferDataLen + i] := chunk[i];
        i := i + 1;
      }
      bufferDataLen := bufferDataLen + |chunk|;
    }

    /** Copies the 4 length bytes at `from` into a number. */
    method ReadLength(from: nat) returns (n: nat)
      requires buffer != null && from + 4 <= buffer.Length
      ensures n == LittleEndian(buffer[from..from + 4])
    {
      n := 0;
      var i := 4;
      while i > 0
        invariant 0 <= i <= 4 && n == LittleEndian(buffer[from..from + 4][i..])
      {
        i := i - 1;
        n := buffer[from + i] + 0x100 * n;
      }
    }

    /** The length of the frame at `msgStart`, if all of it is in the buffer. */
    method PeekFrame(msgStart: nat) returns (complete: bool, msgLen: nat)
      requires buffer != null && msgStart <= bufferDataLen <= buffer.Length
      ensures complete <==> Complete(buffer[..bufferDataLen][msgStart..])
      ensures complete ==> msgLen == Length(buffer[..bufferDataLen][msgStart..])
    {
      var readLen := bufferDataLen - msgStart;
      if readLen < 4 {
        return false, 0;
      }
      msgLen := ReadLength(msgStart);
      assert buffer[..bufferDataLen][msgStart..][..4] == buffer[msgStart..msgStart + 4];
      complete := readLen >= 4 + msgLen;
    }

    /** Delivers every complete frame in the buffer and moves what is left to its front. */
    method UserOnUnixStreamRead(closesAt: Option<nat>)
      requires buffer != null && buffer.Length == MESSAGE_MAX_LEN && bufferDataLen <= MESSAGE_MAX_LEN && !closed
      modifies this`bufferDataLen, this`closed, this`delivered, buffer
      ensures bufferDataLen <= MESSAGE_MAX_LEN
      ensures var d := Decode(old(Pending()));
        && delivered == old(delivered) + Until(d.messages, closesAt) && (closed <==> Closes(d.messages, closesAt))
        && (!closed ==> Pending() == d.rest)
    {
      var msgStart := DeliverFrames(closesAt);
      if !closed && msgStart != 0 {
        bufferDataLen := bufferDataLen - msgStart;
        MoveDown(msgStart);
        assert buffer[..bufferDataLen] == old(buffer[..bufferDataLen])[msgStart..];
      }
    }

    /** The loop over the frames in the buffer, which stops when a callback has closed the socket. */
    method DeliverFrames(closesAt: Option<nat>) returns (msgStart: nat)
      requires buffer != null && bufferDataLen <= buffer.Length && !closed
      modifies this`closed, this`delivered
      ensures msgStart <= bufferDataLen
      ensures var all := buffer[..bufferDataLen];
        var messages := Decode(all).messages;
        && delivered == old(delivered) + Until(messages, closesAt) && (closed <==> Closes(messages, closesAt))
        && (!closed ==> all[msgStart..] == Decode(all).rest)
    {
      ghost var all, tail, sent := Decode(buffer[..bufferDataLen]), buffer[..bufferDataLen], [];
      msgStart := 0;
      var calls := 0;
      while !closed
        invariant msgStart <= bufferDataLen && tail == buffer[..bufferDataLen][msgStart..]
        invariant Progress(all, Decode(tail), sent) && delivered == old(delivered) + sent
        invariant |sent| == calls
        invariant if closed then closesAt.Some? && closesAt.value + 1 == calls
                  else closesAt.None? || closesAt.value >= calls
        decreases bufferDataLen - msgStart
      {
        var complete, msgLen := PeekFrame(msgStart);
        if !complete {
          break;
        }
        ProgressStep(all, tail, sent);
        sent, delivered := sent + [Frame(tail)], delivered + [Frame(tail)];
        tail := AfterFrame(tail);
        closed := closesAt == Some(calls);
        calls := calls + 1;
        msgStart := msgStart + 4 + msgLen;
      }
      ProgressDone(all, tail, sent, old(delivered));
      SentUntil(all.messages, sent, Decode(tail).messages, closesAt);
    }

    /** Moves the data bytes that start at `from` to the front of the buffer. */
    method MoveDown(from: nat)
      requires buffer != null && from + bufferDataLen <= buffer.Length
      modifies buffer
      ensures buffer[..bufferDataLen] == old(buffer[from..from + bufferDataLen])
    {
      var i := 0;
      while i < bufferDataLen
        invariant 0 <= i <= bufferDataLen
        invariant buffer[..i] == old(buffer[from..from + i])
        invariant forall k :: i <= k < buffer.Length ==> buffer[k] == old(buffer[k])
      {
        buffer[i] := buffer[from + i];
        i := i + 1;
      }
    }

    /** End of file, a read error, or a local close. */
    method Close()
      requires Valid()
      modifies this`closed
      ensures Valid() && closed
    {
      closed := true;
    }
  }
}
