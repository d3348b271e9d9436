/** The four ends of the byte stream: the two functions that frame a payload into
    a send queue, the server's byte-at-a-time receiver, and the clients' receiver
    that reads the socket in chunks. */
module Endpoints {
  import opened Bytes
  import opened Framing
  import opened SendQueue
  import Cobs
  import Crc16

  // --- Sending -----------------------------------------------------------------------

  /** Seals and stuffs payload[..len] into a scratch buffer, and queues it with its delimiter. */
  method FrameAndQueue(tx: TxQueue, payload: array<byte>, len: nat, rawSize: nat, encodedSize: nat) returns (ok: bool)
    requires tx.Valid() && len <= payload.Length && payload != tx.data
    requires len + 2 <= rawSize < 254 && rawSize + 2 <= encodedSize
    modifies tx, tx.outlet, tx.data
    ensures tx.Valid() && ok == !tx.failed
    ensures ok ==> tx.accepted == old(tx.accepted) + Framed(payload[..len])
    ensures !ok ==> tx.accepted == old(tx.accepted) || tx.accepted == old(tx.accepted) + Framed(payload[..len])
    ensures old(tx.failed) ==> tx.failed && tx.accepted == old(tx.accepted) && tx.outlet.sent == old(tx.outlet.sent)
  {
    hide Crc16.Crc, Cobs.EncodeFrom;
    var raw := new byte[rawSize];
    var encoded := new byte[encodedSize];
    forall i | 0 <= i < len {
      raw[i] := payload[i];
    }
    assert raw[..len] == payload[..len];
    var crc := Crc16.Compute(raw, len);
    raw[len] := Crc16.Low(crc);
    raw[len + 1] := Crc16.High(crc);
    assert raw[..len + 2] == Crc16.Sealed(payload[..len]);
    var wr := Cobs.EncodeInto(raw, len + 2, encoded);
    Cobs.ShortOverhead(raw[..len + 2]);
    encoded[wr] := 0;
    assert encoded[..wr + 1] == Framed(payload[..len]);
    ok := tx.Queue(encoded, wr + 1);
  }

  /** The clients' sender: an oversized payload is refused before anything is touched. */
  method ClientSend(tx: TxQueue, payload: array<byte>, len: nat) returns (ok: bool)
    requires tx.Valid() && len <= payload.Length && payload != tx.data
    modifies tx, tx.outlet, tx.data
    ensures tx.Valid()
    ensures len > CLIENT_PAYLOAD ==>
      !ok && tx.accepted == old(tx.accepted) && tx.outlet.sent == old(tx.outlet.sent) && tx.failed == old(tx.failed)
    ensures len <= CLIENT_PAYLOAD ==> ok == !tx.failed
    ensures ok ==> tx.accepted == old(tx.accepted) + Framed(payload[..len])
    ensures !ok ==> tx.accepted == old(tx.accepted) || tx.accepted == old(tx.accepted) + Framed(payload[..len])
  {
    if len > 66 - 2 {
      return false;
    }
    ok := FrameAndQueue(tx, payload, len, 66, 68);
  }

  /** The server's sender; it reports the payload length, or -1. */
  method ServerSend(tx: TxQueue, payload: array<byte>, len: nat) returns (result: int)
    requires tx.Valid() && len <= payload.Length && payload != tx.data
    modifies tx, tx.outlet, tx.data
    ensures tx.Valid()
    ensures len > SERVER_PAYLOAD ==>
      result == -1 && tx.accepted == old(tx.accepted) && tx.outlet.sent == old(tx.outlet.sent) && tx.failed == old(tx.failed)
    ensures len <= SERVER_PAYLOAD ==> result == if tx.failed then -1 else len
    ensures result >= 0 ==> tx.accepted == old(tx.accepted) + Framed(payload[..len])
    ensures result < 0 ==> tx.accepted == old(tx.accepted) || tx.accepted == old(tx.accepted) + Framed(payload[..len])
  {
    if len + 2 > 64 {
      return -1;
    }
    var ok := FrameAndQueue(tx, payload, len, 64, 66);
    result := if ok then len else -1;
  }

  // --- The verdict on a complete body ----------------------------------------------------

  /** Decodes buf[..len] in place, checks length and checksum, and copies the payload out. */
  method Judge(buf: array<byte>, len: nat, out: array<byte>, cap: nat) returns (n: int)
    requires len <= buf.Length && cap <= out.Length && buf != out
    modifies buf, out
    ensures n == -1 || 1 <= n <= cap
    ensures n == -1 <==> Verdict(old(buf[..len]), cap) == Refused
    ensures n >= 1 ==> Verdict(old(buf[..len]), cap) == Delivered(out[..n])
  {
    hide Cobs.Decode, Crc16.Crc;
    ghost var body := buf[..len];
    var valid, wr := Cobs.DecodeInPlace(buf, len);
    if !valid || wr < 3 || wr - 2 > cap {
      return -1;
    }
    ghost var raw := buf[..wr];
    var crc := Crc16.Compute(buf, wr - 2);
    assert buf[..wr - 2] == raw[..wr - 2];
    if buf[wr - 2] != Crc16.Low(crc) || buf[wr - 1] != Crc16.High(crc) {
      assert !Crc16.Accepted(raw);
      return -1;
    }
    n := wr - 2;
    forall i | 0 <= i < n {
      out[i] := buf[i];
    }
    assert out[..n] == raw[..n];
  }

  // --- Receiving a byte at a time (the server) ---------------------------------------------

  class ByteReceiver {
    const encoded: array<byte>
    var used: nat
    var discarding: bool

    ghost predicate Valid()
      reads this
    {
      encoded.Length == SERVER_BODY && used <= SERVER_BODY
    }

    ghost function State(): Receiver
      reads this, encoded
      requires Valid()
    {
      Receiver(encoded[..used], discarding)
    }

    constructor ()
      ensures Valid() && fresh(encoded) && State() == IDLE
    {
      encoded := new byte[SERVER_BODY];
      used := 0;
      discarding := false;
    }

    /** A payload length, zero while incomplete, or -1 for a complete invalid frame. */
    method PushByte(b: byte, out: array<byte>, cap: nat) returns (n: int)
      requires Valid() && cap <= out.Length && out != encoded
      modifies this, encoded, out
      ensures Valid()
      ensures State() == Push(old(State()), SERVER_BODY, cap, b).0
      ensures var outcome := Push(old(State()), SERVER_BODY, cap, b).1;
        && (n == 0 <==> outcome == Waiting)
        && (n == -1 <==> outcome == Refused)
        && (n >= 1 ==> n <= cap && outcome == Delivered(out[..n]))
        && n >= -1
    {
      hide Verdict;
      if b != 0 {
        if !discarding {
          if used == SERVER_BODY {
            discarding := true;
          } else {
            encoded[used] := b;
            used := used + 1;
            assert encoded[..used] == old(encoded[..used]) + [b];
          }
        }
        return 0;
      }
      var len := used;
      var invalid := discarding || len == 0;
      used := 0;
      discarding := false;
      assert encoded[..0] == [];
      if invalid {
        return -1;
      }
      n := Judge(encoded, len, out, cap);
    }
  }

  // --- Receiving in chunks (the Linux clients) ------------------------------------------------

  datatype RecvResult = Chunk(bytes: seq<byte>) | Interrupted | Nothing | Closed | Failure

  const CHUNK := 1024

  /** The receiving side of a socket, scripted like `Outlet`. */
  class Inlet {
    var script: seq<RecvResult>
    /** Every byte handed out so far. */
    ghost var taken: seq<byte>
    /** How many calls there have been, and whether the latest found the connection gone. */
    var calls: nat
    var gone: bool

    constructor (script: seq<RecvResult>)
      ensures this.script == script && taken == []
    {
      this.script := script;
      taken := [];
      calls := 0;
      gone := false;
    }

    method Recv(input: array<byte>) returns (r: RecvResult, n: nat)
      requires input.Length == CHUNK
      modifies this, input
      ensures n <= CHUNK
      ensures r.Chunk? ==> n > 0 && taken == old(taken) + input[..n]
      ensures !r.Chunk? ==> n == 0 && taken == old(taken)
      ensures r == RecvResult.Interrupted ==> |script| < |old(script)|
      ensures calls == old(calls) + 1 && gone == (r == Closed || r == Failure)
    {
      calls := calls + 1;
      gone := false;
      if script == [] {
        return Nothing, 0;
      }
      r := script[0];
      script := script[1..];
      n := 0;
      gone := r == Closed || r == Failure;
      if r.Chunk? {
        if r.bytes == [] {
          gone := true;
          return Closed, 0;
        }
        n := if |r.bytes| > CHUNK then CHUNK else |r.bytes|;
        if n < |r.bytes| {
          script := [Chunk(r.bytes[n..])] + script;
        }
        forall i | 0 <= i < n {
          input[i] := r.bytes[i];
        }
        taken := taken + input[..n];
      }
    }
  }

  class ChunkReceiver {
    const inlet: Inlet
    const input: array<byte>
    const frame: array<byte>
    var pos: nat
    var len: nat
    var used: nat
    var discarding: bool

    ghost predicate Valid()
      reads this
    {
      && input.Length == CHUNK && frame.Length == CLIENT_BODY && input != frame
      && pos <= len <= CHUNK && used <= CLIENT_BODY
    }

    ghost function State(): Receiver
      reads this, frame
      requires Valid()
    {
      Receiver(frame[..used], discarding)
    }

    /** Bytes taken from the socket and not looked at yet. */
    ghost function Unread(): seq<byte>
      reads this, input
      requires Valid()
    {
      input[pos..len]
    }

    constructor (inlet: Inlet)
      ensures Valid() && State() == IDLE && Unread() == [] && this.inlet == inlet
      ensures fresh(input) && fresh(frame)
    {
      this.inlet := inlet;
      input := new byte[CHUNK];
      frame := new byte[CLIENT_BODY];
      pos, len, used, discarding := 0, 0, 0, false;
    }

    /** The delimiter has arrived: -1 for a frame that is skipped. */
    method EndOfFrame(out: array<byte>, cap: nat) returns (n: int)
      requires Valid() && cap <= out.Length && out != frame && out != input
      modifies this`used, this`discarding, frame, out
      ensures Valid() && State() == IDLE
      ensures var outcome := Push(old(State()), CLIENT_BODY, cap, 0).1;
        && (n == -1 <==> outcome == Refused)
        && (n != -1 ==> 1 <= n <= cap && outcome == Delivered(out[..n]))
    {
      hide Verdict;
      var size := used;
      used := 0;
      assert frame[..0] == [];
      if discarding {
        discarding := false;
        return -1;
      }
      if size == 0 {
        return -1;
      }
      n := Judge(frame, size, out, cap);
    }

    /** A nonzero byte is collected, or discarded when the frame has grown too long. */
    method Collect(b: byte)
      requires Valid() && b != 0
      modifies this`used, this`discarding, frame
      ensures Valid() && State() == Push(old(State()), CLIENT_BODY, 0, b).0
    {
      if !discarding {
        if used == CLIENT_BODY {
          discarding := true;
        } else {
          frame[used] := b;
          used := used + 1;
          assert frame[..used] == old(frame[..used]) + [b];
        }
      }
    }

    /** do { recv } while (interrupted); an empty input buffer is refilled. */
    method Refill() returns (r: RecvResult)
      requires Valid() && pos == len
      modifies this`pos, this`len, inlet, input
      ensures Valid() && r != RecvResult.Interrupted && State() == old(State())
      ensures r.Chunk? ==> Unread() != [] && inlet.taken == old(inlet.taken) + Unread()
      ensures !r.Chunk? ==> pos == len && inlet.taken == old(inlet.taken)
      ensures inlet.calls > old(inlet.calls) && inlet.gone == (r == Closed || r == Failure)
    {
      var count: nat;
      r, count := inlet.Recv(input);
      while r == RecvResult.Interrupted
        invariant inlet.calls > old(inlet.calls) && inlet.gone == (r == Closed || r == Failure)
        invariant Valid() && pos == len
        invariant r.Chunk? ==> 0 < count <= CHUNK && inlet.taken == old(inlet.taken) + input[..count]
        invariant !r.Chunk? ==> inlet.taken == old(inlet.taken)
        decreases r == RecvResult.Interrupted, |inlet.script|
      {
        r, count := inlet.Recv(input);
      }
      if r.Chunk? {
        pos := 0;
        len := count;
        assert Unread() == input[..count];
      }
    }

    /** Looks at one buffered byte: 0 while a frame is incomplete, -1 for a frame
        that is skipped, otherwise the length of the payload now in `out`. */
    method Step(out: array<byte>, cap: nat) returns (n: int, ghost b: byte)
      requires Valid() && pos < len && cap <= out.Length && out != frame && out != input
      modifies this`pos, this`used, this`discarding, frame, out
      ensures Valid() && pos == old(pos) + 1 && old(Unread()) == [b] + Unread()
      ensures State() == Push(old(State()), CLIENT_BODY, cap, b).0
      ensures -1 <= n <= cap
      ensures Payloads(Push(old(State()), CLIENT_BODY, cap, b).1) == if n > 0 then [out[..n]] else []
    {
      hide Push;
      var here := input[pos];
      b := here;
      pos := pos + 1;
      n := 0;
      if here != 0 {
        CollectIsPush(State(), CLIENT_BODY, cap, here);
        Collect(here);
      } else {
        DelimiterIsIdle(State(), CLIENT_BODY, cap);
        n := EndOfFrame(out, cap);
      }
    }

    /** Consumes buffered and freshly received bytes up to the first valid frame.
        Returns its length, 0 when there is nothing more for now, or -1 when the
        connection is gone. `consumed` is what this call looked at. */
    method ReceiveFrame(out: array<byte>, cap: nat) returns (n: int, ghost consumed: seq<byte>)
      requires Valid() && cap <= out.Length && out != frame && out != input
      modifies this, inlet, input, frame, out
      ensures Valid() && -1 <= n <= cap
      ensures old(inlet.taken) <= inlet.taken
      ensures old(Unread()) + inlet.taken[|old(inlet.taken)|..] == consumed + Unread()
      ensures Run(old(State()), CLIENT_BODY, cap, consumed) == (State(), if n > 0 then [out[..n]] else [])
      ensures n <= 0 ==> Unread() == [] && inlet.calls > old(inlet.calls) && inlet.gone == (n == -1)
    {
      hide Run, Push;
      consumed := [];
      n := 0;
      var received := false;
      ghost var start, initial := Unread(), State();
      RunEmpty(initial, CLIENT_BODY, cap);
      ghost var fetched: seq<byte> := [];
      while n <= 0
        invariant Valid() && -1 <= n <= cap
        invariant inlet.taken == old(inlet.taken) + fetched
        invariant start + fetched == consumed + Unread()
        invariant Run(initial, CLIENT_BODY, cap, consumed) == (State(), if n > 0 then [out[..n]] else [])
        invariant inlet.calls >= old(inlet.calls)
        invariant received ==> inlet.calls > old(inlet.calls) && !inlet.gone
        decreases n <= 0, !received, len - pos
      {
        if pos == len {
          if received {
            n := 0;
            break;
          }
          assert Unread() == [];
          var r := Refill();
          if !r.Chunk? {
            n := if r == Nothing then 0 else -1;
            break;
          }
          Refilled(start, fetched, consumed, Unread());
          fetched := fetched + Unread();
          received := true;
        }
        ghost var before, b := State(), 0;
        n, b := Step(out, cap);
        RunAppend(initial, before, CLIENT_BODY, cap, consumed, b);
        Advanced(start + fetched, consumed, b, Unread());
        consumed := consumed + [b];
      }
    }
  }

  /** One pass of a client's main loop: at most 64 frames, fewer only when the
      socket has nothing more or is gone. What it delivers depends on the bytes
      it consumed and not on how they were cut into chunks. */
  method Poll(rx: ChunkReceiver, out: array<byte>, cap: nat)
    returns (frames: seq<seq<byte>>, running: bool, ghost consumed: seq<byte>)
    requires rx.Valid() && cap <= out.Length && out != rx.frame && out != rx.input
    modifies rx, rx.inlet, rx.input, rx.frame, out
    ensures rx.Valid() && old(rx.inlet.taken) <= rx.inlet.taken
    ensures old(rx.Unread()) + rx.inlet.taken[|old(rx.inlet.taken)|..] == consumed + rx.Unread()
    ensures Run(old(rx.State()), CLIENT_BODY, cap, consumed) == (rx.State(), frames)
    ensures |frames| <= 64 && (|frames| < 64 ==> rx.Unread() == [] && rx.inlet.gone == !running)
  {
    hide Run, Push;
    frames, running, consumed := [], true, [];
    ghost var start, initial := rx.Unread(), rx.State();
    ghost var before := rx.inlet.taken;
    RunEmpty(initial, CLIENT_BODY, cap);
    var count := 0;
    while count < 64
      invariant rx.Valid() && before <= rx.inlet.taken && |frames| == count <= 64
      invariant start + rx.inlet.taken[|before|..] == consumed + rx.Unread()
      invariant Run(initial, CLIENT_BODY, cap, consumed) == (rx.State(), frames)
    {
      ghost var state, unread, taken := rx.State(), rx.Unread(), rx.inlet.taken;
      var n: int;
      ghost var part: seq<byte>;
      n, part := rx.ReceiveFrame(out, cap);
      RunConcat(initial, CLIENT_BODY, cap, consumed, part);
      Joined(start, before, taken, rx.inlet.taken, consumed, unread, part, rx.Unread());
      consumed := consumed + part;
      if n <= 0 {
        running := n == 0;
        assert frames + [] == frames;
        break;
      }
      frames := frames + [out[..n]];
      count := count + 1;
    }
  }

  lemma Joined(start: seq<byte>, t0: seq<byte>, t1: seq<byte>, t2: seq<byte>,
               consumed: seq<byte>, unread: seq<byte>, part: seq<byte>, left: seq<byte>)
    requires t0 <= t1 <= t2
    requires start + t1[|t0|..] == consumed + unread
    requires unread + t2[|t1|..] == part + left
    ensures start + t2[|t0|..] == (consumed + part) + left
  {
    assert t2[|t0|..] == t1[|t0|..] + t2[|t1|..];
    assert start + (t1[|t0|..] + t2[|t1|..]) == (start + t1[|t0|..]) + t2[|t1|..];
    assert (consumed + unread) + t2[|t1|..] == consumed + (unread + t2[|t1|..]);
    assert consumed + (part + left) == (consumed + part) + left;
  }

  lemma Refilled(start: seq<byte>, fetched: seq<byte>, consumed: seq<byte>, unread: seq<byte>)
    requires start + fetched == consumed + []
    ensures start + (fetched + unread) == consumed + unread
  {
    assert start + (fetched + unread) == (start + fetched) + unread;
    assert consumed + [] == consumed;
  }

  lemma Advanced(total: seq<byte>, consumed: seq<byte>, b: byte, rest: seq<byte>)
    requires total == consumed + ([b] + rest)
    ensures total == consumed + [b] + rest
  {
  }

  lemma RunAppend(initial: Receiver, mid: Receiver, limit: nat, cap: nat, bytes: seq<byte>, b: byte)
    requires Run(initial, limit, cap, bytes) == (mid, [])
    ensures Run(initial, limit, cap, bytes + [b]) == (Push(mid, limit, cap, b).0, Payloads(Push(mid, limit, cap, b).1))
  {
    hide Run, Push;
    RunConcat(initial, limit, cap, bytes, [b]);
    RunOne(mid, limit, cap, b);
    assert [] + Payloads(Push(mid, limit, cap, b).1) == Payloads(Push(mid, limit, cap, b).1);
  }

  lemma CollectIsPush(rx: Receiver, limit: nat, cap: nat, b: byte)
    requires b != 0
    ensures Push(rx, limit, cap, b) == (Push(rx, limit, 0, b).0, Waiting)
  {
  }

  lemma DelimiterIsIdle(rx: Receiver, limit: nat, cap: nat)
    ensures Push(rx, limit, cap, 0).0 == IDLE && Push(rx, limit, cap, 0).1 != Waiting
  {
  }
}
