/** Frames on the byte stream: a checksummed payload, stuffed and delimited by
    one zero, and what a receiver with a bounded body buffer delivers. */
module Framing {
  import opened Bytes
  import Crc16
  import Cobs

  /** The server's body buffer (`tcp_frame_rx`) and the client's (`tcp_rx`). */
  const SERVER_BODY := 66
  const CLIENT_BODY := 64

  /** The payload buffers that the server and the clients pass to their receivers. */
  const SERVER_CAP := 16
  const CLIENT_CAP := 64

  /** The largest payload each sender agrees to frame. */
  const CLIENT_PAYLOAD := 64
  const SERVER_PAYLOAD := 62

  function Body(payload: seq<byte>): seq<byte> {
    Cobs.Encode(Crc16.Sealed(payload))
  }

  function Framed(payload: seq<byte>): seq<byte> {
    Body(payload) + [0]
  }

  function FramedAll(payloads: seq<seq<byte>>): seq<byte> {
    if payloads == [] then [] else Framed(payloads[0]) + FramedAll(payloads[1..])
  }

  datatype Receiver = Receiver(body: seq<byte>, discarding: bool)

  const IDLE := Receiver([], false)

  datatype Outcome = Waiting | Refused | Delivered(payload: seq<byte>)

  /** The verdict on a frame body once its delimiter has arrived. */
  function Verdict(body: seq<byte>, cap: nat): Outcome {
    match Cobs.Decode(body)
    case Invalid => Refused
    case Valid(raw) =>
      if |raw| < 3 || |raw| - 2 > cap || !Crc16.Accepted(raw) then Refused
      else Delivered(raw[..|raw| - 2])
  }

  function Push(rx: Receiver, limit: nat, cap: nat, b: byte): (Receiver, Outcome) {
    if b != 0 then
      if rx.discarding then (rx, Waiting)
      else if |rx.body| >= limit then (rx.(discarding := true), Waiting)
      else (rx.(body := rx.body + [b]), Waiting)
    else
      (IDLE, if rx.discarding || rx.body == [] then Refused else Verdict(rx.body, cap))
  }

  function Payloads(o: Outcome): seq<seq<byte>> {
    if o.Delivered? then [o.payload] else []
  }

  /** The receiver after a whole stretch of bytes, and the payloads it delivered on the way. */
  function Run(rx: Receiver, limit: nat, cap: nat, bytes: seq<byte>): (Receiver, seq<seq<byte>>)
    decreases |bytes|
  {
    if bytes == [] then (rx, [])
    else
      var (next, outcome) := Push(rx, limit, cap, bytes[0]);
      var (last, delivered) := Run(next, limit, cap, bytes[1..]);
      (last, Payloads(outcome) + delivered)
  }

  // --- The stream may be cut anywhere --------------------------------------------

  lemma RunStep(rx: Receiver, limit: nat, cap: nat, bytes: seq<byte>)
    requires bytes != []
    ensures
      var (next, outcome) := Push(rx, limit, cap, bytes[0]);
      var (last, rest) := Run(next, limit, cap, bytes[1..]);
      Run(rx, limit, cap, bytes) == (last, Payloads(outcome) + rest)
  {
    hide Push, Payloads;
  }

  lemma RunEmpty(rx: Receiver, limit: nat, cap: nat)
    ensures Run(rx, limit, cap, []) == (rx, [])
  {
  }

  /** However a stream is cut in two, the payloads are the same. */
  lemma {:induction false} RunConcat(rx: Receiver, limit: nat, cap: nat, a: seq<byte>, b: seq<byte>)
    ensures
      var (mid, first) := Run(rx, limit, cap, a);
      var (last, second) := Run(mid, limit, cap, b);
      Run(rx, limit, cap, a + b) == (last, first + second)
    decreases |a|
  {
    hide Push, Run, Payloads;
    if a == [] {
      RunEmpty(rx, limit, cap);
      assert a + b == b;
      assert [] + Run(rx, limit, cap, b).1 == Run(rx, limit, cap, b).1;
    } else {
      var (next, outcome) := Push(rx, limit, cap, a[0]);
      RunConcat(next, limit, cap, a[1..], b);
      RunStep(rx, limit, cap, a);
      RunStep(rx, limit, cap, a + b);
      assert (a + b)[1..] == a[1..] + b;
      var (mid, rest) := Run(next, limit, cap, a[1..]);
      var second := Run(mid, limit, cap, b).1;
      assert Payloads(outcome) + (rest + second) == (Payloads(outcome) + rest) + second;
    }
  }

  lemma {:induction false} RunOne(rx: Receiver, limit: nat, cap: nat, b: byte)
    ensures Run(rx, limit, cap, [b]) == (Push(rx, limit, cap, b).0, Payloads(Push(rx, limit, cap, b).1))
  {
    hide Verdict;
    var (next, outcome) := Push(rx, limit, cap, b);
    assert [b][1..] == [];
    assert Run(next, limit, cap, []) == (next, []);
    assert Payloads(outcome) + [] == Payloads(outcome);
  }

  /** Whatever came before it, a delimiter leaves the receiver idle: damage never
      reaches a frame past the next surviving delimiter. */
  lemma DelimiterResynchronises(rx: Receiver, limit: nat, cap: nat, before: seq<byte>, after: seq<byte>)
    ensures Run(rx, limit, cap, before + [0]).0 == IDLE
    ensures Run(rx, limit, cap, before + [0] + after).1 ==
            Run(rx, limit, cap, before + [0]).1 + Run(IDLE, limit, cap, after).1
  {
    hide Run, Verdict;
    RunConcat(rx, limit, cap, before, [0]);
    RunOne(Run(rx, limit, cap, before).0, limit, cap, 0);
    RunConcat(rx, limit, cap, before + [0], after);
  }

  // --- What one frame delivers ------------------------------------------------------

  lemma {:induction false} RunBody(rx: Receiver, limit: nat, cap: nat, bytes: seq<byte>)
    requires 0 !in bytes && !rx.discarding && |rx.body| <= limit
    ensures Run(rx, limit, cap, bytes).1 == []
    ensures |rx.body| + |bytes| <= limit ==> Run(rx, limit, cap, bytes).0 == Receiver(rx.body + bytes, false)
    ensures |rx.body| + |bytes| > limit ==> Run(rx, limit, cap, bytes).0.discarding
    decreases |bytes|
  {
    if bytes != [] {
      var b, rest := bytes[0], bytes[1..];
      if |rx.body| == limit {
        RunDiscarding(rx.(discarding := true), limit, cap, rest);
      } else {
        RunBody(rx.(body := rx.body + [b]), limit, cap, rest);
        assert rx.body + [b] + rest == rx.body + bytes;
      }
    } else {
      assert rx.body + bytes == rx.body;
    }
  }

  lemma {:induction false} RunDiscarding(rx: Receiver, limit: nat, cap: nat, bytes: seq<byte>)
    requires 0 !in bytes && rx.discarding
    ensures Run(rx, limit, cap, bytes) == (rx, [])
    decreases |bytes|
  {
    hide Verdict;
    if bytes != [] {
      assert bytes[0] in bytes;
      RunDiscarding(rx, limit, cap, bytes[1..]);
      assert Payloads(Waiting) + [] == [];
    }
  }

  lemma RunSegment(limit: nat, cap: nat, body: seq<byte>)
    requires 0 !in body && body != []
    ensures Run(IDLE, limit, cap, body + [0]) ==
      (IDLE, if |body| <= limit then Payloads(Verdict(body, cap)) else [])
  {
    hide Run, Verdict;
    RunBody(IDLE, limit, cap, body);
    RunConcat(IDLE, limit, cap, body, [0]);
    var mid := Run(IDLE, limit, cap, body).0;
    RunOne(mid, limit, cap, 0);
    assert IDLE.body + body == body;
    var outcome := Push(mid, limit, cap, 0).1;
    assert [] + Payloads(outcome) == Payloads(outcome);
    if |body| <= limit {
      assert mid == Receiver(body, false);
      assert outcome == Verdict(body, cap);
    }
  }

  lemma VerdictOnSealed(payload: seq<byte>, cap: nat)
    ensures Verdict(Body(payload), cap) ==
      if payload == [] || |payload| > cap then Refused else Delivered(payload)
  {
    Cobs.RoundTrip(Crc16.Sealed(payload));
    Crc16.SealedIsAccepted(payload);
    assert Crc16.Sealed(payload)[..|payload|] == payload;
  }

  /** A frame from an idle receiver delivers its payload exactly when the payload
      is not empty and fits both the body buffer and the caller's buffer. */
  lemma FrameDelivery(payload: seq<byte>, limit: nat, cap: nat)
    requires 3 <= limit <= 254
    ensures Run(IDLE, limit, cap, Framed(payload)) ==
      (IDLE, if 1 <= |payload| <= cap && |payload| <= limit - 3 then [payload] else [])
  {
    hide Run;
    Cobs.RoundTrip(Crc16.Sealed(payload));
    Cobs.ShortOverhead(Crc16.Sealed(payload));
    Cobs.EncodedLength([], Crc16.Sealed(payload));
    RunSegment(limit, cap, Body(payload));
    VerdictOnSealed(payload, cap);
  }

  /** The packets a client sends, and those a server sends, by size. */
  datatype ClientKind = Hello | Leave | Ack | Delta | ClientName | ClientRespawn | ClientBrick

  datatype ServerKind =
    | Snapshot | Shot | ServerName | Seats | Welcome | Reject | LeaveAck
    | ServerRespawn | BrickDelta | BrickFull | MatchEnd | RoundStart
    | ReliableEvent(inner: ServerKind)

  function ClientSize(k: ClientKind): nat {
    match k
    case Hello => 2
    case Leave => 2
    case Ack => 4
    case Delta => 5
    case ClientName => 11
    case ClientRespawn => 7
    case ClientBrick => 5
  }

  /** A reliable event wraps one of six kinds, and never another wrapper. */
  predicate Wrappable(k: ServerKind) {
    k.ServerName? || k.ServerRespawn? || k.BrickDelta? || k.BrickFull? || k.MatchEnd? || k.RoundStart?
  }

  function ServerSize(k: ServerKind): nat {
    match k
    case Snapshot => 21
    case Shot => 7
    case ServerName => 11
    case Seats => 3
    case Welcome => 5
    case Reject => 3
    case LeaveAck => 2
    case ServerRespawn => 7
    case BrickDelta => 5
    case BrickFull => 52
    case MatchEnd => 43
    case RoundStart => 3
    case ReliableEvent(inner) => 4 + ServerSize(inner)
  }

  /** From a Linux client to the server, with whatever buffer the server passes: a
      payload the sender accepts arrives unchanged exactly when it is not empty, fits
      that buffer and is not of the largest size. The server passes 16 bytes. */
  lemma ClientToServer(payload: seq<byte>, cap: nat)
    requires |payload| <= CLIENT_PAYLOAD
    ensures Run(IDLE, SERVER_BODY, cap, Framed(payload)).1 == [payload] <==>
      1 <= |payload| < CLIENT_PAYLOAD && |payload| <= cap
    ensures Run(IDLE, SERVER_BODY, SERVER_CAP, Framed(payload)).1 == [payload] <==> 1 <= |payload| <= SERVER_CAP
  {
    FrameDelivery(payload, SERVER_BODY, cap);
    FrameDelivery(payload, SERVER_BODY, SERVER_CAP);
    assert |[payload]| == 1;
  }

  /** From the server to a Linux client, likewise; the clients pass 64 bytes. */
  lemma ServerToClient(payload: seq<byte>, cap: nat)
    requires |payload| <= SERVER_PAYLOAD
    ensures Run(IDLE, CLIENT_BODY, cap, Framed(payload)).1 == [payload] <==>
      1 <= |payload| < SERVER_PAYLOAD && |payload| <= cap
    ensures Run(IDLE, CLIENT_BODY, CLIENT_CAP, Framed(payload)).1 == [payload] <==> 1 <= |payload| < SERVER_PAYLOAD
  {
    FrameDelivery(payload, CLIENT_BODY, cap);
    FrameDelivery(payload, CLIENT_BODY, CLIENT_CAP);
    assert |[payload]| == 1;
  }

  /** Every packet that either side sends gets through to the other. */
  lemma EveryKindFits(ck: ClientKind, sk: ServerKind, payload: seq<byte>)
    ensures |payload| == ClientSize(ck) ==> Run(IDLE, SERVER_BODY, SERVER_CAP, Framed(payload)).1 == [payload]
    ensures |payload| == ServerSize(sk) && (sk.ReliableEvent? ==> Wrappable(sk.inner)) ==>
      Run(IDLE, CLIENT_BODY, CLIENT_CAP, Framed(payload)).1 == [payload]
  {
    hide Run, Framed;
    if |payload| == ClientSize(ck) {
      ClientToServer(payload, SERVER_CAP);
    }
    if |payload| == ServerSize(sk) && (sk.ReliableEvent? ==> Wrappable(sk.inner)) {
      ServerToClient(payload, CLIENT_CAP);
    }
  }

  predicate Deliverable(payload: seq<byte>, limit: nat, cap: nat) {
    1 <= |payload| <= cap && |payload| <= limit - 3
  }

  /** A stream of frames delivers every payload, once and in order. */
  lemma {:induction false} StreamDelivery(payloads: seq<seq<byte>>, limit: nat, cap: nat)
    requires 3 <= limit <= 254
    requires forall p :: p in payloads ==> Deliverable(p, limit, cap)
    ensures Run(IDLE, limit, cap, FramedAll(payloads)) == (IDLE, payloads)
    decreases |payloads|
  {
    hide Run, Framed;
    if payloads == [] {
      RunEmpty(IDLE, limit, cap);
    } else {
      var first, rest := payloads[0], payloads[1..];
      assert Deliverable(first, limit, cap);
      FrameDelivery(first, limit, cap);
      StreamDelivery(rest, limit, cap);
      RunConcat(IDLE, limit, cap, Framed(first), FramedAll(rest));
      assert payloads == [first] + rest;
    }
  }

  /** A connection that breaks off anywhere has delivered a prefix of the
      payloads: never part of one, never one out of order. */
  lemma BrokenStreamDelivery(payloads: seq<seq<byte>>, limit: nat, cap: nat, arrived: seq<byte>)
    requires 3 <= limit <= 254
    requires forall p :: p in payloads ==> Deliverable(p, limit, cap)
    requires arrived <= FramedAll(payloads)
    ensures Run(IDLE, limit, cap, arrived).1 <= payloads
  {
    hide Run;
    var missing := FramedAll(payloads)[|arrived|..];
    assert arrived + missing == FramedAll(payloads);
    RunConcat(IDLE, limit, cap, arrived, missing);
    StreamDelivery(payloads, limit, cap);
  }

  /** Replacing the bytes of a stretch that is followed by a surviving delimiter,
      however many there are, leaves every later frame's delivery alone. */
  lemma DamageIsContained(damaged: seq<byte>, payloads: seq<seq<byte>>, limit: nat, cap: nat)
    requires 3 <= limit <= 254
    requires forall p :: p in payloads ==> Deliverable(p, limit, cap)
    ensures
      var delivered := Run(IDLE, limit, cap, damaged + [0] + FramedAll(payloads)).1;
      |delivered| >= |payloads| && delivered[|delivered| - |payloads|..] == payloads
  {
    hide Run;
    DelimiterResynchronises(IDLE, limit, cap, damaged, FramedAll(payloads));
    StreamDelivery(payloads, limit, cap);
  }

  // --- Two receivers of different sizes ------------------------------------------------

  /** No stretch between delimiters, counting `pending` bytes already collected, exceeds `limit`. */
  predicate BodiesFit(pending: nat, limit: nat, bytes: seq<byte>)
    decreases |bytes|
  {
    bytes == [] ||
    (if bytes[0] == 0 then BodiesFit(0, limit, bytes[1..])
     else pending < limit && BodiesFit(pending + 1, limit, bytes[1..]))
  }

  /** On streams whose bodies fit the smaller buffer, the two receivers agree byte for byte. */
  lemma {:induction false} ReceiversAgree(rx: Receiver, small: nat, large: nat, cap: nat, bytes: seq<byte>)
    requires small <= large && !rx.discarding && BodiesFit(|rx.body|, small, bytes)
    ensures Run(rx, small, cap, bytes) == Run(rx, large, cap, bytes)
    decreases |bytes|
  {
    hide Verdict;
    if bytes != [] {
      ReceiversAgree(Push(rx, small, cap, bytes[0]).0, small, large, cap, bytes[1..]);
    }
  }
}
