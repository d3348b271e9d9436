/** One client's session after its handshake: the server's reliable stream and its
    copy of the room's round, phase and bricks; the client; and two first-in,
    first-out channels that may lose any frame. Rounds are counted without bound
    here, and reduced to one byte on the wire; so are revisions, to two. */
module Session {
  import opened Bytes
  import opened Client
  import opened Grid
  import RQ = ReliableQueue

  /** Reliable events. A notice is a NAME or a RESPAWN. */
  datatype Event =
    | StartEvent(round: nat)
    | FullEvent(round: nat, bricks: set<Cell>)
    | DeltaEvent(round: nat, cell: Cell)
    | EndEvent(round: nat)
    | NoticeEvent(round: nat, named: bool)

  /** Packets sent once, outside the reliable stream. */
  datatype Direct =
    | WelcomeMsg(round: nat, phase: byte)
    | FullMsg(round: nat, bricks: set<Cell>)
    | DeltaMsg(round: nat, cell: Cell)
    | SnapshotMsg(round: nat)
    | ChatterMsg(round: nat)

  /** A frame on its way to the client: a copy of the n-th stored wrapper, or a direct packet. */
  datatype Frame = Stored(n: nat) | Sent(d: Direct)

  function RoundByte(round: nat): byte {
    round % 256
  }

  function Inner(e: Event): (p: Packet)
    ensures ValidInner(p)
  {
    match e
    case StartEvent(r) => RoundStart(RoundByte(r))
    case FullEvent(r, b) => BrickFull(RoundByte(r), b)
    case DeltaEvent(r, c) => BrickDelta(RoundByte(r), c)
    case EndEvent(r) => MatchEnd(RoundByte(r))
    case NoticeEvent(r, named) => if named then Name else Respawn(RoundByte(r))
  }

  function Wire(d: Direct): Packet {
    match d
    case WelcomeMsg(r, phase) => Welcome(RoundByte(r), phase)
    case FullMsg(r, b) => BrickFull(RoundByte(r), b)
    case DeltaMsg(r, c) => BrickDelta(RoundByte(r), c)
    case SnapshotMsg(r) => Snapshot(RoundByte(r))
    case ChatterMsg(_) => Other
  }

  datatype Session = Session(
    log: seq<Event>,       // every event queued for this client
    acked: nat,            // how many of them the server knows to be applied
    failed: bool,          // the queue overflowed; the connection is condemned
    down: seq<Frame>,
    up: seq<word>,
    client: State,
    trace: seq<Event>,     // the events the client has applied, in order
    round: nat,
    phase: byte,
    bricks: set<Cell>)

  datatype Step =
    | BreakBrick(cell: Cell)
    | EchoBrick(cell: Cell)
    | Resync
    | Announce(named: bool)
    | TickSnapshot
    | Chat
    | EndRound
    | NewRound(bricks: set<Cell>)
    | Timeout
    | AckArrives
    | AckLost(i: nat)
    | FrameArrives
    | FrameLost(i: nat)

  function Enqueue(s: Session, e: Event): Session {
    if s.failed || |s.log| - s.acked >= RQ.RING then s.(failed := true)
    else s.(log := s.log + [e],
            down := if |s.log| == s.acked then s.down + [Stored(|s.log| + 1)] else s.down)
  }

  function Send(s: Session, d: Direct): Session {
    s.(down := s.down + [Sent(d)])
  }

  function Without<T>(xs: seq<T>, i: nat): seq<T>
    requires i < |xs|
  {
    xs[..i] + xs[i + 1..]
  }

  /** The packet a frame becomes on the wire. */
  function PacketOf(log: seq<Event>, f: Frame): Packet {
    match f
    case Stored(n) => if 1 <= n <= |log| then Reliable(RQ.Revision(n), Inner(log[n - 1])) else Other
    case Sent(d) => Wire(d)
  }

  /** Does the client apply the event carried by this frame? */
  predicate Applies(s: Session, f: Frame) {
    f.Stored? && 1 <= f.n <= |s.log| && s.client.welcomed && NextRevision(s.client, RQ.Revision(f.n))
  }

  function Deliver(s: Session, f: Frame): Session {
    var (client, acks) := Received(s.client, PacketOf(s.log, f));
    s.(client := client, up := s.up + acks,
       trace := if Applies(s, f) then s.trace + [s.log[f.n - 1]] else s.trace)
  }

  function Acknowledge(s: Session, ack: word): Session {
    var acked := if s.acked <= |s.log| then RQ.Retired(s.acked, |s.log|, ack) else s.acked;
    s.(acked := acked,
       down := if RQ.Resends(s.acked, |s.log|, ack) then s.down + [Stored(acked + 1)] else s.down)
  }

  /** A step that the server takes, or that depends on its listening. */
  predicate ServerStep(step: Step) {
    !step.FrameArrives? && !step.FrameLost? && !step.AckLost?
  }

  /** One step of the server, the client or the network. A shot at the edge of a
      board without an outer wall breaks a cell beyond the grid: no map changes, but
      it is announced like any other. On a condemned connection the server takes no
      more steps, but what is in flight may still arrive or be lost; a step that is not
      possible changes nothing. */
  function Next(s: Session, step: Step): Session {
    if s.failed && ServerStep(step) then s
    else
      match step
      case BreakBrick(cell) =>
        if s.phase == PLAYING then
          Enqueue(Send(s.(bricks := s.bricks - {cell}), DeltaMsg(s.round, cell)), DeltaEvent(s.round, cell))
        else s
      case EchoBrick(cell) => if cell !in s.bricks then Send(s, DeltaMsg(s.round, cell)) else s
      case Resync => Send(s, FullMsg(s.round, s.bricks))
      case Announce(named) => Enqueue(s, NoticeEvent(s.round, named))
      case TickSnapshot => Send(s, SnapshotMsg(s.round))
      case Chat => Send(s, ChatterMsg(s.round))
      case EndRound =>
        if s.phase == PLAYING then Enqueue(s.(phase := OVER), EndEvent(s.round)) else s
      case NewRound(bricks) =>
        var t := s.(round := s.round + 1, phase := PLAYING, bricks := Inside(bricks));
        Enqueue(Enqueue(t, StartEvent(t.round)), FullEvent(t.round, Inside(bricks)))
      case Timeout =>
        if s.acked < |s.log| then s.(down := s.down + [Stored(s.acked + 1)]) else s
      case AckArrives => if s.up == [] then s else Acknowledge(s.(up := s.up[1..]), s.up[0])
      case AckLost(i) => if i < |s.up| then s.(up := Without(s.up, i)) else s
      case FrameArrives => if s.down == [] then s else Deliver(s.(down := s.down[1..]), s.down[0])
      case FrameLost(i) => if i < |s.down| then s.(down := Without(s.down, i)) else s
  }

  /** A handshake has just been accepted in a room that is playing or showing results. */
  function Opening(round: nat, playing: bool, bricks: set<Cell>, client: State): Session {
    var phase := if playing then PLAYING else OVER;
    Session(
      if playing then [StartEvent(round), FullEvent(round, Inside(bricks))] else [EndEvent(round)],
      0, false, [Sent(WelcomeMsg(round, phase)), Stored(1)], [], client, [], round, phase, Inside(bricks))
  }

  predicate NewClient(c: State) {
    !c.welcomed && c.applied == 0
  }

  function Exec(s: Session, steps: seq<Step>): Session {
    if steps == [] then s else Next(Exec(s, steps[..|steps| - 1]), steps[|steps| - 1])
  }

  // --- The stream: stop and wait ------------------------------------------------------

  ghost predicate DownOrdered(down: seq<Frame>, low: nat, high: nat) {
    && (forall i :: 0 <= i < |down| && down[i].Stored? ==> 1 <= down[i].n && low <= down[i].n <= high)
    && (forall i, j :: 0 <= i < j < |down| && down[i].Stored? && down[j].Stored? ==> down[i].n <= down[j].n)
  }

  /** Acknowledgements in flight repeat `acked`, and then perhaps the one after it. */
  ghost predicate UpOrdered(up: seq<word>, acked: nat, applied: nat) {
    && (forall i :: 0 <= i < |up| ==>
          up[i] == RQ.Revision(acked) || (applied == acked + 1 && up[i] == RQ.Revision(applied)))
    && (forall i, j :: 0 <= i < j < |up| && applied == acked + 1 && up[i] == RQ.Revision(applied) ==> up[j] == up[i])
  }

  ghost predicate StreamInv(s: Session) {
    && s.acked <= |s.trace| <= s.acked + 1
    && |s.trace| <= |s.log| <= s.acked + RQ.RING
    && s.trace == s.log[..|s.trace|]
    && s.client.applied == RQ.Revision(|s.trace|)
    && (!s.client.welcomed ==> s.trace == [])
    && DownOrdered(s.down, |s.trace|, if s.acked < |s.log| then s.acked + 1 else s.acked)
    && UpOrdered(s.up, s.acked, |s.trace|)
  }

  lemma OpeningStream(round: nat, playing: bool, bricks: set<Cell>, client: State)
    requires NewClient(client)
    ensures StreamInv(Opening(round, playing, bricks, client))
  {
  }

  lemma EnqueueStream(s: Session, e: Event)
    requires StreamInv(s)
    ensures StreamInv(Enqueue(s, e))
  {
    hide RQ.Revision;
    assert (s.log + [e])[..|s.trace|] == s.log[..|s.trace|];
  }

  lemma SendStream(s: Session, d: Direct)
    requires StreamInv(s)
    ensures StreamInv(Send(s, d))
  {
    hide RQ.Revision;
  }

  lemma ResendStream(s: Session)
    requires StreamInv(s) && s.acked < |s.log|
    ensures StreamInv(s.(down := s.down + [Stored(s.acked + 1)]))
  {
    hide RQ.Revision;
  }

  lemma AckStream(s: Session)
    requires StreamInv(s) && s.up != []
    ensures StreamInv(Acknowledge(s.(up := s.up[1..]), s.up[0]))
  {
    hide RQ.Revision;
    RQ.NextRevision(s.acked);
    var ack, rest := s.up[0], s.up[1..];
    assert forall i :: 0 <= i < |rest| ==> rest[i] == s.up[i + 1];
    var t := s.(up := rest, acked := RQ.Retired(s.acked, |s.log|, ack));
    assert StreamInv(t) by {
      if t.acked == s.acked {
      } else {
        assert |s.trace| == s.acked + 1;
      }
    }
    if RQ.Resends(s.acked, |s.log|, ack) {
      ResendStream(t);
    }
  }

  lemma LossStream(s: Session, i: nat)
    requires StreamInv(s)
    ensures i < |s.up| ==> StreamInv(s.(up := Without(s.up, i)))
    ensures i < |s.down| ==> StreamInv(s.(down := Without(s.down, i)))
  {
    hide RQ.Revision;
    if i < |s.up| {
      var rest := Without(s.up, i);
      assert forall j :: 0 <= j < |rest| ==> rest[j] == s.up[if j < i then j else j + 1];
    }
    if i < |s.down| {
      var rest := Without(s.down, i);
      assert forall j :: 0 <= j < |rest| ==> rest[j] == s.down[if j < i then j else j + 1];
    }
  }

  /** What arrives is the event the client expects next, or a copy of the one before it. */
  lemma ArrivalStream(s: Session)
    requires StreamInv(s) && s.down != []
    ensures StreamInv(Deliver(s.(down := s.down[1..]), s.down[0]))
    ensures var f := s.down[0]; Applies(s, f) <==> s.client.welcomed && f == Stored(|s.trace| + 1)
  {
    hide RQ.Revision, Inner, Wire, Applied;
    var f, rest, k := s.down[0], s.down[1..], |s.trace|;
    assert forall i :: 0 <= i < |rest| ==> rest[i] == s.down[i + 1];
    RQ.NextRevision(k);
    if f.Stored? {
      assert f.n == k || f.n == k + 1;
      AppliedKeepsStream(s.client.(applied := RQ.Revision(f.n)), Inner(s.log[f.n - 1]));
      if Applies(s, f) {
        assert s.log[..k] + [s.log[k]] == s.log[..k + 1];
      }
    } else {
      DirectKeepsStream(s.client, f.d);
    }
  }

  lemma AppliedKeepsStream(c: State, p: Packet)
    ensures Applied(c, p, true).applied == c.applied && Applied(c, p, true).welcomed == c.welcomed
  {
  }

  lemma DirectKeepsStream(c: State, d: Direct)
    ensures
      var (next, acks) := Received(c, Wire(d));
      next.applied == c.applied && acks == [] && (c.welcomed ==> next.welcomed)
  {
  }

  lemma NextStream(s: Session, step: Step)
    requires StreamInv(s)
    ensures StreamInv(Next(s, step))
  {
    hide StreamInv, RQ.Revision, Enqueue, Deliver, Acknowledge;
    if !s.failed || !ServerStep(step) {
      match step
      case BreakBrick(cell) =>
        SameStream(s, s.(bricks := s.bricks - {cell}));
        SendStream(s.(bricks := s.bricks - {cell}), DeltaMsg(s.round, cell));
        EnqueueStream(Send(s.(bricks := s.bricks - {cell}), DeltaMsg(s.round, cell)), DeltaEvent(s.round, cell));
      case EchoBrick(cell) => SendStream(s, DeltaMsg(s.round, cell));
      case Resync => SendStream(s, FullMsg(s.round, s.bricks));
      case Announce(named) => EnqueueStream(s, NoticeEvent(s.round, named));
      case TickSnapshot => SendStream(s, SnapshotMsg(s.round));
      case Chat => SendStream(s, ChatterMsg(s.round));
      case EndRound =>
        SameStream(s, s.(phase := OVER));
        EnqueueStream(s.(phase := OVER), EndEvent(s.round));
      case NewRound(bricks) =>
        var t := s.(round := s.round + 1, phase := PLAYING, bricks := Inside(bricks));
        SameStream(s, t);
        EnqueueStream(t, StartEvent(t.round));
        EnqueueStream(Enqueue(t, StartEvent(t.round)), FullEvent(t.round, Inside(bricks)));
      case Timeout => if s.acked < |s.log| { ResendStream(s); }
      case AckArrives => if s.up != [] { AckStream(s); }
      case AckLost(i) => LossStream(s, i);
      case FrameArrives => if s.down != [] { ArrivalStream(s); }
      case FrameLost(i) => LossStream(s, i);
    }
  }

  lemma StaysCondemned(s: Session, step: Step)
    requires s.failed
    ensures Next(s, step).failed
  {
  }

  lemma SameStream(s: Session, t: Session)
    requires StreamInv(s)
    requires t.log == s.log && t.acked == s.acked && t.down == s.down && t.up == s.up
    requires t.client == s.client && t.trace == s.trace
    ensures StreamInv(t)
  {
  }

  lemma {:induction false} ExecStream(s: Session, steps: seq<Step>)
    requires StreamInv(s)
    ensures StreamInv(Exec(s, steps))
    decreases |steps|
  {
    hide StreamInv;
    if steps != [] {
      ExecStream(s, steps[..|steps| - 1]);
      NextStream(Exec(s, steps[..|steps| - 1]), steps[|steps| - 1]);
    }
  }

  /** In every run, before and after a condemnation, the events the client has applied
      are a prefix of the events queued for it, each once and in order, and lead what the server knows to be
      acknowledged by at most one, however often the revisions wrap around. */
  lemma StreamSafety(round: nat, playing: bool, bricks: set<Cell>, client: State, steps: seq<Step>)
    requires NewClient(client)
    ensures
      var s := Exec(Opening(round, playing, bricks, client), steps);
      && s.trace <= s.log
      && s.acked <= |s.trace| <= s.acked + 1
      && |s.log| - s.acked <= RQ.RING
  {
    OpeningStream(round, playing, bricks, client);
    ExecStream(Opening(round, playing, bricks, client), steps);
  }
}
