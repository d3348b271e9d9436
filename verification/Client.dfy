/** What a client does with each packet it receives: the reliable receiver, the
    round barrier, and the brick map. The two Linux clients share this behaviour. */
module Client {
  import opened Bytes
  import opened Grid

  const PLAYING: byte := 0
  const OVER: byte := 1

  /** Packets by type and length; anything else is `Other`. */
  datatype Packet =
    | Welcome(round: byte, phase: byte)
    | Reject
    | Reliable(rev: word, inner: Packet)
    | RoundStart(round: byte)
    | MatchEnd(round: byte)
    | BrickFull(round: byte, bricks: set<Cell>)
    | BrickDelta(round: byte, cell: Cell)
    | Snapshot(round: byte)
    | Respawn(round: byte)
    | Name
    | Other

  /** The packet kinds that may travel inside a reliable wrapper. */
  predicate ValidInner(p: Packet) {
    p.BrickDelta? || p.Respawn? || p.Name? || p.BrickFull? || p.MatchEnd? || p.RoundStart?
  }

  datatype State = State(
    welcomed: bool,
    round: byte,
    phase: byte,
    authorized: bool,
    mapReady: bool,
    snapshotReady: bool,
    bricks: set<Cell>,
    applied: word)

  predicate RoundIsNewer(candidate: byte, current: byte) {
    0 < (candidate - current) % 256 < 0x80
  }

  predicate GameReady(c: State) {
    c.welcomed && c.phase == PLAYING && c.authorized && c.mapReady && c.snapshotReady
  }

  predicate NextRevision(c: State, rev: word) {
    rev == (c.applied + 1) % 65536
  }

  /** Does this round start open a round that is not open yet? */
  predicate Authorizes(c: State, round: byte) {
    (round == c.round || RoundIsNewer(round, c.round)) && (round != c.round || !c.authorized)
  }

  /** The effect of a packet that is not a wrapper on a welcomed client. */
  function Applied(c: State, p: Packet, reliable: bool): State {
    match p
    case RoundStart(round) =>
      if round == c.round || RoundIsNewer(round, c.round) then
        var barred := if Authorizes(c, round) then c.(mapReady := false, snapshotReady := false) else c;
        barred.(round := round, phase := PLAYING, authorized := true)
      else c
    case MatchEnd(round) =>
      if round == c.round then c.(phase := OVER) else c
    case BrickFull(round, bricks) =>
      if round == c.round then c.(bricks := bricks, mapReady := c.mapReady || reliable) else c
    case BrickDelta(round, cell) =>
      if round == c.round && c.phase == PLAYING && InBounds(cell) then c.(bricks := c.bricks - {cell}) else c
    case Snapshot(round) =>
      if round == c.round && c.phase == PLAYING then c.(snapshotReady := true) else c
    case _ => c
  }

  /** One packet off the wire: the new state, and the acknowledgements sent. */
  function Received(c: State, p: Packet): (State, seq<word>) {
    match p
    case Welcome(round, phase) =>
      (c.(welcomed := true, round := round, phase := phase,
          authorized := false, mapReady := false, snapshotReady := false), [])
    case Reject => (c, [])
    case Reliable(rev, inner) =>
      if !c.welcomed then (c, [])
      else if !NextRevision(c, rev) || !ValidInner(inner) then (c, [c.applied])
      else (Applied(c.(applied := rev), inner, true), [rev])
    case _ =>
      if c.welcomed then (Applied(c, p, false), []) else (c, [])
  }

  // --- The receiver as the client runs it ----------------------------------------------

  class GameClient {
    var welcomed: bool
    var round: byte
    var phase: byte
    var authorized: bool
    var mapReady: bool
    var snapshotReady: bool
    var bricks: set<Cell>
    var applied: word
    /** Acknowledgements handed to the send queue. */
    var acks: seq<word>

    ghost function View(): State
      reads this
    {
      State(welcomed, round, phase, authorized, mapReady, snapshotReady, bricks, applied)
    }

    constructor (initialPhase: byte)
      ensures View() == State(false, 0, initialPhase, false, false, false, {}, 0) && acks == []
    {
      welcomed, round, phase := false, 0, initialPhase;
      authorized, mapReady, snapshotReady := false, false, false;
      bricks, applied, acks := {}, 0, [];
    }

    method HandlePacket(p: Packet, fromReliable: bool)
      requires fromReliable ==> welcomed && ValidInner(p)
      modifies this
      ensures View() == if fromReliable then Applied(old(View()), p, true) else Received(old(View()), p).0
      ensures acks == old(acks) + if fromReliable then [] else Received(old(View()), p).1
      decreases p
    {
      assert acks + [] == acks;
      if p.Welcome? {
        welcomed := true;
        round := p.round;
        phase := p.phase;
        authorized := false;
        mapReady := false;
        snapshotReady := false;
        return;
      }
      if p.Reject? || !welcomed {
        return;
      }
      if p.Reliable? {
        if p.rev != (applied + 1) % 65536 || !ValidInner(p.inner) {
          acks := acks + [applied];
          return;
        }
        applied := p.rev;
        acks := acks + [applied];
        HandlePacket(p.inner, true);
        return;
      }
      if p.RoundStart? {
        var incoming := p.round;
        if incoming == round || RoundIsNewer(incoming, round) {
          if incoming != round || !authorized {
            mapReady := false;
            snapshotReady := false;
          }
          round := incoming;
          phase := PLAYING;
          authorized := true;
        }
        return;
      }
      if p.MatchEnd? {
        if p.round == round {
          phase := OVER;
        }
        return;
      }
      if p.BrickFull? && p.round == round {
        bricks := p.bricks;
        if fromReliable {
          mapReady := true;
        }
        return;
      }
      if p.BrickDelta? && p.round == round && phase == PLAYING {
        if 0 <= p.cell.x < WIDTH && 0 <= p.cell.y < HEIGHT {
          bricks := bricks - {p.cell};
        }
        return;
      }
      if p.Snapshot? && p.round == round && phase == PLAYING {
        snapshotReady := true;
      }
    }
  }

  // --- The round barrier ------------------------------------------------------------------

  function Replay(c: State, packets: seq<Packet>): State {
    if packets == [] then c
    else Received(Replay(c, packets[..|packets| - 1]), packets[|packets| - 1]).0
  }

  /** The client just before packet k of a history. */
  function Before(c: State, packets: seq<Packet>, k: nat): State
    requires k < |packets|
  {
    Replay(c, packets[..k])
  }

  /** The packet a client in state `c` acts on when `p` arrives: `p` itself, or
      the event inside an accepted wrapper, or `Other`. */
  function ActedOn(c: State, p: Packet): Packet {
    if p.Reliable? then
      if c.welcomed && NextRevision(c, p.rev) && ValidInner(p.inner) then p.inner else Other
    else if p.Welcome? || c.welcomed then p else Other
  }

  predicate OpensRound(c: State, p: Packet) {
    var acted := ActedOn(c, p);
    acted.Welcome? || (acted.RoundStart? && Authorizes(c, acted.round))
  }

  /** Packet k is the round start that authorized round `id`, and nothing after
      it opened a round or a session again. */
  predicate AuthorizedAt(c: State, packets: seq<Packet>, k: nat, id: byte)
    requires k < |packets|
  {
    && ActedOn(Before(c, packets, k), packets[k]) == RoundStart(id)
    && OpensRound(Before(c, packets, k), packets[k])
    && forall j :: k < j < |packets| ==> !OpensRound(Before(c, packets, j), packets[j])
  }

  predicate ReliableMapAt(c: State, packets: seq<Packet>, k: nat, id: byte)
    requires k < |packets|
  {
    var acted := ActedOn(Before(c, packets, k), packets[k]);
    packets[k].Reliable? && acted.BrickFull? && acted.round == id
  }

  /** Packet k is a snapshot of round `id` that arrives while the round is played. */
  predicate SnapshotAt(c: State, packets: seq<Packet>, k: nat, id: byte)
    requires k < |packets|
  {
    ActedOn(Before(c, packets, k), packets[k]) == Snapshot(id) && Before(c, packets, k).phase == PLAYING
  }

  lemma BeforeExtended(c: State, packets: seq<Packet>, last: Packet, k: nat)
    requires k < |packets|
    ensures Before(c, packets + [last], k) == Before(c, packets, k)
  {
    assert (packets + [last])[..k] == packets[..k];
  }

  lemma ReplayExtended(c: State, packets: seq<Packet>, last: Packet)
    ensures Before(c, packets + [last], |packets|) == Replay(c, packets)
    ensures Replay(c, packets + [last]) == Received(Replay(c, packets), last).0
  {
    assert (packets + [last])[..|packets|] == packets;
  }

  /** Where the three pieces of the barrier were found in a history. */
  datatype Evidence = Evidence(start: nat, full: nat, snapshot: nat)

  predicate Supported(c0: State, packets: seq<Packet>, e: Evidence) {
    var c := Replay(c0, packets);
    && (c.authorized ==> e.start < |packets| && AuthorizedAt(c0, packets, e.start, c.round))
    && (c.authorized && c.mapReady ==>
          e.start < e.full < |packets| && ReliableMapAt(c0, packets, e.full, c.round))
    && (c.authorized && c.snapshotReady ==>
          e.start < e.snapshot < |packets| && SnapshotAt(c0, packets, e.snapshot, c.round))
  }

  predicate BringsMap(c: State, p: Packet) {
    var acted := ActedOn(c, p);
    p.Reliable? && acted.BrickFull? && acted.round == c.round
  }

  predicate BringsSnapshot(c: State, p: Packet) {
    ActedOn(c, p) == Snapshot(c.round) && c.phase == PLAYING
  }

  /** What one packet does to the barrier. */
  lemma BarrierStep(c: State, p: Packet)
    ensures
      var next, acted := Received(c, p).0, ActedOn(c, p);
      if OpensRound(c, p) then
        && !next.mapReady && !next.snapshotReady && next.welcomed
        && (next.authorized <==> acted.RoundStart?) && (acted.RoundStart? ==> acted == RoundStart(next.round))
      else
        && next.round == c.round && next.authorized == c.authorized && next.welcomed == c.welcomed
        && (next.mapReady <==> c.mapReady || BringsMap(c, p))
        && (next.snapshotReady <==> c.snapshotReady || BringsSnapshot(c, p))
  {
  }

  lemma CarriedOver(c0: State, packets: seq<Packet>, last: Packet, k: nat, id: byte)
    requires k < |packets|
    ensures ReliableMapAt(c0, packets, k, id) ==> ReliableMapAt(c0, packets + [last], k, id)
    ensures SnapshotAt(c0, packets, k, id) ==> SnapshotAt(c0, packets + [last], k, id)
  {
    hide ActedOn, Replay;
    BeforeExtended(c0, packets, last, k);
  }

  lemma StillAuthorized(c0: State, packets: seq<Packet>, last: Packet, k: nat, id: byte)
    requires k < |packets| && AuthorizedAt(c0, packets, k, id)
    requires !OpensRound(Replay(c0, packets), last)
    ensures AuthorizedAt(c0, packets + [last], k, id)
  {
    hide ActedOn, Replay, OpensRound;
    var longer := packets + [last];
    BeforeExtended(c0, packets, last, k);
    ReplayExtended(c0, packets, last);
    forall j | k < j < |longer|
      ensures !OpensRound(Before(c0, longer, j), longer[j])
    {
      if j < |packets| {
        BeforeExtended(c0, packets, last, j);
        assert longer[j] == packets[j];
      }
    }
  }

  lemma SupportedExtended(c0: State, packets: seq<Packet>, e: Evidence, last: Packet) returns (next: Evidence)
    requires Supported(c0, packets, e)
    ensures Supported(c0, packets + [last], next)
  {
    hide ActedOn, Replay, OpensRound, Received;
    var c, n := Replay(c0, packets), |packets|;
    var acted := ActedOn(c, last);
    BarrierStep(c, last);
    ReplayExtended(c0, packets, last);
    if OpensRound(c, last) {
      next := Evidence(n, n, n);
      assert (packets + [last])[n] == last;
    } else {
      next := e;
      if c.authorized {
        StillAuthorized(c0, packets, last, e.start, c.round);
        if BringsMap(c, last) {
          next := next.(full := n);
        } else if c.mapReady {
          CarriedOver(c0, packets, last, e.full, c.round);
        }
        if BringsSnapshot(c, last) {
          next := next.(snapshot := n);
        } else if c.snapshotReady {
          CarriedOver(c0, packets, last, e.snapshot, c.round);
        }
      }
    }
  }

  lemma {:induction false} FindEvidence(c0: State, packets: seq<Packet>) returns (e: Evidence)
    requires !c0.authorized
    ensures Supported(c0, packets, e)
    decreases |packets|
  {
    if packets == [] {
      e := Evidence(0, 0, 0);
    } else {
      var n := |packets| - 1;
      e := FindEvidence(c0, packets[..n]);
      e := SupportedExtended(c0, packets[..n], e, packets[n]);
      assert packets[..n] + [packets[n]] == packets;
    }
  }

  /** The state when the first n packets have been processed, the round start at e.start
      being the last to open a round: what has arrived since is remembered. */
  lemma {:induction false} Remembered(c0: State, packets: seq<Packet>, e: Evidence, id: byte, n: nat)
    requires e.start < n <= |packets| && AuthorizedAt(c0, packets, e.start, id)
    requires e.start < e.full < |packets| && ReliableMapAt(c0, packets, e.full, id)
    requires e.start < e.snapshot < |packets| && SnapshotAt(c0, packets, e.snapshot, id)
    ensures var c := Replay(c0, packets[..n]);
      && c.welcomed && c.authorized && c.round == id
      && (e.full < n ==> c.mapReady) && (e.snapshot < n ==> c.snapshotReady)
    decreases n
  {
    hide Received, ActedOn, OpensRound;
    var c := Before(c0, packets, n - 1);
    assert packets[..n][..n - 1] == packets[..n - 1];
    BarrierStep(c, packets[n - 1]);
    if n - 1 > e.start {
      Remembered(c0, packets, e, id, n - 1);
    }
  }

  /** In every packet history whatever: the game is open if and only if the round is
      being played and the client has seen, for the round it is in, the round start that
      authorized it and after that a reliable map and, while it was played, a snapshot,
      with no session or round opened since. */
  lemma BarrierHolds(c0: State, packets: seq<Packet>)
    requires !c0.authorized
    ensures var c := Replay(c0, packets);
      GameReady(c) <==> c.phase == PLAYING && exists s, m, k ::
        && 0 <= s < m < |packets| && s < k < |packets|
        && AuthorizedAt(c0, packets, s, c.round)
        && ReliableMapAt(c0, packets, m, c.round)
        && SnapshotAt(c0, packets, k, c.round)
  {
    hide Replay, AuthorizedAt, ReliableMapAt, SnapshotAt;
    var c := Replay(c0, packets);
    if GameReady(c) {
      var e := FindEvidence(c0, packets);
      assert AuthorizedAt(c0, packets, e.start, c.round);
      assert ReliableMapAt(c0, packets, e.full, c.round);
      assert SnapshotAt(c0, packets, e.snapshot, c.round);
    }
    if s, m, k :|
      && 0 <= s < m < |packets| && s < k < |packets|
      && AuthorizedAt(c0, packets, s, c.round) && ReliableMapAt(c0, packets, m, c.round)
      && SnapshotAt(c0, packets, k, c.round)
    {
      Remembered(c0, packets, Evidence(s, m, k), c.round, |packets|);
      assert packets[..|packets|] == packets;
    }
  }

  /** A round start that the client takes: sent directly, or wrapped under its next revision. */
  predicate Starts(c: State, p: Packet) {
    p.RoundStart? || (p.Reliable? && p.inner.RoundStart? && p.rev == (c.applied + 1) % 65536)
  }

  function Started(p: Packet): byte {
    match p
    case RoundStart(round) => round
    case Reliable(_, RoundStart(round)) => round
    case _ => 0
  }

  /** Between two welcomes the round only moves forward on the circle. */
  lemma RoundMovesForward(c: State, p: Packet)
    ensures var next := Received(c, p).0;
      !p.Welcome? ==>
        next.round == if c.welcomed && Starts(c, p) && 1 <= (Started(p) - c.round) % 256 <= 127 then Started(p) else c.round
    ensures var next := Received(c, p).0;
      c.welcomed && Starts(c, p) ==>
        if (Started(p) - c.round) % 256 <= 127 then
          && next.round == Started(p) && next.phase == 0 && next.authorized
          && (c.authorized && Started(p) == c.round ==> next.mapReady == c.mapReady && next.snapshotReady == c.snapshotReady)
          && (!(c.authorized && Started(p) == c.round) ==> !next.mapReady && !next.snapshotReady)
        else next == c.(applied := next.applied)
    ensures !p.Welcome? && Received(c, p).0.round != c.round ==>
      !Received(c, p).0.mapReady && !Received(c, p).0.snapshotReady
  {
  }
}
