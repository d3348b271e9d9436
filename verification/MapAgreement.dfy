/** The client's brick map is fed twice: by direct packets sent once, and by
    reliable copies that may arrive much later. This module proves that the two
    paths agree with the server's map, whatever is lost and however they interleave. */
module MapAgreement {
  import opened Bytes
  import opened Client
  import opened Grid
  import opened Session
  import RQ = ReliableQueue

  // --- What the log says ---------------------------------------------------------------

  /** The round a client is in when it has applied the first n events. */
  function RoundAt(log: seq<Event>, n: nat): nat
    requires log != [] && n <= |log|
  {
    if n == 0 then log[0].round else log[n - 1].round
  }

  /** The phase a client is in when it has applied the first n events. */
  function PhaseAt(log: seq<Event>, n: nat): byte
    requires log != [] && n <= |log|
  {
    if n == 0 then (if log[0].StartEvent? then PLAYING else OVER)
    else if log[n - 1].StartEvent? then PLAYING
    else if log[n - 1].EndEvent? then OVER
    else PhaseAt(log, n - 1)
  }

  /** Is there a full map since the latest round start among the first n events? */
  function HasMap(log: seq<Event>, n: nat): bool
    requires n <= |log|
  {
    n > 0 && !log[n - 1].StartEvent? && (log[n - 1].FullEvent? || HasMap(log, n - 1))
  }

  /** Is there a round start among the first n events? */
  function HasStart(log: seq<Event>, n: nat): bool
    requires n <= |log|
  {
    n > 0 && (log[n - 1].StartEvent? || HasStart(log, n - 1))
  }

  /** A removal of this cell is among the events from position `from` on. */
  ghost predicate Pending(log: seq<Event>, from: nat, round: nat, cell: Cell) {
    exists p :: from <= p < |log| && log[p] == DeltaEvent(round, cell)
  }

  /** A map that can have been taken from the server's map in this round: a map of
      the grid, nothing is missing from it, and what is too much is removed by an event from `from` on. */
  ghost predicate Repairable(log: seq<Event>, from: nat, round: nat, seen: set<Cell>, bricks: set<Cell>) {
    bricks <= seen && InGrid(seen) && forall cell :: cell in seen && cell !in bricks ==> Pending(log, from, round, cell)
  }

  ghost predicate Shape(log: seq<Event>) {
    && log != [] && (log[0].StartEvent? || log[0].EndEvent?)
    && forall i :: 1 <= i < |log| ==> log[i].round == log[i - 1].round + (if log[i].StartEvent? then 1 else 0)
  }

  ghost predicate EventOk(log: seq<Event>, i: nat, round: nat, bricks: set<Cell>)
    requires i < |log|
  {
    match log[i]
    case DeltaEvent(r, cell) => PhaseAt(log, i) == PLAYING && (r == round ==> cell !in bricks)
    case FullEvent(r, seen) =>
      i > 0 && log[i - 1].StartEvent? && (r == round ==> Repairable(log, i + 1, round, seen, bricks))
    case StartEvent(_) => i + 1 < |log| && log[i + 1].FullEvent?
    case _ => true
  }

  ghost predicate LogInv(log: seq<Event>, round: nat, phase: byte, bricks: set<Cell>) {
    && Shape(log)
    && RoundAt(log, |log|) == round && PhaseAt(log, |log|) == phase && InGrid(bricks)
    && forall i :: 0 <= i < |log| ==> EventOk(log, i, round, bricks)
  }

  // --- What is in flight ------------------------------------------------------------------

  /** How much of the stream the client can have applied when the i-th frame arrives. */
  function Reach(down: seq<Frame>, i: nat, k: nat): nat
    requires i <= |down|
  {
    if i == 0 then k
    else
      var before := Reach(down, i - 1, k);
      if down[i - 1].Stored? && down[i - 1].n > before then down[i - 1].n else before
  }

  ghost predicate DirectOk(log: seq<Event>, reach: nat, d: Direct, round: nat, bricks: set<Cell>)
    requires log != [] && reach <= |log|
  {
    && RoundAt(log, reach) <= d.round <= round
    && (d.FullMsg? && d.round == round ==> Repairable(log, reach, round, d.bricks, bricks))
    && (d.DeltaMsg? && d.round == round ==> d.cell !in bricks)
  }

  ghost predicate FrameOk(log: seq<Event>, down: seq<Frame>, i: nat, k: nat, round: nat, bricks: set<Cell>)
    requires log != [] && i < |down|
  {
    && Reach(down, i, k) <= |log|
    && (down[i].Sent? ==> DirectOk(log, Reach(down, i, k), down[i].d, round, bricks))
  }

  /** The welcome is the first frame of the session and is sent once. */
  ghost predicate WelcomeOk(log: seq<Event>, down: seq<Frame>, i: nat, welcomed: bool)
    requires log != [] && i < |down|
  {
    down[i].Sent? && down[i].d.WelcomeMsg? ==>
      i == 0 && !welcomed && down[i].d == WelcomeMsg(RoundAt(log, 0), PhaseAt(log, 0))
  }

  ghost predicate DownInv(log: seq<Event>, down: seq<Frame>, k: nat, welcomed: bool, round: nat, bricks: set<Cell>)
    requires log != []
  {
    forall i :: 0 <= i < |down| ==> FrameOk(log, down, i, k, round, bricks) && WelcomeOk(log, down, i, welcomed)
  }

  // --- What the client knows ----------------------------------------------------------------

  ghost predicate ClientInv(log: seq<Event>, k: nat, c: State, round: nat, bricks: set<Cell>)
    requires log != [] && k <= |log|
  {
    c.welcomed ==>
      && c.round == RoundByte(RoundAt(log, k))
      && c.phase == PhaseAt(log, k)
      && c.mapReady == HasMap(log, k)
      && (c.mapReady && RoundAt(log, k) == round ==> Repairable(log, k, round, c.bricks, bricks))
      && c.authorized == HasStart(log, k)
  }

  ghost predicate MapInv(s: Session) {
    && LogInv(s.log, s.round, s.phase, s.bricks)
    && |s.trace| <= |s.log|
    && DownInv(s.log, s.down, |s.trace|, s.client.welcomed, s.round, s.bricks)
    && ClientInv(s.log, |s.trace|, s.client, s.round, s.bricks)
  }

  // --- Rounds do not alias -------------------------------------------------------------------

  /** Rounds only grow along the log, by at most one per event. */
  lemma {:induction false} RoundMonotone(log: seq<Event>, i: nat, j: nat)
    requires Shape(log) && i <= j <= |log|
    ensures RoundAt(log, i) <= RoundAt(log, j) <= RoundAt(log, i) + (j - i)
    decreases j
  {
    if i < j {
      RoundMonotone(log, i, j - 1);
    }
  }

  lemma ByteDecides(low: nat, r: nat, high: nat)
    requires low <= r <= high < low + 128
    ensures RoundByte(r) == RoundByte(low) ==> r == low
    ensures RoundByte(high) == RoundByte(low) ==> high == low
  {
  }

  lemma NextRoundIsNewer(r: nat)
    ensures RoundIsNewer(RoundByte(r + 1), RoundByte(r)) && RoundByte(r + 1) != RoundByte(r)
  {
  }

  // --- Appending to the log ---------------------------------------------------------------------

  lemma {:induction false} LogPrefix(log: seq<Event>, more: seq<Event>, n: nat)
    requires log != [] && n <= |log|
    ensures RoundAt(log + more, n) == RoundAt(log, n)
    ensures PhaseAt(log + more, n) == PhaseAt(log, n)
    ensures HasMap(log + more, n) == HasMap(log, n) && HasStart(log + more, n) == HasStart(log, n)
    decreases n
  {
    if n > 0 {
      LogPrefix(log, more, n - 1);
    }
  }

  /** The server's map loses at most the cell that the appended event removes. */
  ghost predicate Shrinks(e: Event, round: nat, bricks: set<Cell>, after: set<Cell>) {
    after == bricks || (e.DeltaEvent? && e.round == round && after == bricks - {e.cell})
  }

  lemma RepairAppended(log: seq<Event>, e: Event, from: nat, round: nat, seen: set<Cell>, bricks: set<Cell>, after: set<Cell>)
    requires Repairable(log, from, round, seen, bricks) && from <= |log| && Shrinks(e, round, bricks, after)
    ensures Repairable(log + [e], from, round, seen, after)
  {
    var longer := log + [e];
    forall cell | cell in seen && cell !in after
      ensures Pending(longer, from, round, cell)
    {
      if cell in bricks {
        assert longer[|log|] == DeltaEvent(round, cell);
      } else {
        assert Pending(log, from, round, cell);
        var p :| from <= p < |log| && log[p] == DeltaEvent(round, cell);
        assert longer[p] == DeltaEvent(round, cell);
      }
    }
  }

  /** Within a round: a removal, a notice, or the end of the round. */
  ghost predicate Continues(e: Event, round: nat, phase: byte, after: set<Cell>, phaseAfter: byte) {
    && e.round == round
    && match e
       case DeltaEvent(_, cell) => phase == PLAYING && phaseAfter == phase && cell !in after
       case EndEvent(_) => phaseAfter == OVER
       case NoticeEvent(_, _) => phaseAfter == phase
       case _ => false
  }

  lemma LogAppended(log: seq<Event>, round: nat, phase: byte, bricks: set<Cell>, e: Event, after: set<Cell>, phaseAfter: byte)
    requires LogInv(log, round, phase, bricks) && Continues(e, round, phase, after, phaseAfter) && Shrinks(e, round, bricks, after)
    ensures LogInv(log + [e], round, phaseAfter, after)
  {
    hide Repairable, Pending;
    var longer := log + [e];
    forall i | 0 <= i < |longer|
      ensures EventOk(longer, i, round, after)
    {
      LogPrefix(log, [e], i);
      if i < |log| {
        assert EventOk(log, i, round, bricks);
        if log[i].FullEvent? && log[i].round == round {
          RepairAppended(log, e, i + 1, round, log[i].bricks, bricks, after);
        }
      }
    }
    LogPrefix(log, [e], |log|);
  }

  lemma DownAppendedLog(log: seq<Event>, down: seq<Frame>, k: nat, welcomed: bool, round: nat, bricks: set<Cell>, e: Event, after: set<Cell>)
    requires log != [] && DownInv(log, down, k, welcomed, round, bricks) && Shrinks(e, round, bricks, after)
    ensures DownInv(log + [e], down, k, welcomed, round, after)
  {
    hide Repairable, PhaseAt, RoundAt;
    forall i | 0 <= i < |down|
      ensures FrameOk(log + [e], down, i, k, round, after) && WelcomeOk(log + [e], down, i, welcomed)
    {
      assert FrameOk(log, down, i, k, round, bricks) && WelcomeOk(log, down, i, welcomed);
      var reach := Reach(down, i, k);
      LogPrefix(log, [e], reach);
      LogPrefix(log, [e], 0);
      if down[i].Sent? && down[i].d.FullMsg? && down[i].d.round == round {
        RepairAppended(log, e, reach, round, down[i].d.bricks, bricks, after);
      }
    }
  }

  lemma ClientAppendedLog(log: seq<Event>, k: nat, c: State, round: nat, bricks: set<Cell>, e: Event, after: set<Cell>)
    requires log != [] && k <= |log| && ClientInv(log, k, c, round, bricks) && Shrinks(e, round, bricks, after)
    ensures ClientInv(log + [e], k, c, round, after)
  {
    hide Repairable, PhaseAt, RoundAt, HasMap, HasStart;
    LogPrefix(log, [e], k);
    if c.welcomed && c.mapReady && RoundAt(log, k) == round {
      RepairAppended(log, e, k, round, c.bricks, bricks, after);
    }
  }

  // --- A new round ---------------------------------------------------------------------------------

  lemma LogNewRound(log: seq<Event>, round: nat, phase: byte, bricks: set<Cell>, next: nat, baseline: set<Cell>)
    requires next == round + 1 && InGrid(baseline)
    requires LogInv(log, round, phase, bricks)
    ensures LogInv(log + [StartEvent(next), FullEvent(next, baseline)], next, PLAYING, baseline)
  {
    hide Pending;
    var more := [StartEvent(next), FullEvent(next, baseline)];
    var longer := log + more;
    forall i | 0 <= i < |longer|
      ensures EventOk(longer, i, next, baseline)
    {
      if i < |log| {
        assert EventOk(log, i, round, bricks);
        LogPrefix(log, more, i);
        RoundMonotone(log, i + 1, |log|);
      }
    }
    LogPrefix(log, more, |log|);
    assert PhaseAt(longer, |log| + 1) == PLAYING;
    assert PhaseAt(longer, |log| + 2) == PLAYING;
  }

  lemma DownNewRound(log: seq<Event>, down: seq<Frame>, k: nat, welcomed: bool, round: nat, bricks: set<Cell>, next: nat, baseline: set<Cell>)
    requires next == round + 1
    requires log != [] && DownInv(log, down, k, welcomed, round, bricks)
    ensures DownInv(log + [StartEvent(next), FullEvent(next, baseline)], down, k, welcomed, next, baseline)
  {
    hide Repairable, PhaseAt, RoundAt;
    var more := [StartEvent(next), FullEvent(next, baseline)];
    forall i | 0 <= i < |down|
      ensures FrameOk(log + more, down, i, k, next, baseline) && WelcomeOk(log + more, down, i, welcomed)
    {
      assert FrameOk(log, down, i, k, round, bricks) && WelcomeOk(log, down, i, welcomed);
      LogPrefix(log, more, Reach(down, i, k));
      LogPrefix(log, more, 0);
    }
  }

  lemma ClientNewRound(log: seq<Event>, k: nat, c: State, round: nat, phase: byte, bricks: set<Cell>, next: nat, baseline: set<Cell>)
    requires next == round + 1
    requires LogInv(log, round, phase, bricks) && k <= |log| && ClientInv(log, k, c, round, bricks)
    ensures ClientInv(log + [StartEvent(next), FullEvent(next, baseline)], k, c, next, baseline)
  {
    hide Repairable, PhaseAt, HasMap, HasStart, EventOk;
    LogPrefix(log, [StartEvent(next), FullEvent(next, baseline)], k);
    RoundMonotone(log, k, |log|);
  }

  // --- The downward channel ----------------------------------------------------------------------------

  lemma {:induction false} ReachPrefix(down: seq<Frame>, f: Frame, i: nat, k: nat)
    requires i <= |down|
    ensures Reach(down + [f], i, k) == Reach(down, i, k)
    decreases i
  {
    if i > 0 {
      ReachPrefix(down, f, i - 1, k);
    }
  }

  lemma {:induction false} ReachBounds(down: seq<Frame>, i: nat, k: nat, high: nat)
    requires i <= |down| && k <= high && forall j :: 0 <= j < |down| && down[j].Stored? ==> down[j].n <= high
    ensures k <= Reach(down, i, k) <= high
    decreases i
  {
    if i > 0 {
      ReachBounds(down, i - 1, k, high);
    }
  }

  lemma {:induction false} ReachWithout(down: seq<Frame>, at: nat, j: nat, k: nat)
    requires at < |down| && j < |down|
    ensures j <= at ==> Reach(Without(down, at), j, k) == Reach(down, j, k)
    ensures j >= at ==> Reach(Without(down, at), j, k) <= Reach(down, j + 1, k)
    decreases j
  {
    if j > 0 {
      ReachWithout(down, at, j - 1, k);
    }
  }

  lemma {:induction false} ReachTail(down: seq<Frame>, j: nat, k: nat, k1: nat)
    requires down != [] && j < |down| && k1 <= Reach(down, 1, k)
    ensures Reach(down[1..], j, k1) <= Reach(down, j + 1, k)
    decreases j
  {
    if j > 0 {
      ReachTail(down, j - 1, k, k1);
    }
  }

  /** A frame that can be reached earlier is still in order. */
  lemma DirectEarlier(log: seq<Event>, early: nat, late: nat, d: Direct, round: nat, bricks: set<Cell>)
    requires Shape(log) && early <= late <= |log| && DirectOk(log, late, d, round, bricks)
    ensures DirectOk(log, early, d, round, bricks)
  {
    RoundMonotone(log, early, late);
    if d.FullMsg? && d.round == round {
      forall cell | cell in d.bricks && cell !in bricks
        ensures Pending(log, early, round, cell)
      {
        assert Pending(log, late, round, cell);
      }
    }
  }

  lemma DownAppended(log: seq<Event>, down: seq<Frame>, k: nat, welcomed: bool, round: nat, bricks: set<Cell>, f: Frame)
    requires Shape(log) && RoundAt(log, |log|) == round && k <= |log| && InGrid(bricks)
    requires DownInv(log, down, k, welcomed, round, bricks)
    requires forall j :: 0 <= j < |down| && down[j].Stored? ==> down[j].n <= |log|
    requires f.Sent? ==> !f.d.WelcomeMsg? && f.d.round == round
    requires f.Sent? && f.d.FullMsg? ==> f.d.bricks == bricks
    requires f.Sent? && f.d.DeltaMsg? ==> f.d.cell !in bricks
    ensures DownInv(log, down + [f], k, welcomed, round, bricks)
  {
    hide RoundAt, PhaseAt;
    var longer := down + [f];
    forall i | 0 <= i < |longer|
      ensures FrameOk(log, longer, i, k, round, bricks) && WelcomeOk(log, longer, i, welcomed)
    {
      ReachPrefix(down, f, i, k);
      if i < |down| {
        assert FrameOk(log, down, i, k, round, bricks) && WelcomeOk(log, down, i, welcomed);
      } else {
        ReachBounds(down, i, k, |log|);
        RoundMonotone(log, Reach(down, i, k), |log|);
      }
    }
  }

  lemma DownWithout(log: seq<Event>, down: seq<Frame>, k: nat, welcomed: bool, round: nat, bricks: set<Cell>, at: nat)
    requires log != [] && Shape(log) && DownInv(log, down, k, welcomed, round, bricks) && at < |down|
    ensures DownInv(log, Without(down, at), k, welcomed, round, bricks)
  {
    hide DirectOk, Shape, RoundAt, PhaseAt, Reach;
    var rest := Without(down, at);
    forall j | 0 <= j < |rest|
      ensures FrameOk(log, rest, j, k, round, bricks) && WelcomeOk(log, rest, j, welcomed)
    {
      var i := if j < at then j else j + 1;
      assert rest[j] == down[i];
      assert FrameOk(log, down, i, k, round, bricks) && WelcomeOk(log, down, i, welcomed);
      ReachWithout(down, at, j, k);
      if rest[j].Sent? {
        DirectEarlier(log, Reach(rest, j, k), Reach(down, i, k), rest[j].d, round, bricks);
      }
    }
  }

  lemma DownTail(log: seq<Event>, down: seq<Frame>, k: nat, k1: nat, welcomed: bool, welcomed1: bool, round: nat, bricks: set<Cell>)
    requires log != [] && Shape(log) && DownInv(log, down, k, welcomed, round, bricks) && down != []
    requires k1 <= Reach(down, 1, k)
    ensures DownInv(log, down[1..], k1, welcomed1, round, bricks)
  {
    hide DirectOk, Shape, RoundAt, PhaseAt, Reach;
    var rest := down[1..];
    forall j | 0 <= j < |rest|
      ensures FrameOk(log, rest, j, k1, round, bricks) && WelcomeOk(log, rest, j, welcomed1)
    {
      assert rest[j] == down[j + 1];
      assert FrameOk(log, down, j + 1, k, round, bricks) && WelcomeOk(log, down, j + 1, welcomed);
      ReachTail(down, j, k, k1);
      if rest[j].Sent? {
        DirectEarlier(log, Reach(rest, j, k1), Reach(down, j + 1, k), rest[j].d, round, bricks);
      }
    }
  }

  // --- What arrives ----------------------------------------------------------------------------------------

  /** A direct packet on a welcomed client that has applied k events. */
  lemma DirectArrives(log: seq<Event>, k: nat, c: State, round: nat, bricks: set<Cell>, d: Direct)
    requires log != [] && Shape(log) && k <= |log| && RoundAt(log, |log|) == round && |log| - k <= 2 * RQ.RING
    requires ClientInv(log, k, c, round, bricks) && DirectOk(log, k, d, round, bricks)
    requires d.WelcomeMsg? ==> k == 0 && d == WelcomeMsg(RoundAt(log, 0), PhaseAt(log, 0))
    ensures ClientInv(log, k, Received(c, Wire(d)).0, round, bricks)
  {
    hide PhaseAt, Shape, Pending;
    if c.welcomed || d.WelcomeMsg? {
      RoundMonotone(log, k, |log|);
      ByteDecides(RoundAt(log, k), d.round, round);
    }
  }

  /** Moving past an event that removes nothing leaves every removal pending. */
  lemma RepairAdvances(log: seq<Event>, k: nat, round: nat, seen: set<Cell>, bricks: set<Cell>)
    requires k < |log| && Repairable(log, k, round, seen, bricks)
    ensures !log[k].DeltaEvent? || log[k].round != round ==> Repairable(log, k + 1, round, seen, bricks)
    ensures log[k].DeltaEvent? && log[k].round == round && log[k].cell !in bricks ==>
      Repairable(log, k + 1, round, seen - {log[k].cell}, bricks)
    ensures log[k].DeltaEvent? && !InBounds(log[k].cell) ==> seen - {log[k].cell} == seen
  {
    forall cell | cell in seen && cell !in bricks
      ensures log[k] != DeltaEvent(round, cell) ==> Pending(log, k + 1, round, cell)
    {
      assert Pending(log, k, round, cell);
    }
  }

  /** The next event of the stream on a welcomed client. */
  lemma EventApplied(log: seq<Event>, k: nat, c: State, round: nat, bricks: set<Cell>)
    requires Shape(log) && k < |log| && c.welcomed
    requires ClientInv(log, k, c, round, bricks) && EventOk(log, k, round, bricks)
    ensures ClientInv(log, k + 1, Applied(c, Inner(log[k]), true), round, bricks)
  {
    hide Repairable;
    assert RoundAt(log, k + 1) == if k > 0 && log[k].StartEvent? then RoundAt(log, k) + 1 else RoundAt(log, k);
    NextRoundIsNewer(RoundAt(log, k));
    if c.mapReady && RoundAt(log, k) == round {
      RepairAdvances(log, k, round, c.bricks, bricks);
    }
  }

  lemma AppliedWord(c: State, rev: word, p: Packet)
    ensures Applied(c.(applied := rev), p, true) == Applied(c, p, true).(applied := rev)
  {
  }

  lemma FrameArrivesMap(s: Session)
    requires StreamInv(s) && MapInv(s) && s.down != []
    ensures MapInv(Deliver(s.(down := s.down[1..]), s.down[0]))
  {
    hide LogInv, DownInv, ClientInv, Applied, Wire, Inner, RQ.Revision, StreamInv;
    var f, k := s.down[0], |s.trace|;
    var t := s.(down := s.down[1..]);
    var after := Deliver(t, f);
    ArrivalStream(s);
    TraceWithin(after);
    LogShape(s.log, s.round, s.phase, s.bricks);
    FirstFrame(s);
    assert Reach(s.down, 1, k) == if f.Stored? && f.n > k then f.n else k by {
      assert Reach(s.down, 0, k) == k;
    }
    DownTail(s.log, s.down, k, |after.trace|, s.client.welcomed, after.client.welcomed, s.round, s.bricks);
    if f.Sent? {
      DirectArrives(s.log, k, s.client, s.round, s.bricks, f.d);
    } else if Applies(s, f) {
      LogEvent(s.log, s.round, s.phase, s.bricks, k);
      EventApplied(s.log, k, s.client, s.round, s.bricks);
      AppliedWord(s.client, RQ.Revision(f.n), Inner(s.log[k]));
      WordIrrelevant(s.log, k + 1, Applied(s.client, Inner(s.log[k]), true), RQ.Revision(f.n), s.round, s.bricks);
    } else {
      CopyIgnored(s, f);
    }
  }

  lemma CopyIgnored(s: Session, f: Frame)
    requires f.Stored? && !Applies(s, f)
    ensures Received(s.client, PacketOf(s.log, f)).0 == s.client
  {
  }

  lemma TraceWithin(s: Session)
    requires StreamInv(s)
    ensures |s.trace| <= |s.log| && s.acked <= |s.log|
  {
  }

  lemma WordIrrelevant(log: seq<Event>, k: nat, c: State, rev: word, round: nat, bricks: set<Cell>)
    requires log != [] && k <= |log| && ClientInv(log, k, c, round, bricks)
    ensures ClientInv(log, k, c.(applied := rev), round, bricks)
  {
  }

  lemma LogShape(log: seq<Event>, round: nat, phase: byte, bricks: set<Cell>)
    requires LogInv(log, round, phase, bricks)
    ensures log != [] && Shape(log) && RoundAt(log, |log|) == round && PhaseAt(log, |log|) == phase && InGrid(bricks)
  {
  }

  lemma LogEvent(log: seq<Event>, round: nat, phase: byte, bricks: set<Cell>, i: nat)
    requires LogInv(log, round, phase, bricks) && i < |log|
    ensures EventOk(log, i, round, bricks)
  {
  }

  lemma FirstFrame(s: Session)
    requires StreamInv(s) && s.log != [] && DownInv(s.log, s.down, |s.trace|, s.client.welcomed, s.round, s.bricks) && s.down != []
    ensures |s.log| - |s.trace| <= 2 * RQ.RING && |s.trace| <= |s.log|
    ensures s.down[0].Sent? ==> DirectOk(s.log, |s.trace|, s.down[0].d, s.round, s.bricks)
    ensures s.down[0].Sent? && s.down[0].d.WelcomeMsg? ==>
      |s.trace| == 0 && s.down[0].d == WelcomeMsg(RoundAt(s.log, 0), PhaseAt(s.log, 0))
  {
    assert FrameOk(s.log, s.down, 0, |s.trace|, s.round, s.bricks) && WelcomeOk(s.log, s.down, 0, s.client.welcomed);
  }

  // --- Every step --------------------------------------------------------------------------------------------

  /** A packet about the present, sent directly. */
  lemma SendMap(s: Session, d: Direct)
    requires StreamInv(s) && MapInv(s)
    requires !d.WelcomeMsg? && d.round == s.round
    requires d.FullMsg? ==> d.bricks == s.bricks
    requires d.DeltaMsg? ==> d.cell !in s.bricks
    ensures MapInv(Send(s, d))
  {
    hide LogInv, DownInv, ClientInv;
    LogShape(s.log, s.round, s.phase, s.bricks);
    DownAppended(s.log, s.down, |s.trace|, s.client.welcomed, s.round, s.bricks, Sent(d));
  }

  /** Another copy of a stored event. */
  lemma CopyMap(s: Session, n: nat)
    requires StreamInv(s) && MapInv(s)
    ensures MapInv(s.(down := s.down + [Stored(n)]))
  {
    hide LogInv, DownInv, ClientInv;
    LogShape(s.log, s.round, s.phase, s.bricks);
    DownAppended(s.log, s.down, |s.trace|, s.client.welcomed, s.round, s.bricks, Stored(n));
  }

  /** The server's map changed and the log says so. */
  lemma LongerLogMap(s: Session, e: Event, after: set<Cell>, phaseAfter: byte)
    requires StreamInv(s) && MapInv(s) && |s.log| - s.acked < RQ.RING
    requires Continues(e, s.round, s.phase, after, phaseAfter) && Shrinks(e, s.round, s.bricks, after)
    ensures var u := s.(log := s.log + [e], bricks := after, phase := phaseAfter); StreamInv(u) && MapInv(u)
  {
    hide LogInv, DownInv, ClientInv, StreamInv, Continues, Shrinks;
    LogShape(s.log, s.round, s.phase, s.bricks);
    LogAppended(s.log, s.round, s.phase, s.bricks, e, after, phaseAfter);
    DownAppendedLog(s.log, s.down, |s.trace|, s.client.welcomed, s.round, s.bricks, e, after);
    ClientAppendedLog(s.log, |s.trace|, s.client, s.round, s.bricks, e, after);
    LongerLogStream(s, e, after, phaseAfter);
  }

  lemma EnqueueMap(s: Session, e: Event, phaseAfter: byte)
    requires StreamInv(s) && MapInv(s)
    requires Continues(e, s.round, s.phase, s.bricks, phaseAfter)
    ensures var t := Enqueue(s.(phase := phaseAfter), e); t.failed || MapInv(t)
  {
    hide MapInv, StreamInv, Continues;
    if !s.failed && |s.log| - s.acked < RQ.RING {
      LongerLogMap(s, e, s.bricks, phaseAfter);
      var u := s.(log := s.log + [e], bricks := s.bricks, phase := phaseAfter);
      if |s.log| == s.acked {
        CopyMap(u, |s.log| + 1);
      }
    }
  }

  /** The direct packet and the reliable event leave together, in this order. */
  lemma BreakMap(s: Session, cell: Cell)
    requires StreamInv(s) && MapInv(s) && s.phase == PLAYING && !s.failed
    ensures var t := Next(s, BreakBrick(cell)); t.failed || MapInv(t)
  {
    hide MapInv, StreamInv;
    var e, after := DeltaEvent(s.round, cell), s.bricks - {cell};
    if |s.log| - s.acked < RQ.RING {
      LongerLogMap(s, e, after, s.phase);
      var u := s.(log := s.log + [e], bricks := after, phase := s.phase);
      SendMap(u, DeltaMsg(s.round, cell));
      if |s.log| == s.acked {
        SendStream(u, DeltaMsg(s.round, cell));
        CopyMap(Send(u, DeltaMsg(s.round, cell)), |s.log| + 1);
      }
    }
  }

  /** A round start and its map are queued together, or the connection is condemned. */
  lemma NewRoundMap(s: Session, layout: set<Cell>)
    requires StreamInv(s) && MapInv(s) && !s.failed
    ensures var t := Next(s, NewRound(layout)); t.failed || MapInv(t)
  {
    hide LogInv, DownInv, ClientInv, StreamInv;
    var next, baseline := s.round + 1, Inside(layout);
    var more := [StartEvent(next), FullEvent(next, baseline)];
    if |s.log| - s.acked + 1 < RQ.RING {
      TraceWithin(s);
      LogShape(s.log, s.round, s.phase, s.bricks);
      LogNewRound(s.log, s.round, s.phase, s.bricks, next, baseline);
      DownNewRound(s.log, s.down, |s.trace|, s.client.welcomed, s.round, s.bricks, next, baseline);
      ClientNewRound(s.log, |s.trace|, s.client, s.round, s.phase, s.bricks, next, baseline);
      var u := s.(log := s.log + more, round := next, phase := PLAYING, bricks := baseline);
      assert MapInv(u);
      NewRoundStream(s, more, next, baseline);
      assert s.log + [more[0]] + [more[1]] == s.log + more;
      if |s.log| == s.acked {
        CopyMap(u, |s.log| + 1);
      }
    }
  }

  lemma NewRoundStream(s: Session, more: seq<Event>, next: nat, baseline: set<Cell>)
    requires StreamInv(s) && |s.log| - s.acked + |more| <= RQ.RING && |more| == 2
    ensures StreamInv(s.(log := s.log + more, round := next, phase := PLAYING, bricks := baseline))
  {
    hide RQ.Revision;
    assert (s.log + more)[..|s.trace|] == s.log[..|s.trace|];
  }

  lemma LongerLogStream(s: Session, e: Event, after: set<Cell>, phaseAfter: byte)
    requires StreamInv(s) && |s.log| - s.acked < RQ.RING
    ensures StreamInv(s.(log := s.log + [e], bricks := after, phase := phaseAfter))
  {
    hide RQ.Revision;
    assert (s.log + [e])[..|s.trace|] == s.log[..|s.trace|];
  }

  lemma AckMap(s: Session)
    requires StreamInv(s) && MapInv(s) && s.up != []
    ensures MapInv(Acknowledge(s.(up := s.up[1..]), s.up[0]))
  {
    hide LogInv, DownInv, ClientInv, StreamInv;
    var acked := Acknowledge(s.(up := s.up[1..]), s.up[0]).acked;
    CopyMap(s, acked + 1);
  }

  lemma LossMap(s: Session, i: nat)
    requires MapInv(s) && i < |s.down|
    ensures MapInv(s.(down := Without(s.down, i)))
  {
    hide LogInv, DownInv, ClientInv;
    LogShape(s.log, s.round, s.phase, s.bricks);
    DownWithout(s.log, s.down, |s.trace|, s.client.welcomed, s.round, s.bricks, i);
  }

  lemma NextMap(s: Session, step: Step)
    requires StreamInv(s) && (s.failed || MapInv(s))
    ensures Next(s, step).failed || MapInv(Next(s, step))
  {
    hide StreamInv, Enqueue, Deliver, Acknowledge, LogInv, DownInv, ClientInv;
    if s.failed {
      StaysCondemned(s, step);
    } else {
      match step
      case BreakBrick(cell) =>
        if s.phase == PLAYING {
          BreakMap(s, cell);
        }
      case EchoBrick(cell) => if cell !in s.bricks { SendMap(s, DeltaMsg(s.round, cell)); }
      case Resync => SendMap(s, FullMsg(s.round, s.bricks));
      case Announce(named) => EnqueueMap(s, NoticeEvent(s.round, named), s.phase);
      case TickSnapshot => SendMap(s, SnapshotMsg(s.round));
      case Chat => SendMap(s, ChatterMsg(s.round));
      case EndRound => EnqueueMap(s, EndEvent(s.round), OVER);
      case NewRound(bricks) => NewRoundMap(s, bricks);
      case Timeout => CopyMap(s, s.acked + 1);
      case AckArrives => if s.up != [] { AckMap(s); }
      case AckLost(i) =>
      case FrameArrives => if s.down != [] { FrameArrivesMap(s); }
      case FrameLost(i) => if i < |s.down| { LossMap(s, i); }
    }
  }

  lemma OpeningMap(round: nat, playing: bool, bricks: set<Cell>, client: State)
    requires NewClient(client)
    ensures MapInv(Opening(round, playing, bricks, client))
  {
    var s := Opening(round, playing, bricks, client);
    assert PhaseAt(s.log, 1) == s.phase;
    assert Reach(s.down, 0, 0) == 0 && Reach(s.down, 1, 0) == 0;
    if playing {
      assert PhaseAt(s.log, 2) == PLAYING;
      assert s.log[1] == FullEvent(round, Inside(bricks));
    }
    assert forall i :: 0 <= i < |s.log| ==> EventOk(s.log, i, s.round, s.bricks);
  }

  lemma {:induction false} ExecMap(s: Session, steps: seq<Step>)
    requires StreamInv(s) && (s.failed || MapInv(s))
    ensures Exec(s, steps).failed || MapInv(Exec(s, steps))
    decreases |steps|
  {
    hide StreamInv, MapInv;
    if steps != [] {
      ExecMap(s, steps[..|steps| - 1]);
      ExecStream(s, steps[..|steps| - 1]);
      NextMap(Exec(s, steps[..|steps| - 1]), steps[|steps| - 1]);
    }
  }

  // --- The two agreements -----------------------------------------------------------------------------------

  /** Every event queued has been acknowledged. */
  predicate Drained(s: Session) {
    s.acked == |s.log|
  }

  lemma {:induction false} MapWhenStarted(log: seq<Event>, round: nat, bricks: set<Cell>, n: nat)
    requires log != [] && n <= |log| && (forall i :: 0 <= i < |log| ==> EventOk(log, i, round, bricks))
    requires exists i :: 0 <= i < n && log[i].StartEvent?
    ensures HasMap(log, n) || log[n - 1].StartEvent?
    decreases n
  {
    var i :| 0 <= i < n && log[i].StartEvent?;
    if i < n - 1 && !log[n - 1].StartEvent? && !log[n - 1].FullEvent? {
      MapWhenStarted(log, round, bricks, n - 1);
      assert EventOk(log, n - 2, round, bricks);
    }
  }

  lemma {:induction false} StartBeforeMap(log: seq<Event>, round: nat, bricks: set<Cell>, n: nat)
    requires n <= |log| && HasMap(log, n) && (forall i :: 0 <= i < |log| ==> EventOk(log, i, round, bricks))
    ensures exists i :: 0 <= i < n && log[i].StartEvent?
    decreases n
  {
    if log[n - 1].FullEvent? {
      assert EventOk(log, n - 1, round, bricks);
    } else {
      StartBeforeMap(log, round, bricks, n - 1);
    }
  }

  /** In every run of a connection that has not overflowed: once the client has
      the reliable map of the server's current round, no brick of the server's map
      is ever missing from its own. */
  lemma ClientMapContainsServerMap(round: nat, playing: bool, bricks: set<Cell>, client: State, steps: seq<Step>)
    requires NewClient(client)
    ensures
      var s := Exec(Opening(round, playing, bricks, client), steps);
      !s.failed && s.client.welcomed && s.client.mapReady && s.client.round == RoundByte(s.round) ==>
        s.bricks <= s.client.bricks
  {
    var o := Opening(round, playing, bricks, client);
    OpeningStream(round, playing, bricks, client);
    OpeningMap(round, playing, bricks, client);
    ExecStream(o, steps);
    ExecMap(o, steps);
    var s := Exec(o, steps);
    if !s.failed && s.client.welcomed {
      Window(s);
    }
  }

  /** The client's round is the server's exactly when their bytes agree. */
  lemma Window(s: Session)
    requires StreamInv(s) && MapInv(s) && s.client.welcomed
    ensures s.client.round == RoundByte(s.round) <==> RoundAt(s.log, |s.trace|) == s.round
    ensures Drained(s) ==> |s.trace| == |s.log| && s.client.round == RoundByte(s.round)
  {
    RoundMonotone(s.log, |s.trace|, |s.log|);
    ByteDecides(RoundAt(s.log, |s.trace|), s.round, s.round);
  }

  /** And whenever the queue has drained, the two maps are equal, and the client is
      in the server's round and phase. The only maps this leaves out are those of
      clients that joined during results and have not seen a round start yet. */
  lemma MapsEqualWhenDrained(round: nat, playing: bool, bricks: set<Cell>, client: State, steps: seq<Step>)
    requires NewClient(client)
    ensures
      var s := Exec(Opening(round, playing, bricks, client), steps);
      !s.failed && s.client.welcomed && Drained(s) ==>
        && s.client.round == RoundByte(s.round) && s.client.phase == s.phase
        && (s.client.mapReady <==> exists i :: 0 <= i < |s.log| && s.log[i].StartEvent?)
        && (s.client.mapReady ==> s.client.bricks == s.bricks)
  {
    var o := Opening(round, playing, bricks, client);
    OpeningStream(round, playing, bricks, client);
    OpeningMap(round, playing, bricks, client);
    ExecStream(o, steps);
    ExecMap(o, steps);
    var s := Exec(o, steps);
    if !s.failed && s.client.welcomed && Drained(s) {
      DrainedAgreement(s);
    }
  }

  lemma DrainedAgreement(s: Session)
    requires StreamInv(s) && MapInv(s) && s.client.welcomed && Drained(s)
    ensures s.client.round == RoundByte(s.round) && s.client.phase == s.phase
    ensures s.client.mapReady <==> exists i :: 0 <= i < |s.log| && s.log[i].StartEvent?
    ensures s.client.mapReady ==> s.client.bricks == s.bricks
  {
    hide Shape;
    Window(s);
    var n := |s.log|;
    if exists i :: 0 <= i < n && s.log[i].StartEvent? {
      MapWhenStarted(s.log, s.round, s.bricks, n);
      assert EventOk(s.log, n - 1, s.round, s.bricks);
    }
    if HasMap(s.log, n) {
      StartBeforeMap(s.log, s.round, s.bricks, n);
      assert forall cell :: !Pending(s.log, n, s.round, cell);
    }
  }
}
