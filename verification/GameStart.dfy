/** When a client's game opens: what the server's own order guarantees, what it does
    not, and that a snapshot opens every game that is ready for one. */
module GameStart {
  import opened Bytes
  import opened Client
  import opened Grid
  import opened Session
  import opened MapAgreement
  import Recovery
  import RQ = ReliableQueue

  // --- Map and round start -----------------------------------------------------------------

  /** In every run of a connection that has not been condemned a reliable map is applied
      right after its round start, never before it. */
  lemma MapFollowsStart(round: nat, playing: bool, bricks: set<Cell>, client: State, steps: seq<Step>)
    requires NewClient(client)
    ensures
      var s := Exec(Opening(round, playing, bricks, client), steps);
      !s.failed && |s.trace| < |s.log| && s.log[|s.trace|].FullEvent? ==>
        && s.trace != [] && s.trace[|s.trace| - 1] == StartEvent(s.log[|s.trace|].round)
  {
    hide Exec;
    Invariants(round, playing, bricks, client, steps);
    var s := Exec(Opening(round, playing, bricks, client), steps);
    if !s.failed && |s.trace| < |s.log| && s.log[|s.trace|].FullEvent? {
      var k := |s.trace|;
      LogEvent(s.log, s.round, s.phase, s.bricks, k);
      assert s.log[k].round == s.log[k - 1].round;
    }
  }

  lemma Invariants(round: nat, playing: bool, bricks: set<Cell>, client: State, steps: seq<Step>)
    requires NewClient(client)
    ensures var s := Exec(Opening(round, playing, bricks, client), steps);
      StreamInv(s) && (s.failed || MapInv(s))
  {
    hide StreamInv, MapInv, Exec;
    var o := Opening(round, playing, bricks, client);
    OpeningStream(round, playing, bricks, client);
    OpeningMap(round, playing, bricks, client);
    ExecStream(o, steps);
    ExecMap(o, steps);
  }

  // --- The game opens ------------------------------------------------------------------------

  lemma {:induction false} StartedAt(log: seq<Event>, i: nat, n: nat)
    requires i < n <= |log| && log[i].StartEvent?
    ensures HasStart(log, n)
    decreases n
  {
    if i < n - 1 {
      StartedAt(log, i, n - 1);
    }
  }

  /** A client that has applied everything of a running round it has seen start is ready
      but for a snapshot. */
  lemma AlmostReady(s: Session)
    requires StreamInv(s) && MapInv(s) && s.client.welcomed && Drained(s) && s.phase == PLAYING
    requires exists i :: 0 <= i < |s.log| && s.log[i].StartEvent?
    ensures s.client.authorized && s.client.mapReady
    ensures s.client.phase == PLAYING && s.client.round == RoundByte(s.round)
  {
    hide StreamInv, LogInv, DownInv, Repairable;
    DrainedAgreement(s);
    Window(s);
    var i :| 0 <= i < |s.log| && s.log[i].StartEvent?;
    StartedAt(s.log, i, |s.log|);
  }

  /** In every run: once a round is being played, its start has been queued, everything
      queued is acknowledged and nothing is in flight, the next snapshot opens the game. */
  lemma GameOpens(round: nat, playing: bool, bricks: set<Cell>, client: State, steps: seq<Step>)
    requires NewClient(client)
    ensures
      var s := Exec(Opening(round, playing, bricks, client), steps);
      && !s.failed && s.client.welcomed && Drained(s) && s.down == [] && s.phase == PLAYING
      && (exists i :: 0 <= i < |s.log| && s.log[i].StartEvent?) ==>
        GameReady(Exec(s, [TickSnapshot, FrameArrives]).client)
  {
    hide Exec, StreamInv, MapInv;
    Invariants(round, playing, bricks, client, steps);
    var s := Exec(Opening(round, playing, bricks, client), steps);
    if !s.failed && s.client.welcomed && Drained(s) && s.down == [] && s.phase == PLAYING
       && exists i :: 0 <= i < |s.log| && s.log[i].StartEvent? {
      AlmostReady(s);
      SnapshotOpens(s);
    }
  }

  lemma TwoSteps(s: Session, a: Step, b: Step)
    ensures Exec(s, [a, b]) == Next(Next(s, a), b)
  {
    hide Next;
    assert [a, b][..1] == [a] && [a][..0] == [];
    assert Exec(s, [a]) == Next(Exec(s, []), a);
  }

  lemma SnapshotSent(s: Session)
    requires !s.failed && s.down == []
    ensures Next(s, TickSnapshot) == s.(down := [Sent(SnapshotMsg(s.round))])
  {
    assert [] + [Sent(SnapshotMsg(s.round))] == [Sent(SnapshotMsg(s.round))];
  }

  lemma SnapshotReceived(s: Session)
    requires s.down == [Sent(SnapshotMsg(s.round))] && s.client.welcomed
    requires s.client.phase == PLAYING && s.client.round == RoundByte(s.round)
    ensures Next(s, FrameArrives).client == s.client.(snapshotReady := true)
  {
    assert PacketOf(s.log, s.down[0]) == Snapshot(RoundByte(s.round));
  }

  lemma SnapshotOpens(s: Session)
    requires !s.failed && s.down == [] && s.client.welcomed && s.client.authorized && s.client.mapReady
    requires s.client.phase == PLAYING && s.client.round == RoundByte(s.round)
    ensures GameReady(Exec(s, [TickSnapshot, FrameArrives]).client)
  {
    hide Exec, Next, RoundByte;
    TwoSteps(s, TickSnapshot, FrameArrives);
    SnapshotSent(s);
    SnapshotReceived(Next(s, TickSnapshot));
  }

  // --- A snapshot that overtakes the round start ------------------------------------------------

  /** A session that opens in a running round, and whose first copy of the round start
      is lost: the welcome arrives, the start is lost, a snapshot arrives, and then the
      start and the map, resent and acknowledged. */
  function Overtaking(): seq<Step> {
    [FrameArrives, FrameLost(0), TickSnapshot, FrameArrives, Timeout, FrameArrives, AckArrives, FrameArrives]
  }

  lemma {:induction false} Stepwise(s: Session, steps: seq<Step>)
    requires steps != []
    ensures Exec(s, steps) == Exec(Next(s, steps[0]), steps[1..])
    decreases |steps|
  {
    hide Next;
    if |steps| > 1 {
      Stepwise(s, steps[..|steps| - 1]);
      assert steps[..|steps| - 1][1..] == steps[1..][..|steps[1..]| - 1];
    } else {
      assert steps[..0] == [] && steps[1..] == [];
    }
  }

  /** The protocol text says that the three pieces may arrive in any order. A snapshot
      may overtake the round start, and then it does not count: with all three pieces
      of the same round received, the game stays closed until the next snapshot. */
  lemma SnapshotBeforeStart(round: nat, bricks: set<Cell>, client: State)
    requires NewClient(client)
    ensures
      var s := Exec(Opening(round, true, bricks, client), Overtaking());
      && s.trace == [StartEvent(round), FullEvent(round, Inside(bricks))]
      && s.client.welcomed && s.client.phase == PLAYING && s.client.round == RoundByte(round)
      && s.client.authorized && s.client.mapReady && !GameReady(s.client)
      && GameReady(Exec(s, [TickSnapshot, FrameArrives]).client)
  {
    hide Exec;
    var o := Opening(round, true, bricks, client);
    var start, full := StartEvent(round), FullEvent(round, Inside(bricks));
    var s1 := Next(o, FrameArrives);
    var s2 := Next(s1, FrameLost(0));
    var s3 := Next(s2, TickSnapshot);
    var s4 := Next(s3, FrameArrives);
    Overtaken(o, s1, s2, s3, s4, round, bricks, client);
    var s5 := Next(s4, Timeout);
    var s6 := Next(s5, FrameArrives);
    var s7 := Next(s6, AckArrives);
    var s8 := Next(s7, FrameArrives);
    CaughtUp(s4, s5, s6, s7, s8, round, bricks);
    Unfolded(o);
    SnapshotOpens(s8);
  }

  lemma Unfolded(o: Session)
    ensures var s4 := Next(Next(Next(Next(o, FrameArrives), FrameLost(0)), TickSnapshot), FrameArrives);
      Exec(o, Overtaking()) == Next(Next(Next(Next(s4, Timeout), FrameArrives), AckArrives), FrameArrives)
  {
    hide Next, Exec;
    var steps := Overtaking();
    var s1 := Next(o, FrameArrives);
    var s2 := Next(s1, FrameLost(0));
    var s3 := Next(s2, TickSnapshot);
    var s4 := Next(s3, FrameArrives);
    var s5 := Next(s4, Timeout);
    var s6 := Next(s5, FrameArrives);
    var s7 := Next(s6, AckArrives);
    Stepwise(o, steps);
    Stepwise(s1, steps[1..]);
    Stepwise(s2, steps[2..]);
    Stepwise(s3, steps[3..]);
    Stepwise(s4, steps[4..]);
    Stepwise(s5, steps[5..]);
    Stepwise(s6, steps[6..]);
    Stepwise(s7, steps[7..]);
    assert steps[8..] == [];
    Recovery.NoSteps(Next(s7, FrameArrives));
  }

  lemma Overtaken(o: Session, s1: Session, s2: Session, s3: Session, s4: Session, round: nat, bricks: set<Cell>, client: State)
    requires NewClient(client) && o == Opening(round, true, bricks, client)
    requires s1 == Next(o, FrameArrives) && s2 == Next(s1, FrameLost(0)) && s3 == Next(s2, TickSnapshot)
    requires s4 == Next(s3, FrameArrives)
    ensures s4 == o.(down := [], client := client.(welcomed := true, round := RoundByte(round), phase := PLAYING,
      authorized := false, mapReady := false, snapshotReady := true))
  {
    assert o.down[1..] == [Stored(1)];
    assert o.up + [] == [];
    assert s1 == o.(down := [Stored(1)], client := client.(welcomed := true, round := RoundByte(round), phase := PLAYING,
      authorized := false, mapReady := false, snapshotReady := false));
    assert Without(s1.down, 0) == [];
    assert s3.down == [Sent(SnapshotMsg(round))];
    assert s3.down[1..] == [];
  }

  /** The resent start is applied, and forgets the snapshot. */
  lemma StartArrives(s4: Session, s6: Session, round: nat, bricks: set<Cell>)
    requires s4.log == [StartEvent(round), FullEvent(round, bricks)] && s4.acked == 0 && !s4.failed
    requires s4.down == [] && s4.up == [] && s4.trace == []
    requires s4.client.welcomed && s4.client.round == RoundByte(round) && s4.client.phase == PLAYING
    requires !s4.client.authorized && s4.client.applied == 0
    requires s6 == Next(Next(s4, Timeout), FrameArrives)
    ensures s6 == s4.(down := [], up := [1], trace := [StartEvent(round)],
      client := s4.client.(applied := 1, authorized := true, mapReady := false, snapshotReady := false))
  {
    assert Next(s4, Timeout) == s4.(down := [Stored(1)]);
  }

  /** Its acknowledgement releases the map. */
  lemma MapArrives(s6: Session, s8: Session, round: nat, bricks: set<Cell>)
    requires s6.log == [StartEvent(round), FullEvent(round, bricks)] && s6.acked == 0 && !s6.failed
    requires s6.down == [] && s6.up == [1] && s6.trace == [StartEvent(round)]
    requires s6.client.welcomed && s6.client.round == RoundByte(round) && s6.client.applied == 1
    requires s8 == Next(Next(s6, AckArrives), FrameArrives)
    ensures s8 == s6.(acked := 1, down := [], up := [2], trace := [StartEvent(round), FullEvent(round, bricks)],
      client := s6.client.(applied := 2, bricks := bricks, mapReady := true))
  {
    assert s6.up[1..] == [];
    assert Next(s6, AckArrives) == s6.(acked := 1, up := [], down := [Stored(2)]);
  }

  lemma CaughtUp(s4: Session, s5: Session, s6: Session, s7: Session, s8: Session, round: nat, bricks: set<Cell>)
    requires s4.log == [StartEvent(round), FullEvent(round, Inside(bricks))] && s4.acked == 0 && !s4.failed
    requires s4.down == [] && s4.up == [] && s4.trace == [] && s4.round == round && s4.phase == PLAYING
    requires s4.client.welcomed && s4.client.round == RoundByte(round) && s4.client.phase == PLAYING
    requires !s4.client.authorized && s4.client.applied == 0
    requires s5 == Next(s4, Timeout) && s6 == Next(s5, FrameArrives)
    requires s7 == Next(s6, AckArrives) && s8 == Next(s7, FrameArrives)
    ensures s8.trace == s8.log == s4.log && s8.down == [] && !s8.failed && s8.round == round
    ensures s8.client.welcomed && s8.client.authorized && s8.client.mapReady && !s8.client.snapshotReady
    ensures s8.client.phase == PLAYING && s8.client.round == RoundByte(round)
  {
    hide Next, RoundByte;
    StartArrives(s4, s6, round, Inside(bricks));
    MapArrives(s6, s8, round, Inside(bricks));
  }
}
