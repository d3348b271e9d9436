/** A run of a room, from its start, after which the next tick puts two actors on one
    cell. Slots 1 and 2 are driven by zombies; a connection waits in slot 1, a human
    leaves slot 3, and slot 0 is spawned where slot 3 last stood. When slot 1 says HELLO,
    its zombie moves on to slot 3. */
module Overlap {
  import opened Bytes
  import opened Grid
  import opened Arena
  import opened ArenaSafety
  import opened Seats
  import opened Rounds
  import opened Effects
  import Spawn
  import IQ = InputQueue

  const HELLO := Hello(PROTOCOL_VERSION, 2)

  function Waiting(now: nat): Seat {
    FREE_SEAT.(inUse := true, connectedAt := now, lastSeen := now)
  }

  function Joiner(now: nat): Seat {
    Waiting(now).(handshake := true)
  }

  /** Open cells of the map, so far apart that an actor may be spawned on any of them,
      such as those next to the corners, which are open on the shipped map. */
  predicate Apart(places: seq<Cell>, baseline: set<Cell>) {
    && |places| == SLOTS
    && (forall i :: 0 <= i < SLOTS ==> !IsBrick(baseline, places[i]))
    && (forall i, j :: 0 <= i < j < SLOTS ==> Distance(places[i], places[j]) >= Spawn.MIN_DISTANCE)
  }

  function Quiet(at: seq<Cell>, occupied: set<nat>, baseline: set<Cell>): (f: Field)
    requires |at| == SLOTS
    ensures Sane(f)
  {
    Field(seq(SLOTS, i requires 0 <= i < SLOTS => Standing(at[i])), seq(SLOTS, _ => NO_SHOT), baseline, [], occupied)
  }

  /** The room in its n-th round, counted from 0, with nothing happening on the board. */
  function Scene(seats: seq<Seat>, playing: bool, at: seq<Cell>, occupied: set<nat>, n: nat, r: Rules): Snap
    requires |at| == SLOTS
  {
    Snap(seats, NoInput(), Life((n + 1) % 256, if playing then Playing else Dormant, 0, 0, NoVerdict, {1, 2}),
         Quiet(at, occupied, r.baseline), n)
  }

  lemma SceneAtRest(seats: seq<Seat>, playing: bool, at: seq<Cell>, occupied: set<nat>, n: nat, r: Rules)
    requires |at| == SLOTS && Sized(seats) && RulesOk(r) && (forall i :: 0 <= i < SLOTS ==> InBounds(at[i]))
    requires playing <==> Humans(seats) != {}
    requires !playing ==> occupied == {}
    ensures Proper(Scene(seats, playing, at, occupied, n, r)) && AtRest(Scene(seats, playing, at, occupied, n, r), r)
  {
    assert r.baseline == r.baseline - CellsOf([]);
  }

  /** While no human sits in slots 1 and 2, the zombies are there. */
  lemma ZombiesBelow(seats: seq<Seat>)
    requires Sized(seats) && !Human(seats, 1) && !Human(seats, 2)
    ensures ZombieSet(seats, 2) == {1, 2}
    ensures forall i: nat :: IsZombie(seats, 2, i) <==> i == 1 || i == 2
  {
    Unrolled(seats);
  }

  lemma Handed(f: Field, i: nat)
    requires Sane(f) && i < SLOTS && !f.shots[i].active && Clean(f.players[i])
    ensures SlotReset(f, i) == f
  {
  }

  // --- The events -------------------------------------------------------------------------

  lemma Connects(s: Snap, i: nat, now: nat, r: Rules)
    requires Proper(s) && Preferred(s.seats, r.zombies, i) && !s.seats[i].inUse
    requires s.lastInput == NoInput() && SlotReset(s.field, i) == s.field
    ensures Happened(s, Connect(true), s.(seats := s.seats[i := Waiting(now)]), now, r)
  {
    hide Preferred, IsZombie, SlotReset;
    PreferredIsFree(s.seats, r.zombies, i);
    assert Accepted(s, true, Some(i), s.(seats := s.seats[i := Waiting(now)]), now, r) by {
      assert s.lastInput[i := 0] == s.lastInput;
      assert s.seats[i := FREE_SEAT][i := Waiting(now)] == s.seats[i := Waiting(now)];
    }
  }

  lemma PreferredIsFree(seats: seq<Seat>, zombies: nat, i: nat)
    requires Sized(seats) && Preferred(seats, zombies, i)
    ensures i < SLOTS && forall j: nat :: FreeHumanSeat(seats, zombies, j) ==> FreeHumanSeat(seats, zombies, i)
  {
  }

  /** A read of one packet, from a client heard of at this very moment. */
  lemma Reads(s: Snap, i: nat, p: Packet, end: Snap, t: Snap, now: nat, r: Rules)
    requires Proper(s) && Proper(end) && i < SLOTS && s.seats[i].inUse && s.seats[i].lastSeen == now
    requires Handled(s, i, p, end, now, r)
    requires if end.seats[i].leaving then Departed(end, i, t, r) else !end.seats[i].txFailed && t == end
    ensures Happened(s, Readable(i, [p], false), t, now, r)
  {
    hide Handled, Departed;
    var heard := [s, end];
    assert heard[0] == s.(seats := s.seats[i := s.seats[i].(lastSeen := now)]);
    assert HeardUpTo(i, [p], heard, 1, now, r);
    assert Heard(s, i, [p], false, heard, t, now, r);
  }

  // --- Spawning -----------------------------------------------------------------------------

  /** Every actor on the board stands on its own place, and p is none of theirs. */
  lemma GoodPlace(f: Field, places: seq<Cell>, p: nat)
    requires Sane(f) && p < SLOTS && Apart(places, f.bricks)
    requires forall i: nat :: i < SLOTS && OnBoard(f, i) ==> exists j: nat :: PlaceOf(f, i, places, j) && j != p
    ensures Spawn.GoodSpawn(f, places[p])
  {
    forall i: nat | i < SLOTS && OnBoard(f, i)
      ensures Distance(places[p], f.players[i].at) >= Spawn.MIN_DISTANCE
    {
      var j: nat :| PlaceOf(f, i, places, j) && j != p;
      assert if j < p then Distance(places[j], places[p]) >= Spawn.MIN_DISTANCE
             else Distance(places[p], places[j]) >= Spawn.MIN_DISTANCE;
    }
    forall i: nat | i < SLOTS
      ensures !Stands(f, i, places[p])
    {
    }
    assert Spawn.NearestActor(f, places[p], SLOTS) >= Spawn.MIN_DISTANCE;
    assert Spawn.Free(f, places[p]);
    Spawn.ComfortableIsGood(f, places[p]);
  }

  predicate PlaceOf(f: Field, i: nat, places: seq<Cell>, j: nat)
    requires Sane(f) && i < SLOTS && |places| == SLOTS
  {
    j < SLOTS && f.players[i].at == places[j]
  }

  // --- The run ------------------------------------------------------------------------------

  function SeatsAt(k: nat, now: nat): (seats: seq<Seat>)
    ensures |seats| == SLOTS
  {
    var f, w, j := FREE_SEAT, Waiting(now), Joiner(now);
    match k
    case 0 => [f, f, f, f]
    case 1 => [w, f, f, f]
    case 2 => [j, f, f, f]
    case 3 => [j, f, f, w]
    case 4 => [j, f, f, j]
    case 5 => [j, w, f, j]
    case 6 => [j, w, f, f]
    case 7 => [f, w, f, f]
    case 8 => [w, w, f, f]
    case 9 => [j, w, f, f]
    case _ => [j, j, f, f]
  }

  function PlacesAt(k: nat, places: seq<Cell>): (at: seq<Cell>)
    requires |places| == SLOTS
    ensures |at| == SLOTS
  {
    if k < 2 then seq(SLOTS, _ => places[0])
    else if k < 4 then places[3 := places[0]]
    else if k < 9 then places
    else places[0 := places[3]]
  }

  predicate PlayedAt(k: nat) {
    2 <= k < 7 || k >= 9
  }

  function OccupiedAt(k: nat): set<nat> {
    if !PlayedAt(k) then {} else if 4 <= k < 7 then {0, 1, 2, 3} else {0, 1, 2}
  }

  /** The room after k events. */
  function StateAt(k: nat, places: seq<Cell>, now: nat, r: Rules): Snap
    requires |places| == SLOTS
  {
    Scene(SeatsAt(k, now), PlayedAt(k), PlacesAt(k, places), OccupiedAt(k), if k < 7 then 0 else 1, r)
  }

  function EventAt(k: nat): Event {
    match k
    case 0 => Connect(true)
    case 1 => Readable(0, [HELLO], false)
    case 2 => Connect(true)
    case 3 => Readable(3, [HELLO], false)
    case 4 => Connect(true)
    case 5 => Readable(3, [LeaveRoom(0)], false)
    case 6 => Readable(0, [LeaveRoom(0)], false)
    case 7 => Connect(true)
    case 8 => Readable(0, [HELLO], false)
    case _ => Readable(1, [HELLO], false)
  }

  lemma StateAtRest(k: nat, places: seq<Cell>, now: nat, r: Rules)
    requires RulesOk(r) && Apart(places, r.baseline)
    ensures Proper(StateAt(k, places, now, r)) && AtRest(StateAt(k, places, now, r), r)
  {
    var seats := SeatsAt(k, now);
    assert PlayedAt(k) ==> Human(seats, 0) && 0 in Humans(seats);
    SceneAtRest(seats, PlayedAt(k), PlacesAt(k, places), OccupiedAt(k), if k < 7 then 0 else 1, r);
  }

  lemma BornReady(places: seq<Cell>, now: nat, r: Rules)
    requires RulesOk(r) && r.zombies == 2 && Apart(places, r.baseline)
    ensures Newborn(StateAt(0, places, now, r), r)
  {
    hide Spawn.GoodSpawn;
    var s := StateAt(0, places, now, r);
    ZombiesBelow(s.seats);
    GoodPlace(s.field, places, 0);
  }

  /** Connections 0, 2, 4 and 7. */
  lemma SomeoneConnects(k: nat, i: nat, places: seq<Cell>, now: nat, r: Rules)
    requires RulesOk(r) && r.zombies == 2 && Apart(places, r.baseline)
    requires (k == 0 && i == 0) || (k == 2 && i == 3) || (k == 4 && i == 1) || (k == 7 && i == 0)
    ensures Happened(StateAt(k, places, now, r), EventAt(k), StateAt(k + 1, places, now, r), now, r)
  {
    hide IsZombie;
    var s, t := StateAt(k, places, now, r), StateAt(k + 1, places, now, r);
    ZombiesBelow(s.seats);
    assert Preferred(s.seats, 2, i) by { Prefers(k, i, now); }
    Handed(s.field, i);
    Connects(s, i, now, r);
    assert t.seats == s.seats[i := Waiting(now)];
  }

  lemma Prefers(k: nat, i: nat, now: nat)
    requires (k == 0 && i == 0) || (k == 2 && i == 3) || (k == 4 && i == 1) || (k == 7 && i == 0)
    ensures Preferred(SeatsAt(k, now), 2, i)
  {
    hide IsZombie;
    var seats := SeatsAt(k, now);
    ZombiesBelow(seats);
    assert k != 4 ==> FreeHumanSeat(seats, 2, i);
  }

  /** The first HELLO, and the one after the room has been dormant: slot 0 at places[a]. */
  lemma SomeoneWakes(k: nat, places: seq<Cell>, now: nat, r: Rules)
    requires RulesOk(r) && r.zombies == 2 && Apart(places, r.baseline) && (k == 1 || k == 8)
    ensures Happened(StateAt(k, places, now, r), EventAt(k), StateAt(k + 1, places, now, r), now, r)
  {
    hide Spread, Spawn.GoodSpawn;
    var s, t := StateAt(k, places, now, r), StateAt(k + 1, places, now, r);
    assert t.seats == s.seats[0 := s.seats[0].(handshake := true)];
    assert Humans(t.seats) == {0};
    ZombiesBelow(t.seats);
    assert Actors(t.seats, 2) == {0, 1, 2};
    SpreadOut(t.field, places, if k == 1 then 0 else 3);
    assert Greeted(s, 0, t, r);
    Reads(s, 0, HELLO, t, t, now, r);
  }

  lemma SpreadOut(f: Field, places: seq<Cell>, a: nat)
    requires Sane(f) && Apart(places, f.bricks) && (a == 0 || a == 3)
    requires f.players[0].at == places[a] && f.players[1].at == places[1] && f.players[2].at == places[2]
    ensures Spread(f, {0, 1, 2}, SLOTS)
  {
    hide Spawn.GoodSpawn;
    forall i: nat | i < SLOTS && i in {0, 1, 2}
      ensures Spawn.GoodSpawn(Occupying(f, Under({0, 1, 2}, i)), f.players[i].at)
    {
      var g := Occupying(f, Under({0, 1, 2}, i));
      forall j: nat | j < SLOTS && OnBoard(g, j)
        ensures exists m: nat :: PlaceOf(g, j, places, m) && m != if i == 0 then a else i
      {
        assert PlaceOf(g, j, places, if j == 0 then a else j);
      }
      GoodPlace(g, places, if i == 0 then a else i);
    }
  }

  lemma ThirdEnters(places: seq<Cell>, now: nat, r: Rules)
    requires RulesOk(r) && r.zombies == 2 && Apart(places, r.baseline)
    ensures Happened(StateAt(3, places, now, r), EventAt(3), StateAt(4, places, now, r), now, r)
  {
    hide Spawn.GoodSpawn;
    var s, t := StateAt(3, places, now, r), StateAt(4, places, now, r);
    assert t.seats == s.seats[3 := s.seats[3].(handshake := true)];
    ZombiesBelow(s.seats);
    forall i: nat | i < SLOTS && OnBoard(s.field, i)
      ensures exists j: nat :: PlaceOf(s.field, i, places, j) && j != 3
    {
      assert PlaceOf(s.field, i, places, i);
    }
    GoodPlace(s.field, places, 3);
    assert t.field == Joined(s.field, 3, places[3]);
    assert PutOnBoard(s, 3, t.field, places[3], r);
    assert Greeted(s, 3, t, r);
    Reads(s, 3, HELLO, t, t, now, r);
  }

  lemma ThirdLeaves(places: seq<Cell>, now: nat, r: Rules)
    requires RulesOk(r) && Apart(places, r.baseline)
    ensures Happened(StateAt(5, places, now, r), EventAt(5), StateAt(6, places, now, r), now, r)
  {
    var s, t := StateAt(5, places, now, r), StateAt(6, places, now, r);
    var end := s.(seats := s.seats[3 := s.seats[3].(leaving := true)]);
    assert Human(end.seats, 0) && 0 in Humans(end.seats);
    Handed(end.field, 3);
    assert t == Vacated(end, 3);
    Reads(s, 3, LeaveRoom(0), end, t, now, r);
  }

  lemma LastLeaves(places: seq<Cell>, now: nat, r: Rules)
    requires RulesOk(r) && r.zombies == 2 && Apart(places, r.baseline)
    ensures Happened(StateAt(6, places, now, r), EventAt(6), StateAt(7, places, now, r), now, r)
  {
    var s, t := StateAt(6, places, now, r), StateAt(7, places, now, r);
    var end := s.(seats := s.seats[0 := s.seats[0].(leaving := true)]);
    assert Humans(end.seats) == {0};
    var vacated := end.seats[0 := FREE_SEAT];
    ZombiesBelow(vacated);
    assert t.seats == RewoundAll(vacated);
    assert GoneDormant(end, vacated, t, r);
    Reads(s, 0, LeaveRoom(0), end, t, now, r);
  }

  lemma ZombieMovesOn(places: seq<Cell>, now: nat, r: Rules)
    requires RulesOk(r) && r.zombies == 2 && Apart(places, r.baseline)
    ensures Happened(StateAt(9, places, now, r), EventAt(9), StateAt(10, places, now, r), now, r)
  {
    var s, t := StateAt(9, places, now, r), StateAt(10, places, now, r);
    assert t.seats == s.seats[1 := s.seats[1].(handshake := true)];
    ZombiesBelow(s.seats);
    assert t.field == Joined(s.field, 1, places[1]);
    assert PutOnBoard(s, 1, t.field, places[1], r);
    assert Greeted(s, 1, t, r);
    Reads(s, 1, HELLO, t, t, now, r);
  }

  lemma EveryStep(k: nat, places: seq<Cell>, now: nat, r: Rules)
    requires RulesOk(r) && r.zombies == 2 && Apart(places, r.baseline) && k < 10
    ensures Proper(StateAt(k, places, now, r))
    ensures Happened(StateAt(k, places, now, r), EventAt(k), StateAt(k + 1, places, now, r), now, r)
  {
    hide Happened, StateAt, EventAt;
    StateAtRest(k, places, now, r);
    match k
    case 0 => SomeoneConnects(0, 0, places, now, r);
    case 1 => SomeoneWakes(1, places, now, r);
    case 2 => SomeoneConnects(2, 3, places, now, r);
    case 3 => ThirdEnters(places, now, r);
    case 4 => SomeoneConnects(4, 1, places, now, r);
    case 5 => ThirdLeaves(places, now, r);
    case 6 => LastLeaves(places, now, r);
    case 7 => SomeoneConnects(7, 0, places, now, r);
    case 8 => SomeoneWakes(8, places, now, r);
    case 9 => ZombieMovesOn(places, now, r);
  }

  /** What the run has led to: a round in progress with everyone on their own cells and
      on the board already, in which the next HELLO moves a zombie. */
  lemma BeforeTheHello(places: seq<Cell>, now: nat, r: Rules)
    requires RulesOk(r) && r.zombies == 2 && Apart(places, r.baseline)
    ensures var s := StateAt(9, places, now, r);
      && Proper(s) && s.life.phase.Playing? && Placed(s.field) && Covered(s.field, s.seats, 2) && ShiftsIn(s.seats, 2, 1)
  {
    var s := StateAt(9, places, now, r);
    ZombiesBelow(s.seats);
    assert !IsZombie(s.seats, 2, 3) && !Human(s.seats, 3);
    forall i: nat, j: nat | i < j && OnBoard(s.field, i) && OnBoard(s.field, j)
      ensures s.field.players[i].at != s.field.players[j].at
    {
      assert Distance(places[j], places[if i == 0 then 3 else i]) >= Spawn.MIN_DISTANCE
          || Distance(places[if i == 0 then 3 else i], places[j]) >= Spawn.MIN_DISTANCE;
    }
  }

  /** And after it: whenever the next tick comes, slots 0 and 3 share a cell in it. */
  lemma AfterTheHello(places: seq<Cell>, now: nat, r: Rules, later: nat, ready: Field)
    requires RulesOk(r) && r.zombies == 2 && |places| == SLOTS
    requires var t := StateAt(10, places, now, r);
      Readied(Steered(t.field, t.seats, later), Actors(t.seats, 2), later, ready)
    ensures !Placed(ready)
  {
    hide Respawned;
    var t := StateAt(10, places, now, r);
    assert IsZombie(t.seats, 2, 3) && Human(t.seats, 0) by { Unrolled(t.seats); }
    var steered := Steered(t.field, t.seats, later);
    assert RebornAs(steered.players[0], ready.players[0], later) && RebornAs(steered.players[3], ready.players[3], later);
    assert OnBoard(ready, 0) && OnBoard(ready, 3) && ready.players[0].at == ready.players[3].at;
  }

  /** On every map with four open cells well apart, in every room with two zombies: a run
      from the room's start to a round in progress, with everyone on distinct open cells
      and nobody else to come onto the board, where one more HELLO is accepted and every
      tick that may follow finds two actors on one cell. */
  lemma ShiftCanOverlap(places: seq<Cell>, now: nat, r: Rules)
      returns (run: seq<Snap>, events: seq<(nat, Event)>, times: seq<nat>)
    requires RulesOk(r) && r.zombies == 2 && Apart(places, r.baseline)
    ensures |events| == 10 && History(run, events, times, r) && Newborn(run[0], r)
    ensures forall m :: 0 <= m < 10 ==> times[m] == now
    ensures events[9].1 == Readable(1, [HELLO], false)
    ensures Proper(run[9]) && run[9].life.phase.Playing? && !Human(run[9].seats, 1)
    ensures Placed(run[9].field) && Covered(run[9].field, run[9].seats, 2) && ShiftsIn(run[9].seats, 2, 1)
    ensures Proper(run[10]) && Human(run[10].seats, 1)
    ensures forall later: nat, ready: Field ::
      Readied(Steered(run[10].field, run[10].seats, later), Actors(run[10].seats, 2), later, ready) ==> !Placed(ready)
  {
    hide StateAt, EventAt, Happened, AtRest, Newborn, RebornAs, Respawned, RulesOk;
    run := seq(11, k requires 0 <= k < 11 => StateAt(k, places, now, r));
    events := seq(10, k requires 0 <= k < 10 => (0, EventAt(k)));
    times := seq(10, _ => now);
    forall m | 0 <= m < 11
      ensures AtRest(run[m], r)
    {
      StateAtRest(m, places, now, r);
    }
    forall m, next | 0 <= m < 10 && next == m + 1
      ensures Proper(run[m]) && Happened(run[m], events[m].1, run[next], times[m], r)
    {
      EveryStep(m, places, now, r);
    }
    BornReady(places, now, r);
    BeforeTheHello(places, now, r);
    StateAtRest(9, places, now, r);
    StateAtRest(10, places, now, r);
    forall later: nat, ready: Field |
      Readied(Steered(run[10].field, run[10].seats, later), Actors(run[10].seats, 2), later, ready)
      ensures !Placed(ready)
    {
      AfterTheHello(places, now, r, later, ready);
    }
    Newcomers(places, now, r);
  }

  lemma Newcomers(places: seq<Cell>, now: nat, r: Rules)
    requires |places| == SLOTS
    ensures Proper(StateAt(9, places, now, r)) && Proper(StateAt(10, places, now, r))
    ensures !Human(StateAt(9, places, now, r).seats, 1) && Human(StateAt(10, places, now, r).seats, 1)
    ensures EventAt(9) == Readable(1, [HELLO], false)
  {
  }
}
