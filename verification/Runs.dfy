/** Laws of whole runs of a room, from what each of its events does. */
module Runs {
  import opened Bytes
  import opened Grid
  import opened Arena
  import opened ArenaSafety
  import opened Seats
  import opened Rounds
  import opened Effects
  import Spawn

  // --- Shots ------------------------------------------------------------------------------

  lemma CarryChain(f: Field, g: Field, h: Field)
    requires Sane(f) && Sane(g) && Sane(h) && ShotsCarry(f, g) && ShotsCarry(g, h)
    ensures ShotsCarry(f, h)
  {
  }

  lemma SlotResetCarries(f: Field, i: nat)
    requires Sane(f) && i < SLOTS
    ensures ShotsCarry(f, SlotReset(f, i)) && ShotsCarry(f, NoShotsAtAll(SlotReset(f, i)))
  {
  }

  lemma FreshCarries(f: Field, g: Field, baseline: set<Cell>, occupied: set<nat>)
    requires Sane(f) && Fresh(g, baseline, occupied)
    ensures ShotsCarry(f, g)
  {
  }

  lemma DroppedCarries(s: Snap, i: nat, t: Snap, now: nat, r: Rules)
    requires Proper(s) && Proper(t) && i < SLOTS && Dropped(s, i, t, now, r)
    ensures ShotsCarry(s.field, t.field)
  {
    hide Fresh, Spread, SlotReset, ZombieSet, ShotsCarry, NoShotsAtAll;
    SlotResetCarries(s.field, i);
    if Fresh(t.field, r.baseline, Actors(s.seats[i := FREE_SEAT], r.zombies)) {
      FreshCarries(s.field, t.field, r.baseline, Actors(s.seats[i := FREE_SEAT], r.zombies));
    }
  }

  lemma DepartedCarries(s: Snap, i: nat, t: Snap, r: Rules)
    requires Proper(s) && Proper(t) && i < SLOTS && Departed(s, i, t, r)
    ensures ShotsCarry(s.field, t.field)
  {
    hide Fresh, Spread, SlotReset, ZombieSet, ShotsCarry;
    SlotResetCarries(s.field, i);
    if Fresh(t.field, r.baseline, {}) {
      FreshCarries(s.field, t.field, r.baseline, {});
    }
  }

  lemma GreetedCarries(s: Snap, i: nat, t: Snap, r: Rules)
    requires Proper(s) && Proper(t) && i < SLOTS && Greeted(s, i, t, r)
    ensures ShotsCarry(s.field, t.field)
  {
    hide Fresh, Spread, ZombieSet, Spawn.GoodSpawn;
    var actors := Actors(s.seats[i := s.seats[i].(handshake := true)], r.zombies);
    if s.life.phase.Dormant? {
      FreshCarries(s.field, t.field, r.baseline, actors);
    }
  }

  lemma HandledCarries(s: Snap, i: nat, p: Packet, t: Snap, now: nat, r: Rules)
    requires Proper(s) && Proper(t) && i < SLOTS && Handled(s, i, p, t, now, r)
    ensures ShotsCarry(s.field, t.field)
  {
    hide Greeted, Spawn.GoodSpawn, Stamps, IntakeAfter;
    if !s.seats[i].handshake && GoodHello(p) {
      GreetedCarries(s, i, t, r);
    }
  }

  lemma {:induction false} HeardCarries(i: nat, packets: seq<Packet>, heard: seq<Snap>, n: nat, now: nat, r: Rules)
    requires i < SLOTS && n <= |packets| && n < |heard| && HeardUpTo(i, packets, heard, n, now, r)
    ensures ShotsCarry(heard[0].field, heard[n].field)
    decreases n
  {
    hide Handled, ShotsCarry;
    if n > 0 {
      HeardCarries(i, packets, heard, n - 1, now, r);
      assert Handled(heard[n - 1], i, packets[n - 1], heard[n], now, r);
      HandledCarries(heard[n - 1], i, packets[n - 1], heard[n], now, r);
      CarryChain(heard[0].field, heard[n - 1].field, heard[n].field);
    } else {
      SameCarries(heard[0].field);
    }
  }

  lemma SameCarries(f: Field)
    requires Sane(f)
    ensures ShotsCarry(f, f)
  {
  }

  lemma {:induction false} ReapedCarries(trail: seq<Snap>, n: nat, now: nat, r: Rules)
    requires n <= SLOTS && n < |trail| && ReapedUpTo(trail, n, now, r)
    ensures ShotsCarry(trail[0].field, trail[n].field)
    decreases n
  {
    hide Dropped, Alive, ShotsCarry;
    SameCarries(trail[n].field);
    if n > 0 {
      var s, t := trail[n - 1], trail[n];
      ReapedCarries(trail, n - 1, now, r);
      assert ReapedAt(s, n - 1, t, now, r);
      if s.seats[n - 1].inUse && !Alive(s.seats[n - 1], now) {
        DroppedCarries(s, n - 1, t, now, r);
      }
      CarryChain(trail[0].field, s.field, t.field);
    }
  }

  lemma ExpiredCarries(s: Snap, t: Snap, now: nat, r: Rules)
    requires Proper(s) && Proper(t) && Expired(s, t, now, r)
    ensures ShotsCarry(s.field, t.field)
  {
    hide Fresh, Spread, ZombieSet, ShotsCarry;
    SameCarries(s.field);
    if Fresh(t.field, r.baseline, {}) {
      FreshCarries(s.field, t.field, r.baseline, {});
    }
    if Fresh(t.field, r.baseline, Actors(s.seats, r.zombies)) {
      FreshCarries(s.field, t.field, r.baseline, Actors(s.seats, r.zombies));
    }
  }

  lemma TickedAdvances(s: Snap, t: Snap, ready: Field, turn: Turn, now: nat, r: Rules)
    requires AtRest(s, r) && Proper(t) && s.life.phase.Playing? && Ticked(s, t, ready, turn, now, r)
    ensures ShotsAdvance(s.field, t.field)
  {
    hide Combat, Steered, Silenced, Drained, Finished, ZombieSet, FieldSound, FieldInv, EndedInv, Respawned;
    var steered := Steered(s.field, s.seats, now);
    PlayingIsFieldInv(s.field, r.baseline, r.limit);
    SteeredKeeps(s.field, s.seats, now, r.baseline, r.limit);
    ReadiedKeeps(steered, Actors(s.seats, r.zombies), now, ready, r.baseline, r.limit);
    assert steered.shots == s.field.shots by { SteeredShots(s.field, s.seats, now); }
    CombatAdvances(ready, turn);
    CombatKeeps(ready, turn, r.baseline);
    if Combat(ready, turn).ended {
      EndedMeansClear(t.field, r.baseline, r.limit);
    }
  }

  lemma SteeredShots(f: Field, seats: seq<Seat>, now: nat)
    requires Sane(f) && Sized(seats)
    ensures Steered(f, seats, now).shots == f.shots
  {
  }

  lemma EndedMeansClear(f: Field, baseline: set<Cell>, limit: nat)
    requires EndedInv(f, baseline, limit)
    ensures Sane(f) && NoShots(f)
  {
  }

  lemma StillMeansClear(s: Snap, r: Rules)
    requires AtRest(s, r) && !s.life.phase.Playing?
    ensures NoShots(s.field)
  {
  }

  /** Ticks, and only ticks, move shots; nothing else that happens launches one. */
  lemma HappenedShots(s: Snap, e: Event, t: Snap, now: nat, r: Rules)
    requires Proper(s) && Proper(t)
    ensures AtRest(s, r) && Happened(s, e, t, now, r) ==>
      if e.TickDue? then ShotsAdvance(s.field, t.field) else ShotsCarry(s.field, t.field)
  {
    hide AtRest, Heard, Timed, Ticked, Accepted, ShotsCarry, ShotsAdvance;
    if AtRest(s, r) && Happened(s, e, t, now, r) {
      AtRestProper(s, r);
      SameCarries(s.field);
      match e
      case Connect(configured) =>
        var slot: Option<nat> :| Accepted(s, configured, slot, t, now, r);
        AcceptedCarries(s, configured, slot, t, now, r);
      case Readable(i, packets, failed) =>
        if i < SLOTS && s.seats[i].inUse {
          var heard: seq<Snap> :| Heard(s, i, packets, failed, heard, t, now, r);
          ReadCarries(s, i, packets, failed, heard, t, now, r);
        }
      case SendFails(i) =>
      case Timers =>
        var trail: seq<Snap> :| Timed(s, trail, t, now, r);
        TimersCarry(s, trail, t, now, r);
      case TickDue =>
        if s.life.phase.Playing? {
          var ready: Field, turn: Turn :| Ticked(s, t, ready, turn, now, r);
          TickedAdvances(s, t, ready, turn, now, r);
        } else {
          StillMeansClear(s, r);
          ClearAdvances(s.field, t.field);
        }
    }
  }

  lemma AtRestProper(s: Snap, r: Rules)
    requires AtRest(s, r)
    ensures Proper(s)
  {
  }

  lemma ClearAdvances(f: Field, g: Field)
    requires Sane(f) && Sane(g) && NoShots(f)
    ensures ShotsAdvance(f, g)
  {
  }

  lemma AcceptedCarries(s: Snap, configured: bool, slot: Option<nat>, t: Snap, now: nat, r: Rules)
    requires Proper(s) && Accepted(s, configured, slot, t, now, r)
    ensures Proper(t) && ShotsCarry(s.field, t.field)
  {
    hide SlotReset, ShotsCarry, IsZombie;
    SameCarries(s.field);
    if slot.Some? {
      SlotResetCarries(s.field, slot.value);
    }
  }

  lemma ReadCarries(s: Snap, i: nat, packets: seq<Packet>, failed: bool, heard: seq<Snap>, t: Snap, now: nat, r: Rules)
    requires Proper(s) && Proper(t) && i < SLOTS && Heard(s, i, packets, failed, heard, t, now, r)
    ensures ShotsCarry(s.field, t.field)
  {
    hide Dropped, Departed, ShotsCarry, HeardUpTo;
    HeardCarries(i, packets, heard, |packets|, now, r);
    var end := heard[|packets|];
    HeardProper(i, packets, heard, |packets|, now, r);
    if end.seats[i].leaving {
      DepartedCarries(end, i, t, r);
    } else if failed || end.seats[i].txFailed {
      DroppedCarries(end, i, t, now, r);
    } else {
      SameCarries(end.field);
    }
    CarryChain(s.field, end.field, t.field);
  }

  lemma HeardProper(i: nat, packets: seq<Packet>, heard: seq<Snap>, n: nat, now: nat, r: Rules)
    requires i < SLOTS && n <= |packets| && n < |heard| && HeardUpTo(i, packets, heard, n, now, r)
    ensures Proper(heard[n]) && Proper(heard[0])
  {
  }

  lemma TimersCarry(s: Snap, trail: seq<Snap>, t: Snap, now: nat, r: Rules)
    requires Proper(s) && Proper(t) && Timed(s, trail, t, now, r)
    ensures ShotsCarry(s.field, t.field)
  {
    hide ShotsCarry, Expired, ReapedAt;
    ReapedCarries(trail, SLOTS, now, r);
    ExpiredCarries(trail[SLOTS], t, now, r);
    CarryChain(s.field, trail[SLOTS].field, t.field);
  }

  function Fields(run: seq<Snap>): seq<Field> {
    seq(|run|, m requires 0 <= m < |run| => run[m].field)
  }

  function Ticks(events: seq<(nat, Event)>): seq<bool> {
    seq(|events|, m requires 0 <= m < |events| => events[m].1.TickDue?)
  }

  /** In every run of a room, over any stretch in which a shot stays in the air, there
      are no more ticks than its distance to the edge at the start of the stretch. */
  lemma NoShotOutlivesItsRange(run: seq<Snap>, events: seq<(nat, Event)>, times: seq<nat>, r: Rules, k: nat, i: nat, j: nat)
    requires History(run, events, times, r) && k < SLOTS && i <= j < |run|
    requires Aloft(Fields(run), k, i, j)
    ensures |run[i].field.shots| == SLOTS
    ensures TickCount(Ticks(events), i, j) <= Range(run[i].field.shots[k]) < WIDTH
  {
    hide AtRest, Happened, ShotsAdvance, ShotsCarry;
    var fields, ticks := Fields(run), Ticks(events);
    forall m | 0 <= m < |run|
      ensures Sane(fields[m]) && ShotsOk(fields[m])
    {
      assert AtRest(run[m], r);
      ShotsAtRest(run[m], r);
    }
    forall m, n | 0 <= m < |ticks| && n == m + 1
      ensures if ticks[m] then ShotsAdvance(fields[m], fields[n]) else ShotsCarry(fields[m], fields[n])
    {
      assert AtRest(run[m], r) && AtRest(run[n], r);
      AtRestProper(run[m], r);
      AtRestProper(run[n], r);
      HappenedShots(run[m], events[m].1, run[n], times[m], r);
    }
    FlightIsBounded(fields, ticks, k, i, j);
  }

  lemma ShotsAtRest(s: Snap, r: Rules)
    requires AtRest(s, r)
    ensures Sane(s.field) && ShotsOk(s.field)
  {
  }
}
