/** A room: its seats, the life of its rounds, and the ticks between. The clock,
    the dice and the zombies' moods come from outside; packets arrive decoded. */
module Room {
  import opened Bytes
  import opened Grid
  import opened Arena
  import opened ArenaSafety
  import opened Seats
  import opened Rounds
  import opened Effects
  import Spawn
  import B = Board
  import IQ = InputQueue

  /** A brick is announced again exactly when some echo is pending, and it is one of those. */
  ghost predicate EchoDue(echoes: seq<B.Echo>, echoed: Option<Cell>) {
    && (echoed.None? <==> forall i :: 0 <= i < |echoes| ==> echoes[i].left == 0)
    && (echoed.Some? ==> exists i :: 0 <= i < |echoes| && echoes[i].left > 0 && echoes[i].cell == echoed.value)
  }

  class Room {
    const zombies: nat
    const limit: nat
    const intermissionMs: nat
    const graceMs: nat
    const lagMs: nat
    const baseline: set<Cell>
    const board: B.Board

    var seats: seq<Seat>
    var lastInput: seq<nat>
    var life: Life
    /** The clock as last read. */
    var now: nat

    /** Rounds begun so far, less one, and the verdicts of those that ended. */
    ghost var epoch: nat
    ghost var results: seq<Ending>
    /** HELLOs that moved a zombie to another slot while a round was played. */
    ghost var shifts: nat

    /** init_room: an empty room is dormant, its actors' places already chosen. */
    constructor (zombies: nat, limit: nat, intermissionMs: nat, graceMs: nat, lagMs: nat, baseline: set<Cell>, now: nat)
      requires zombies < SLOTS && 1 <= limit <= 10 && intermissionMs >= 100 && graceMs >= 100
      ensures Valid() && fresh(board) && life.phase.Dormant? && seats == seq(SLOTS, _ => FREE_SEAT)
      ensures this.zombies == zombies && this.limit == limit && this.baseline == baseline
      ensures this.intermissionMs == intermissionMs && this.graceMs == graceMs && this.lagMs == lagMs
      ensures this.now == now && life.round == 1 && epoch == 0 && results == []
      ensures Newborn(State(), Config())
    {
      this.zombies, this.limit, this.baseline := zombies, limit, baseline;
      this.intermissionMs, this.graceMs, this.lagMs := intermissionMs, graceMs, lagMs;
      this.now, epoch, results, shifts := now, 0, [], 0;
      seats, lastInput := seq(SLOTS, _ => FREE_SEAT), NoInput();
      life := Life(1, Dormant, 0, 0, NoVerdict, {});
      board := new B.Board(
        Field(seq(SLOTS, _ => Standing(Cell(0, 0))), seq(SLOTS, _ => NO_SHOT), baseline, [], {}));
      new;
      var i := 0;
      while i < SLOTS
        invariant 0 <= i <= SLOTS && board.Valid() && Fresh(board.field, baseline, {})
        invariant forall j :: 0 <= j < i ==> Spawn.GoodSpawn(board.field, board.field.players[j].at)
        invariant life == Life(1, Dormant, 0, 0, NoVerdict, {})
        invariant seats == seq(SLOTS, _ => FREE_SEAT) && lastInput == NoInput()
        invariant epoch == 0 && results == [] && this.now == now
      {
        hide Spawn.GoodSpawn;
        ghost var f := board.field;
        var _ := Respot(i);
        SpotsKept(f, board.field, i);
        i := i + 1;
      }
      var mask := ComputeZombieMask(seats, zombies);
      life := life.(everZombie := mask);
      assert Humans(seats) == {};
    }

    ghost function Config(): Rules {
      Rules(zombies, limit, intermissionMs, graceMs, lagMs, baseline)
    }

    ghost predicate Configured() {
      RulesOk(Config())
    }

    ghost function State(): Snap
      reads this, board
    {
      Snap(seats, lastInput, life, board.field, epoch)
    }

    /** What holds even in the middle of a handover. */
    ghost predicate Sound()
      reads this, board
    {
      && Configured() && SeatsOk(seats, lastInput, now) && board.Valid()
      && FieldSound(board.field, baseline, limit, life.phase)
      && (life.phase.Over? <==> life.intermissionAt != 0)
      && Chronicle(epoch, results, life, limit)
    }

    ghost predicate Valid()
      reads this, board
    {
      && Sound() && LifeOk(life, Humans(seats))
      && (Humans(seats) == {} ==> NoShots(board.field))
    }

    ghost predicate InPlace()
      requires Sane(board.field)
      reads this, board
    {
      life.phase.Playing? ==> Placed(board.field)
    }

    /** While a round is played, its actors stand on distinct open cells, and nobody
        else will be on the board at the next tick. */
    ghost predicate Orderly()
      requires Sized(seats) && Sane(board.field)
      reads this, board
    {
      life.phase.Playing? ==> Placed(board.field) && Covered(board.field, seats, zombies)
    }

    /** The history since then: the clock of rounds has not run back, no verdict has
        been lost, and a round that was over and still is has not changed. */
    ghost predicate Since(wasLife: Life, wasField: Field, wasEpoch: nat, wasResults: seq<Ending>)
      reads this, board
    {
      && wasEpoch <= epoch && wasResults <= results
      && FrozenBetween(wasLife, wasField, wasEpoch, life, board.field, epoch)
    }

    // --- Dice --------------------------------------------------------------------------

    method Roll() returns (dice: seq<(nat, nat)>)
      ensures |dice| == Spawn.TRIES
    {
      dice := [];
      while |dice| < Spawn.TRIES
        invariant |dice| <= Spawn.TRIES
      {
        var x: nat, y: nat := *, *;
        dice := dice + [(x, y)];
      }
    }

    /** pick_spawn for slot i, with whatever the dice say. */
    method Respot(i: nat) returns (c: Cell)
      requires board.Valid() && i < SLOTS
      modifies board`field
      ensures board.Valid() && Spawn.GoodSpawn(old(board.field), c) && InBounds(c)
      ensures board.field == WithPlayer(old(board.field), i, old(board.field).players[i].(at := c))
    {
      hide Spawn.GoodSpawn;
      var dice := Roll();
      c := Spawn.PickSpawn(board.field, dice);
      board.field := board.field.(players := board.field.players[i := board.field.players[i].(at := c)]);
    }

    // --- Rounds ----------------------------------------------------------------------------

    /** One slot's share of reset_round. */
    method SeedSlot(i: nat, mask: set<nat>)
      requires board.Valid() && i < SLOTS && Sized(seats) && |lastInput| == SLOTS
      requires Seeding(board.field, baseline, Humans(seats) + mask, i)
      modifies this`seats, this`lastInput, board`field
      ensures board.Valid()
      ensures Seeding(board.field, baseline, old(Humans(seats)) + mask, i + 1)
      ensures i !in old(Humans(seats)) + mask ==> board.field.players[i].at == old(board.field).players[i].at
      ensures forall j :: 0 <= j < SLOTS && j != i ==> board.field.players[j] == old(board.field).players[j]
      ensures seats == old(seats)[i := Rewound(old(seats)[i])] && lastInput == old(lastInput)[i := 0]
    {
      hide Seeding, Spawn.GoodSpawn;
      ghost var f := board.field;
      ghost var occupied := Humans(seats) + mask;
      SweepKeeps(f, baseline, occupied, i);
      board.field := board.field.(players := board.field.players[i := Standing(board.field.players[i].at)]);
      lastInput := lastInput[i := 0];
      var seated := (seats[i].inUse && seats[i].handshake) || i in mask;
      seats := seats[i := Rewound(seats[i])];
      if seated {
        var c := Respot(i);
        SeedKeeps(Swept(f, i), baseline, occupied, i, c);
        board.field := board.field.(occupied := board.field.occupied + {i});
        assert board.field == Seated(Swept(f, i), i, c);
      }
    }

    /** A new round on the configured map, with everyone seated afresh. */
    method ResetRound()
      requires Configured() && SeatsOk(seats, lastInput, now) && board.Valid() && InField(board.field)
      requires Chronicle(epoch, results, life, limit)
      modifies this`seats, this`lastInput, this`life, this`epoch, board
      ensures board.Valid() && SeatsOk(seats, lastInput, now) && Chronicle(epoch, results, life, limit)
      ensures epoch == old(epoch) + 1 && seats == RewoundAll(old(seats)) && lastInput == NoInput()
      ensures life == NextRound(old(life), ZombieSet(old(seats), zombies))
      ensures Fresh(board.field, baseline, Actors(old(seats), zombies))
      ensures Spread(board.field, Actors(old(seats), zombies), SLOTS)
      ensures forall i :: 0 <= i < SLOTS && i !in Actors(old(seats), zombies) ==>
        board.field.players[i].at == old(board.field).players[i].at
    {
      hide Spread, Chronicle, SeatsOk;
      SeatsSized(seats, lastInput, now);
      life := life.(round := (life.round + 1) % 256, phase := Playing, intermissionAt := 0);
      board.echoes := seq(B.ECHO_MAX, _ => B.NO_ECHO);
      board.field := Field(board.field.players, seq(SLOTS, _ => NO_SHOT), baseline, [], {});
      var mask := ComputeZombieMask(seats, zombies);
      life := life.(everZombie := mask);
      ghost var was, stood := seats, board.field;
      ghost var occupied := Humans(seats) + mask;
      assert Seeding(board.field, baseline, occupied, 0) by { NothingSpread(board.field, occupied); }
      var i := 0;
      while i < SLOTS
        invariant 0 <= i <= SLOTS && board.Valid() && Sized(seats) && |lastInput| == SLOTS
        invariant Humans(seats) == Humans(was) && Seeding(board.field, baseline, occupied, i)
        invariant epoch == old(epoch) && life == NextRound(old(life), mask)
        invariant forall j :: 0 <= j < SLOTS ==> seats[j] == if j < i then Rewound(was[j]) else was[j]
        invariant forall j :: 0 <= j < i ==> lastInput[j] == 0
        invariant forall j :: 0 <= j < SLOTS && (j >= i || j !in occupied) ==>
          board.field.players[j].at == stood.players[j].at
      {
        hide Seeding;
        SeedSlot(i, mask);
        RewindIsHarmless(was, seats);
        i := i + 1;
      }
      Seeded(board.field, baseline, occupied);
      assert seats == RewoundAll(was) && lastInput == NoInput();
      SeatsAcross(was, old(lastInput), now, zombies);
      NextChronicle(epoch, results, old(life), limit, mask, epoch + 1);
      epoch := epoch + 1;
    }

    /** A clean baseline for the next round, parked until somebody says HELLO. */
    method EnterDormant()
      requires Configured() && SeatsOk(seats, lastInput, now) && board.Valid() && InField(board.field)
      requires Chronicle(epoch, results, life, limit) && Humans(seats) == {}
      modifies this`seats, this`lastInput, this`life, this`epoch, board
      ensures Valid()
      ensures GoneDormant(old(State()), old(seats), State(), Config())
    {
      hide Spread, Chronicle, SeatsOk;
      SeatsSized(seats, lastInput, now);
      NextChronicle(epoch, results, life, limit, ZombieSet(seats, zombies), epoch + 1);
      SeatsAcross(seats, lastInput, now, zombies);
      ResetRound();
      life := life.(phase := Dormant);
      board.field := board.field.(occupied := {});
      life := life.(intermissionAt := 0, graceAt := 0);
      FreshSound(board.field, baseline, limit, {});
    }

    /** Out of dormancy: everyone present is spawned on the board that was parked. */
    method WakeDormant()
      requires Configured() && SeatsOk(seats, lastInput, now) && board.Valid()
      requires Fresh(board.field, baseline, {}) && lastInput == NoInput()
      modifies this`life, this`lastInput, board`field
      ensures board.Valid() && lastInput == NoInput()
      ensures life == old(life).(phase := Playing, everZombie := ZombieSet(seats, zombies))
      ensures Fresh(board.field, baseline, Actors(seats, zombies))
      ensures Spread(board.field, Actors(seats, zombies), SLOTS)
    {
      hide Spread, SeatsOk;
      SeatsSized(seats, lastInput, now);
      life := life.(phase := Playing, everZombie := {});
      var mask := ComputeZombieMask(seats, zombies);
      ghost var occupied := Humans(seats) + mask;
      assert Seeding(board.field, baseline, occupied, 0) by { NothingSpread(board.field, occupied); }
      var i := 0;
      while i < SLOTS
        invariant 0 <= i <= SLOTS && board.Valid() && lastInput == NoInput()
        invariant Seeding(board.field, baseline, occupied, i)
        invariant forall j :: i <= j < SLOTS ==> Clean(board.field.players[j])
        invariant life == old(life).(phase := Playing, everZombie := Under(mask, i))
      {
        WakeSlot(i, mask);
        if i in mask {
          life := life.(everZombie := life.everZombie + {i});
        }
        i := i + 1;
      }
      Seeded(board.field, baseline, occupied);
      assert Under(mask, SLOTS) == mask;
    }

    /** One slot's share of waking up. */
    method WakeSlot(i: nat, mask: set<nat>)
      requires board.Valid() && i < SLOTS && Sized(seats) && lastInput == NoInput()
      requires Seeding(board.field, baseline, Humans(seats) + mask, i) && Clean(board.field.players[i])
      modifies this`lastInput, board`field
      ensures board.Valid() && lastInput == NoInput()
      ensures Seeding(board.field, baseline, Humans(seats) + mask, i + 1)
      ensures forall j :: 0 <= j < SLOTS && j != i ==> board.field.players[j] == old(board.field).players[j]
    {
      hide Spread, Spawn.GoodSpawn;
      ghost var f := board.field;
      ghost var occupied := Humans(seats) + mask;
      assert Swept(f, i) == f;
      SweepKeeps(f, baseline, occupied, i);
      if !(seats[i].inUse && seats[i].handshake) && i !in mask {
        return;
      }
      var c := Respot(i);
      ResetSlotGameplay(i);
      board.field := board.field.(players := board.field.players[i := board.field.players[i].(respawnAt := 0)]);
      board.field := board.field.(occupied := board.field.occupied + {i});
      SeedKeeps(f, baseline, occupied, i, c);
      assert board.field == Seated(f, i, c);
    }

    /** A slot changes hands. */
    method ResetSlotGameplay(i: nat)
      requires board.Valid() && i < SLOTS && |lastInput| == SLOTS
      modifies this`lastInput, board`field
      ensures board.Valid() && board.field == SlotReset(old(board.field), i) && lastInput == old(lastInput)[i := 0]
    {
      var f := board.field;
      if f.shots[i].active {
        f := f.(shots := f.shots[i := f.shots[i].(active := false, clearBurst := CLEAR_BURST)]);
      }
      board.field := f.(players := f.players[i := f.players[i].(joy := NEUTRAL, score := 0, plan := NO_PLAN)]);
      lastInput := lastInput[i := 0];
    }

    // --- Leaving ---------------------------------------------------------------------------

    /** The last human is gone without having said so: the room keeps playing, shots
        gone, until the grace deadline; a finished round gives way to the next. */
    method BeginNoHumanGrace()
      requires Sound() && Humans(seats) == {}
      requires life.graceAt != 0 || life.phase.Dormant? ==> Valid()
      modifies this`seats, this`lastInput, this`life, this`epoch, board
      ensures Valid()
      ensures var asleep := old(life).graceAt != 0 || old(life).phase.Dormant?;
        && (asleep || old(life).phase.Playing? ==>
              seats == old(seats) && lastInput == old(lastInput) && epoch == old(epoch))
        && (asleep ==> life == old(life) && board.field == old(board.field))
        && (!asleep && old(life).phase.Playing? ==>
              life == old(life).(graceAt := now + graceMs) && board.field == NoShotsAtAll(old(board.field)))
        && (!asleep && old(life).phase.Over? ==>
              life == NextRound(old(life).(graceAt := now + graceMs), ZombieSet(old(seats), zombies))
              && epoch == old(epoch) + 1 && BegunAnew(old(seats), State(), Config()))
    {
      hide Chronicle, SeatsOk, FieldSound, Spread, Fresh;
      SeatsSized(seats, lastInput, now);
      SoundIsSane(board.field, baseline, limit, life.phase);
      if life.graceAt != 0 || life.phase.Dormant? {
        return;
      }
      GraceChronicle(epoch, results, life, limit, now + graceMs);
      life := life.(graceAt := now + graceMs);
      ghost var f := board.field;
      board.field := board.field.(shots := seq(SLOTS, _ => NO_SHOT));
      if life.phase.Over? {
        SeatsAcross(seats, lastInput, now, zombies);
        ResetRound();
        FreshSound(board.field, baseline, limit, Actors(old(seats), zombies));
      } else {
        NoShotsKeeps(f, baseline, limit);
      }
    }

    /** What both ways out of a seat do: the seat is freed, its slot given a clean actor. */
    method Vacate(i: nat)
      requires Valid() && i < SLOTS && seats[i].inUse
      modifies this`seats, this`lastInput, board`field
      ensures Sound() && Humans(seats) == old(Humans(seats)) - {i}
      ensures State() == Vacated(old(State()), i)
      ensures old(NoShots(board.field)) ==> NoShots(board.field)
      ensures Since(life, old(board.field), epoch, results)
      ensures old(InPlace()) ==> InPlace()
      ensures old(Orderly()) ==> Orderly()
    {
      hide Chronicle, SeatsOk, FieldSound, Placed;
      SeatsSized(seats, lastInput, now);
      SoundIsSane(board.field, baseline, limit, life.phase);
      ghost var f, was := board.field, seats;
      DepartureShifts(seats, zombies, i, FREE_SEAT);
      SlotResetKeeps(f, i, baseline, limit, life.phase);
      VacatedOk(seats, lastInput, now, i);
      seats := seats[i := FREE_SEAT];
      ResetSlotGameplay(i);
      DepartureCovered(f, board.field, was, zombies, i);
      OverMeans(f, baseline, limit);
    }

    /** Unexpected disconnection. Only the loss of the last human starts the grace. */
    method DropClient(i: nat)
      requires Valid() && i < SLOTS && seats[i].inUse
      modifies this`seats, this`lastInput, this`life, this`epoch, board
      ensures Valid()
      ensures Dropped(old(State()), i, State(), now, Config())
      ensures seats[i] == FREE_SEAT && Since(old(life), old(board.field), old(epoch), old(results))
      ensures seats == old(seats)[i := FREE_SEAT] || seats == RewoundAll(old(seats)[i := FREE_SEAT])
      ensures Spawn.Spacious(baseline) && old(InPlace()) ==> InPlace()
      ensures Spawn.Spacious(baseline) && old(Orderly()) ==> Orderly()
    {
      hide Chronicle, SeatsOk, FieldSound, Spread, Fresh, Spawn.Spacious, Placed, NoShots, SlotReset, ZombieSet;
      SeatsSized(seats, lastInput, now);
      HumanIff(seats, lastInput, now, i);
      var wasHuman := seats[i].handshake;
      Vacate(i);
      ghost var g, left := board.field, seats;
      SoundIsSane(g, baseline, limit, life.phase);
      SeatsSized(seats, lastInput, now);
      var humans := HumanCount(seats);
      assert humans == 0 <==> Humans(seats) == {};
      if wasHuman && humans == 0 {
        BeginNoHumanGrace();
        SkyPlacement(g);
        if old(life).phase.Over? && Spawn.Spacious(baseline) {
          ResetIsOrderly(board.field, baseline, left, zombies);
        }
      }
    }

    /** The last human leaves on purpose: the room goes dormant at once. */
    method DetachVoluntary(i: nat)
      requires Valid() && i < SLOTS && seats[i].handshake
      modifies this`seats, this`lastInput, this`life, this`epoch, board
      ensures Valid()
      ensures Departed(old(State()), i, State(), Config())
      ensures seats[i] == FREE_SEAT && Since(old(life), old(board.field), old(epoch), old(results))
      ensures Spawn.Spacious(baseline) && old(InPlace()) ==> InPlace()
      ensures Spawn.Spacious(baseline) && old(Orderly()) ==> Orderly()
    {
      hide Chronicle, SeatsOk, FieldSound, Spread, Fresh, Spawn.Spacious, Placed, NoShots, SlotReset, ZombieSet;
      SeatsSized(seats, lastInput, now);
      HumanIff(seats, lastInput, now, i);
      Vacate(i);
      SeatsSized(seats, lastInput, now);
      SoundIsSane(board.field, baseline, limit, life.phase);
      var humans := HumanCount(seats);
      assert humans == 0 <==> Humans(seats) == {};
      if humans == 0 {
        EnterDormant();
      }
    }

    // --- Arriving --------------------------------------------------------------------------

    method Accept(configured: bool) returns (slot: Option<nat>)
      requires Valid()
      modifies this`seats, this`lastInput, board`field
      ensures Valid() && Humans(seats) == old(Humans(seats))
      ensures Accepted(old(State()), configured, slot, State(), now, Config())
      ensures Since(life, old(board.field), epoch, results)
      ensures old(InPlace()) ==> InPlace()
      ensures old(Orderly()) ==> Orderly()
    {
      hide Chronicle, SeatsOk, FieldSound, Placed, ZombieSet, SlotReset, IsZombie;
      SeatsSized(seats, lastInput, now);
      SoundIsSane(board.field, baseline, limit, life.phase);
      var replacePending;
      slot, replacePending := AllocClientSlot(seats, zombies);
      if slot.None? || !configured {
        return None;
      }
      var i := slot.value;
      ghost var f, was := board.field, seats;
      if replacePending {
        seats := seats[i := FREE_SEAT];
        ResetSlotGameplay(i);
      }
      seats := seats[i := FREE_SEAT.(inUse := true, connectedAt := now, lastSeen := now)];
      ResetSlotGameplay(i);
      ResetTwice(f, i);
      assert seats == was[i := seats[i]] && lastInput == old(lastInput)[i := 0];
      TakenOk(was, old(lastInput), now, i);
      SlotResetKeeps(f, i, baseline, limit, life.phase);
      SlotResetOccupies(f, i);
      AcceptedKeeps(f, was, zombies, i, seats[i]);
      OverMeans(f, baseline, limit);
      SlotResetLeaves(f, i);
    }

    /** activate_joining_client: nobody joins a board outside a running round. */
    method ActivateJoining(i: nat, keepPosition: bool) returns (spot: Cell)
      requires board.Valid() && i < SLOTS
      modifies board`field
      ensures board.Valid()
      ensures !life.phase.Playing? ==> board.field == old(board.field)
      ensures life.phase.Playing? ==> board.field == Joined(old(board.field), i, spot)
      ensures life.phase.Playing? && keepPosition ==> spot == old(board.field).players[i].at
      ensures life.phase.Playing? && !keepPosition ==> Spawn.GoodSpawn(old(board.field), spot) && InBounds(spot)
    {
      hide Spawn.GoodSpawn;
      spot := board.field.players[i].at;
      if !life.phase.Playing? {
        return;
      }
      if !keepPosition {
        spot := Respot(i);
      }
      board.field := board.field.(players := board.field.players[i := board.field.players[i].(respawnAt := 0)]);
      board.field := board.field.(occupied := board.field.occupied + {i});
    }

    /** The handshake itself: the seat becomes a human's, a dormant room wakes, a
        running grace is called off. */
    method Admit(i: nat)
      requires Valid() && i < SLOTS && seats[i].inUse && !seats[i].handshake
      modifies this`seats, this`lastInput, this`life, this`shifts, board`field
      ensures Valid()
      ensures seats == old(seats)[i := old(seats)[i].(handshake := true)] && lastInput == old(lastInput)
      ensures shifts == old(shifts) + One(old(life).phase.Playing? && ShiftsIn(old(seats), zombies, i))
      ensures life == if old(life).phase.Dormant?
                      then old(life).(phase := Playing, everZombie := ZombieSet(seats, zombies))
                      else old(life).(graceAt := 0)
      ensures !old(life).phase.Dormant? ==> board.field == old(board.field)
      ensures old(life).phase.Dormant? ==>
        Fresh(board.field, baseline, Actors(seats, zombies)) && Spread(board.field, Actors(seats, zombies), SLOTS)
    {
      hide Chronicle, SeatsOk, FieldSound, NonHumans, NoShots, Fresh, Spread, ShiftsIn;
      SeatsSized(seats, lastInput, now);
      if life.phase.Playing? && ShiftsIn(seats, zombies, i) {
        shifts := shifts + 1;
      }
      HelloOk(seats, lastInput, now, i);
      HelloShifts(seats, zombies, i, seats[i].(handshake := true));
      if life.phase.Dormant? {
        DormantMeans(board.field, baseline, limit);
        NobodySeated(seats, lastInput, now);
      }
      seats := seats[i := seats[i].(handshake := true)];
      if life.phase.Dormant? {
        WakeDormant();
        FreshSound(board.field, baseline, limit, Actors(seats, zombies));
        WokenChronicle(epoch, results, old(life), life, limit);
      }
      if life.graceAt != 0 {
        GraceChronicle(epoch, results, life, limit, 0);
        life := life.(graceAt := 0);
      }
    }

    /** HELLO: after the handshake the newcomer's actor comes onto the board, where it
        stands if a zombie stood there, and otherwise where it may be spawned. */
    method HandleHello(i: nat) returns (spot: Cell)
      requires Valid() && i < SLOTS && seats[i].inUse && !seats[i].handshake
      modifies this`seats, this`lastInput, this`life, this`shifts, board`field
      ensures Valid()
      ensures shifts == old(shifts) + One(old(life).phase.Playing? && ShiftsIn(old(seats), zombies, i))
      ensures Greeted(old(State()), i, State(), Config())
      ensures Spawn.Spacious(baseline) && old(InPlace()) ==> InPlace()
      ensures Spawn.Spacious(baseline) && old(Orderly()) && shifts == old(shifts) ==> Orderly()
    {
      hide Chronicle, SeatsOk, FieldSound, Placed, NonHumans, NoShots, Fresh, Spread, ShiftsIn,
           Spawn.GoodSpawn, Spawn.Spacious, Joined, Covered;
      SeatsSized(seats, lastInput, now);
      SoundIsSane(board.field, baseline, limit, life.phase);
      var mask := ComputeZombieMask(seats, zombies);
      var keep := life.phase.Dormant? || (i in mask && OnBoard(board.field, i));
      ghost var before, was, sleeping := State(), seats, life.phase.Dormant?;
      Admit(i);
      ghost var g := board.field;
      SoundIsSane(g, baseline, limit, life.phase);
      spot := ActivateJoining(i, keep);
      if life.phase.Playing? {
        JoinedKeeps(g, i, spot, baseline, limit);
        if sleeping {
          JoinedAlready(g, i, baseline, seats, zombies);
        } else {
          assert PutOnBoard(before, i, board.field, spot, Config());
          JoinedInPlace(g, i, spot, baseline, keep);
          JoinedCovers(g, was, zombies, i, spot);
        }
      }
    }

    // --- Packets ---------------------------------------------------------------------------

    method HandleDelta(i: nat, seqno: byte, joy: byte, round: byte)
      requires Valid() && i < SLOTS && seats[i].handshake && !seats[i].leaving
      modifies this`seats, this`lastInput
      ensures Valid() && Humans(seats) == old(Humans(seats))
      ensures Played(old(State()), i, Delta(seqno, joy, round), State(), now, Config())
      ensures old(Orderly()) ==> Orderly()
    {
      hide Chronicle, FieldSound, Placed, ZombieSet, IQ.VerdictOn, IQ.Accepted;
      if round != life.round {
        return;
      }
      if !life.phase.Playing? {
        return;
      }
      ghost var was := seats;
      IQ.StaleIsIgnored(seats[i].intake, seqno, joy, now + lagMs);
      if IQ.VerdictOn(seats[i].intake, seqno, joy).Stale? {
        return;
      }
      seats := seats[i := seats[i].(intake := IQ.Accepted(seats[i].intake, seqno, joy, now + lagMs))];
      lastInput := lastInput[i := now];
      SameMasks(was, seats, zombies);
    }

    method HandleRespawn(i: nat, round: byte) returns (spot: Cell)
      requires Valid() && i < SLOTS && seats[i].handshake && !seats[i].leaving
      modifies board`field
      ensures Valid()
      ensures Played(old(State()), i, Respawn(round), State(), now, Config())
      ensures Spawn.Spacious(baseline) && old(InPlace()) ==> InPlace()
      ensures Spawn.Spacious(baseline) && old(Orderly()) ==> Orderly()
    {
      hide Chronicle, SeatsOk, FieldSound, Placed, NoShots, ZombieSet, Spawn.GoodSpawn, Spawn.Spacious;
      SeatsSized(seats, lastInput, now);
      SoundIsSane(board.field, baseline, limit, life.phase);
      ghost var f := board.field;
      spot := Cell(0, 0);
      ghost var was := State();
      if life.phase.Playing? && round == life.round {
        spot := Respot(i);
        RelocatedKeeps(f, i, spot, baseline, limit);
        assert MovedTo(f, i, board.field, spot);
      }
      BoardOnly(was, i, Respawn(round), State(), now, Config());
    }

    method HandleBrick(i: nat, x: byte, y: byte, round: byte)
      requires Valid() && i < SLOTS && seats[i].handshake && !seats[i].leaving
      modifies board
      ensures Valid()
      ensures Played(old(State()), i, BrickDelta(x, y, round), State(), now, Config())
      ensures old(InPlace()) ==> InPlace()
      ensures old(Orderly()) ==> Orderly()
    {
      hide Chronicle, SeatsOk, FieldSound, Placed, NoShots, ZombieSet, Break;
      SeatsSized(seats, lastInput, now);
      SoundIsSane(board.field, baseline, limit, life.phase);
      ghost var was := State();
      if life.phase.Playing? && round == life.round && x < 20 && y < 19 && !OuterWall(Cell(x, y)) {
        BrokenSound(board.field, Cell(x, y), baseline, limit);
        board.BreakBrick(Cell(x, y));
      }
      BoardOnly(was, i, BrickDelta(x, y, round), State(), now, Config());
    }

    /** One decoded packet. Before HELLO nothing else is heard; after LEAVE_ROOM
        nothing more counts; between rounds nobody changes the game; and the seat's
        own packets touch no other seat. */
    method HandlePacket(i: nat, p: Packet)
      requires Valid() && i < SLOTS && seats[i].inUse
      modifies this`seats, this`lastInput, this`life, this`shifts, board
      ensures Valid() && seats[i].inUse
      ensures Handled(old(State()), i, p, State(), now, Config())
      ensures Since(old(life), old(board.field), old(epoch), old(results)) && old(shifts) <= shifts
      ensures Spawn.Spacious(baseline) && old(InPlace()) ==> InPlace()
      ensures Spawn.Spacious(baseline) && old(Orderly()) && shifts == old(shifts) ==> Orderly()
    {
      hide Chronicle, SeatsOk, FieldSound, Placed, NoShots, ZombieSet, NonHumans, Fresh, Spread, ShiftsIn, Break,
           IQ.VerdictOn, IQ.Accepted, Spawn.GoodSpawn, Spawn.Spacious;
      SeatsSized(seats, lastInput, now);
      SoundIsSane(board.field, baseline, limit, life.phase);
      PendingOk(seats, lastInput, now, i);
      if !seats[i].handshake {
        if GoodHello(p) {
          var _ := HandleHello(i);
        } else if p.Hello? {
          FailSend(i);
        }
        return;
      }
      if p.LeaveRoom? {
        if !seats[i].leaving {
          AskLeave(i);
        }
        return;
      }
      if seats[i].leaving {
        return;
      }
      match p {
        case Delta(seqno, joy, round) => HandleDelta(i, seqno, joy, round);
        case Respawn(round) => var c := HandleRespawn(i, round);
        case BrickDelta(x, y, round) => HandleBrick(i, x, y, round);
        case _ => BoardOnly(State(), i, p, State(), now, Config());
      }
    }

    method FailSend(i: nat)
      requires Valid() && i < SLOTS && seats[i].inUse
      modifies this`seats
      ensures Valid() && Humans(seats) == old(Humans(seats))
      ensures seats == old(seats)[i := old(seats)[i].(txFailed := true)]
      ensures old(Orderly()) ==> Orderly()
    {
      hide Chronicle, FieldSound, Placed, ZombieSet;
      seats := seats[i := seats[i].(txFailed := true)];
      SameMasks(old(seats), seats, zombies);
    }

    method AskLeave(i: nat)
      requires Valid() && i < SLOTS && seats[i].handshake && !seats[i].leaving
      modifies this`seats
      ensures Valid() && Humans(seats) == old(Humans(seats))
      ensures State() == old(State()).(seats := old(seats)[i := old(seats)[i].(leaving := true)])
      ensures old(Orderly()) ==> Orderly()
    {
      hide Chronicle, FieldSound, Placed, ZombieSet;
      seats := seats[i := seats[i].(leaving := true)];
      SameMasks(old(seats), seats, zombies);
    }

    /** The clock is read again. */
    method ReadClock(later: nat)
      requires Valid() && now <= later
      modifies this`now
      ensures Valid() && now == later && (old(Orderly()) ==> Orderly())
    {
      hide Chronicle, FieldSound, Placed, ZombieSet;
      now := later;
    }

    /** A readable socket: the packets of one read, and then, at once, the departure
        that they asked for or the failure that they met. */
    method Receive(i: nat, packets: seq<Packet>, failed: bool) returns (ghost heard: seq<Snap>)
      requires Valid() && i < SLOTS && seats[i].inUse
      modifies this`seats, this`lastInput, this`life, this`epoch, this`shifts, board
      ensures Valid() && Heard(old(State()), i, packets, failed, heard, State(), now, Config())
      ensures Since(old(life), old(board.field), old(epoch), old(results)) && old(shifts) <= shifts
      ensures Spawn.Spacious(baseline) && old(InPlace()) ==> InPlace()
      ensures Spawn.Spacious(baseline) && old(Orderly()) && shifts == old(shifts) ==> Orderly()
    {
      hide Chronicle, SeatsOk, FieldSound, Placed, NoShots, ZombieSet, NonHumans, ShiftsIn, FrozenBetween,
           Handled, HeardUpTo, Departed, Dropped, Spawn.Spacious;
      SeatsSized(seats, lastInput, now);
      SoundIsSane(board.field, baseline, limit, life.phase);
      Hear(i);
      heard := [State()];
      FrozenStart(life, board.field, epoch);
      assert HeardUpTo(i, packets, heard, 0, now, Config()) by { NothingHeard(i, packets, State(), now, Config()); }
      var k := 0;
      while k < |packets|
        invariant 0 <= k <= |packets| && Valid() && Sized(seats) && seats[i].inUse && old(shifts) <= shifts
        invariant |heard| == k + 1 && heard[0] == old(State()).(seats := old(seats)[i := old(seats)[i].(lastSeen := now)])
        invariant heard[k] == State() && HeardUpTo(i, packets, heard, k, now, Config())
        invariant Since(old(life), old(board.field), old(epoch), old(results)) && Sane(board.field)
        invariant Spawn.Spacious(baseline) && old(InPlace()) ==> InPlace()
        invariant Spawn.Spacious(baseline) && old(Orderly()) && shifts == old(shifts) ==> Orderly()
      {
        ghost var l, f, e := life, board.field, epoch;
        HandlePacket(i, packets[k]);
        FrozenChain(old(life), old(board.field), old(epoch), l, f, e, life, board.field, epoch);
        SeatsSized(seats, lastInput, now);
        SoundIsSane(board.field, baseline, limit, life.phase);
        HeardMore(i, packets, heard, k, State(), now, Config());
        heard := heard + [State()];
        k := k + 1;
      }
      ghost var l, f, e := life, board.field, epoch;
      Conclude(i, failed);
      SoundIsSane(board.field, baseline, limit, life.phase);
      FrozenChain(old(life), old(board.field), old(epoch), l, f, e, life, board.field, epoch);
    }

    /** The end of a pass over one socket: a departure that was asked for comes first. */
    method Conclude(i: nat, failed: bool)
      requires Valid() && i < SLOTS && seats[i].inUse
      modifies this`seats, this`lastInput, this`life, this`epoch, board
      ensures Valid() && !seats[i].leaving
      ensures if old(seats)[i].leaving then Departed(old(State()), i, State(), Config())
              else if failed || old(seats)[i].txFailed then Dropped(old(State()), i, State(), now, Config())
              else State() == old(State())
      ensures Since(old(life), old(board.field), old(epoch), old(results))
      ensures Spawn.Spacious(baseline) && old(InPlace()) ==> InPlace()
      ensures Spawn.Spacious(baseline) && old(Orderly()) ==> Orderly()
    {
      hide Chronicle, SeatsOk, FieldSound, Placed, NoShots, ZombieSet, NonHumans, Fresh, Spread, SlotReset,
           FrozenBetween, NextRound, Parked, Departed, Dropped, Spawn.Spacious;
      SeatsSized(seats, lastInput, now);
      SoundIsSane(board.field, baseline, limit, life.phase);
      PendingOk(seats, lastInput, now, i);
      FrozenStart(life, board.field, epoch);
      if seats[i].leaving {
        DetachVoluntary(i);
      } else if failed || seats[i].txFailed {
        DropClient(i);
      }
    }

    method Hear(i: nat)
      requires Valid() && i < SLOTS && seats[i].inUse
      modifies this`seats
      ensures Valid() && seats == old(seats)[i := old(seats)[i].(lastSeen := now)]
      ensures old(Orderly()) ==> Orderly()
    {
      hide Chronicle, FieldSound, Placed, ZombieSet;
      seats := seats[i := seats[i].(lastSeen := now)];
      SameMasks(old(seats), seats, zombies);
    }

    // --- Timers -------------------------------------------------------------------------------

    /** Every connection whose time is up, or whose socket failed, is dropped, slot by slot. */
    method ReapTimedOut() returns (ghost trail: seq<Snap>)
      requires Valid()
      modifies this`seats, this`lastInput, this`life, this`epoch, board
      ensures Valid() && Sized(seats)
      ensures |trail| == SLOTS + 1 && trail[0] == old(State()) && trail[SLOTS] == State()
      ensures ReapedUpTo(trail, SLOTS, now, Config())
      ensures forall i :: 0 <= i < SLOTS ==>
        if Forfeit(old(seats)[i], now) then seats[i] == FREE_SEAT else SameSeat(old(seats)[i], seats[i])
      ensures Since(old(life), old(board.field), old(epoch), old(results))
      ensures Spawn.Spacious(baseline) && old(InPlace()) ==> InPlace()
      ensures Spawn.Spacious(baseline) && old(Orderly()) ==> Orderly()
    {
      hide Chronicle, SeatsOk, FieldSound, Placed, NoShots, ZombieSet, NonHumans, FrozenBetween, Spawn.Spacious,
           Alive, LifeOk, Dropped, ReapedUpTo, Forfeit, SameSeat;
      SeatsSized(seats, lastInput, now);
      SoundIsSane(board.field, baseline, limit, life.phase);
      FrozenStart(life, board.field, epoch);
      trail := [State()];
      assert ReapedUpTo(trail, 0, now, Config()) by { NothingReaped(State(), now, Config()); }
      var i := 0;
      while i < SLOTS
        invariant 0 <= i <= SLOTS && Valid() && Sized(seats) && Sane(board.field)
        invariant |trail| == i + 1 && trail[0] == old(State()) && trail[i] == State() && Proper(State())
        invariant ReapedUpTo(trail, i, now, Config())
        invariant Since(old(life), old(board.field), old(epoch), old(results))
        invariant Spawn.Spacious(baseline) && old(InPlace()) ==> InPlace()
        invariant Spawn.Spacious(baseline) && old(Orderly()) ==> Orderly()
      {
        ghost var l, f, e := life, board.field, epoch;
        if seats[i].inUse && !Alive(seats[i], now) {
          DropClient(i);
          SeatsSized(seats, lastInput, now);
          SoundIsSane(board.field, baseline, limit, life.phase);
          FrozenChain(old(life), old(board.field), old(epoch), l, f, e, life, board.field, epoch);
        }
        ReapedMore(trail, i, State(), now, Config());
        trail := trail + [State()];
        i := i + 1;
      }
      ReapedExactly(trail, SLOTS, now, Config());
    }

    /** The intermission is over: the next round, for whoever is here. */
    method EndIntermission()
      requires Valid() && life.phase.Over?
      modifies this`seats, this`lastInput, this`life, this`epoch, board
      ensures Valid() && epoch == old(epoch) + 1 && BegunAnew(old(seats), State(), Config())
      ensures life == NextRound(old(life), ZombieSet(old(seats), zombies))
      ensures Spawn.Spacious(baseline) ==> Orderly()
    {
      hide Chronicle, SeatsOk, FieldSound, Placed, NoShots, ZombieSet, NonHumans, Fresh, Spread, Rewound, Spawn.Spacious;
      SeatsSized(seats, lastInput, now);
      SoundIsSane(board.field, baseline, limit, life.phase);
      SeatsAcross(seats, lastInput, now, zombies);
      ghost var was := seats;
      ResetRound();
      FreshSound(board.field, baseline, limit, Actors(was, zombies));
      SeatsSized(seats, lastInput, now);
      SoundIsSane(board.field, baseline, limit, Playing);
      if Spawn.Spacious(baseline) {
        ResetIsOrderly(board.field, baseline, was, zombies);
      }
    }

    /** service_room_timers: after it no deadline that has passed is still armed. */
    method ServiceTimers() returns (ghost trail: seq<Snap>)
      requires Valid()
      modifies this`seats, this`lastInput, this`life, this`epoch, board
      ensures Valid()
      ensures (life.graceAt != 0 ==> now < life.graceAt) && (life.phase.Over? ==> now < life.intermissionAt)
      ensures Timed(old(State()), trail, State(), now, Config())
      ensures Since(old(life), old(board.field), old(epoch), old(results))
      ensures Spawn.Spacious(baseline) && old(InPlace()) ==> InPlace()
      ensures Spawn.Spacious(baseline) && old(Orderly()) ==> Orderly()
    {
      hide Chronicle, SeatsOk, FieldSound, Placed, NoShots, ZombieSet, NonHumans, Fresh, Spread, Rewound, Alive,
           ReapedUpTo, Spawn.Spacious;
      trail := ReapTimedOut();
      ghost var l, f, e := life, board.field, epoch;
      SoundIsSane(board.field, baseline, limit, life.phase);
      if life.graceAt != 0 && now >= life.graceAt {
        EnterDormant();
      }
      if life.phase.Over? && now >= life.intermissionAt {
        EndIntermission();
      }
      SeatsSized(seats, lastInput, now);
      SoundIsSane(board.field, baseline, limit, life.phase);
      FrozenChain(old(life), old(board.field), old(epoch), l, f, e, life, board.field, epoch);
    }

    // --- The tick -------------------------------------------------------------------------------

    /** apply_queued_input: at most one input of each connection, in order. */
    method ApplyQueuedInput()
      requires board.Valid() && Sized(seats)
      modifies this`seats, board`field
      ensures board.Valid() && Sized(seats)
      ensures seats == Drained(old(seats), now) && board.field == Steered(old(board.field), old(seats), now)
    {
      hide IQ.Ticked, IQ.TickedJoy;
      ghost var was, f := seats, board.field;
      var i := 0;
      while i < SLOTS
        invariant 0 <= i <= SLOTS && board.Valid() && Sized(seats)
        invariant forall j :: 0 <= j < SLOTS ==> seats[j] == if j < i then Drained(was, now)[j] else was[j]
        invariant board.field == f.(players := board.field.players)
        invariant forall j :: 0 <= j < SLOTS ==>
          board.field.players[j] == if j < i then Steered(f, was, now).players[j] else f.players[j]
      {
        if seats[i].inUse {
          var joy := IQ.TickedJoy(seats[i].intake, now);
          board.field := board.field.(players := board.field.players[i := board.field.players[i].(joy := joy)]);
          seats := seats[i := seats[i].(intake := IQ.Ticked(seats[i].intake, now))];
        }
        i := i + 1;
      }
      assert seats == Drained(was, now);
      assert board.field.players == Steered(f, was, now).players;
    }

    /** The clause about the recent input of an unauthenticated slot never applies. */
    method HumanMask(mask: set<nat>) returns (humans: set<nat>)
      requires SeatsOk(seats, lastInput, now) && mask == ZombieSet(seats, zombies)
      ensures humans == Humans(seats)
    {
      humans := {};
      var i := 0;
      while i < SLOTS
        invariant 0 <= i <= SLOTS && humans == set j: nat | j < i && Human(seats, j)
      {
        if i !in mask {
          if seats[i].inUse && seats[i].handshake {
            humans := humans + {i};
          } else if lastInput[i] != 0 && now - lastInput[i] < CLIENT_TIMEOUT_MS {
            humans := humans + {i};
          }
        }
        i := i + 1;
      }
    }

    /** The fallen whose time has come return to the board. */
    method FinalizeRespawns()
      requires board.Valid() && InField(board.field)
      modifies board`field
      ensures board.Valid() && Readied(old(board.field), old(board.field).occupied, now, board.field)
      ensures Spawn.Spacious(board.field.bricks) && Placed(old(board.field)) ==> Placed(board.field)
    {
      hide Spawn.GoodSpawn, Spawn.Spacious, Placed;
      ghost var f := board.field;
      var i := 0;
      while i < SLOTS
        invariant 0 <= i <= SLOTS && board.Valid()
        invariant board.field == f.(players := board.field.players)
        invariant forall j :: 0 <= j < i ==> RebornAs(f.players[j], board.field.players[j], now)
        invariant forall j: nat :: j < i ==> Respawned(f, board.field, j, now)
        invariant forall j :: i <= j < SLOTS ==> board.field.players[j] == f.players[j]
        invariant Spawn.Spacious(f.bricks) && Placed(f) ==> Placed(board.field)
      {
        hide Respawned;
        ghost var g := board.field;
        if board.field.players[i].respawnAt != 0 && now >= board.field.players[i].respawnAt {
          var c := Respot(i);
          var p := board.field.players[i].(respawnAt := 0, joy := NEUTRAL, plan := NO_PLAN);
          board.field := board.field.(players := board.field.players[i := p]);
          RebornPlaced(g, i, c);
          assert board.field == Reborn(g, i, c);
        }
        RespawnedSoFar(f, g, board.field, i, now);
        i := i + 1;
      }
    }

    method Whims() returns (whims: seq<Whim>)
      ensures |whims| == SLOTS
    {
      whims := [];
      while |whims| < SLOTS
        invariant |whims| <= SLOTS
      {
        var whim: Whim := *;
        whims := whims + [whim];
      }
    }

    /** freeze_match_result */
    method FreezeMatch(winner: nat)
      requires Sized(seats) && Sane(board.field) && winner < SLOTS
      modifies this`life
      ensures var mask := ZombieSet(seats, zombies);
        life == old(life).(everZombie := old(life).everZombie + mask,
          verdict := FrozenVerdict(old(life), board.field, mask, winner, limit))
    {
      var mask := ComputeZombieMask(seats, zombies);
      life := life.(everZombie := life.everZombie + mask);
      var scores := seq(SLOTS, i requires 0 <= i < SLOTS && Sane(board.field) reads board => board.field.players[i].score);
      life := life.(verdict := Match(life.round, winner, board.field.occupied, mask, limit, scores, life.everZombie));
      assert scores == Scores(board.field);
    }

    /** The room's share of the end of a round; the board has already settled. */
    method EnterRoundOver(winner: nat)
      requires Configured() && SeatsOk(seats, lastInput, now) && board.Valid() && life.phase.Playing?
      requires Chronicle(epoch, results, life, limit) && EndedInv(board.field, baseline, limit)
      requires LifeOk(life, Humans(seats)) && Humans(seats) != {}
      requires winner < SLOTS && board.field.players[winner].score == limit
      modifies this`seats, this`life, this`results
      ensures Valid() && seats == Silenced(old(seats))
      ensures life == Finished(old(life), board.field, ZombieSet(old(seats), zombies), winner, limit, now + intermissionMs)
      ensures life.phase.Over? && results == old(results) + [Ending(epoch, life.verdict)]
    {
      hide Chronicle, SeatsOk, EndedInv, FieldSound, NoShots, ZombieSet;
      SeatsSized(seats, lastInput, now);
      ghost var was := seats;
      SeatsAcross(was, lastInput, now, zombies);
      EndedIsSound(board.field, baseline, limit);
      EndedChronicle(epoch, results, life, board.field, ZombieSet(seats, zombies), winner, limit, now + intermissionMs, baseline);
      life := life.(phase := Over);
      FreezeMatch(winner);
      life := life.(intermissionAt := now + intermissionMs);
      results := results + [Ending(epoch, life.verdict)];
      var i := 0;
      while i < SLOTS
        invariant 0 <= i <= SLOTS && Sized(seats)
        invariant life == Finished(old(life), board.field, ZombieSet(was, zombies), winner, limit, now + intermissionMs)
        invariant results == old(results) + [Ending(epoch, life.verdict)]
        invariant forall j :: 0 <= j < SLOTS ==> seats[j] == if j < i then Silenced(was)[j] else was[j]
      {
        seats := seats[i := seats[i].(intake := seats[i].intake.(entries := []))];
        i := i + 1;
      }
      assert seats == Silenced(was);
    }

    /** step_players, after the inputs have been applied. */
    method StepPlayers() returns (ghost ready: Field, ghost turn: Turn, ended: bool)
      requires Valid() && life.phase.Playing?
      modifies board
      ensures board.Valid() && Sane(ready) && TurnOk(turn) && ready.bricks <= baseline
      ensures Readied(old(board.field), Actors(seats, zombies), now, ready)
      ensures TurnOf(State(), turn, now, Config())
      ensures Result(board.field, ended) == Combat(ready, turn) && (ended ==> board.Won(limit))
      ensures ResultInv(Combat(ready, turn), baseline, limit)
      ensures board.field.occupied == Actors(seats, zombies)
      ensures Spawn.Spacious(baseline) && Placed(Occupying(old(board.field), Actors(seats, zombies))) ==> Placed(board.field)
    {
      hide Chronicle, SeatsOk, FieldInv, EndedInv, Placed, ZombieSet, NonHumans, Spawn.Spacious, Combat, Accounted;
      SeatsSized(seats, lastInput, now);
      ghost var f := board.field;
      PlayingIsFieldInv(f, baseline, limit);
      SoundIsSane(f, baseline, limit, Playing);
      var mask := ComputeZombieMask(seats, zombies);
      var humans := HumanMask(mask);
      board.field := board.field.(occupied := humans + mask);
      FinalizeRespawns();
      ready := board.field;
      ReadyAgain(f, humans + mask, now, ready);
      var whims := Whims();
      var stale := StaleSlots(seats, lastInput, now, INPUT_STALE_MS);
      turn := Turn(mask, humans, stale, whims, now, limit);
      ReadiedKeeps(f, humans + mask, now, ready, baseline, limit);
      CombatKeeps(ready, turn, baseline);
      ended := board.Fight(Turn(mask, humans, stale, whims, now, limit));
      if Spawn.Spacious(baseline) {
        Spawn.StaysSpacious(baseline, ready.bricks);
      }
    }

    /** tick_room: nothing moves unless a round is running. With no human seated
        nobody shoots, scores or falls, and the round does not end. The actors stay on
        distinct open cells, provided that those who come onto the board fit there. */
    method Tick() returns (echoed: Option<Cell>, ghost ready: Field, ghost turn: Turn)
      requires Valid()
      modifies this`seats, this`life, this`results, board
      ensures Valid() && Sane(ready)
      ensures !old(life).phase.Playing? ==>
        State() == old(State()) && results == old(results)
      ensures old(life).phase.Playing? ==> EchoDue(old(board.echoes), echoed) && (echoed.Some? ==> echoed.value !in old(board.field).bricks)
      ensures old(life).phase.Playing? ==> results == old(results) + (if life.phase.Over? then [Ending(epoch, life.verdict)] else [])
      ensures old(life).phase.Playing? ==>
        Ticked(old(State()), State(), ready, turn, now, Config())
      ensures old(life).phase.Playing? && Humans(seats) == {} ==> life.phase.Playing? && Peaceful(ready, board.field)
      ensures Since(old(life), old(board.field), old(epoch), old(results))
      ensures Spawn.Spacious(baseline) && old(InPlace()) && NewcomersFit(old(board.field), Actors(old(seats), zombies)) ==>
        InPlace()
      ensures Spawn.Spacious(baseline) && old(Orderly()) ==> Orderly()
    {
      hide Chronicle, SeatsOk, FieldSound, Placed, NoShots, ZombieSet, NonHumans, Spawn.Spacious, Ticked, Silenced, Finished;
      SeatsSized(seats, lastInput, now);
      SoundIsSane(board.field, baseline, limit, life.phase);
      FrozenStart(life, board.field, epoch);
      echoed, ready, turn := None, board.field, Turn({}, {}, {}, [], now, limit);
      if life.phase.Playing? {
        echoed, ready, turn := PlayTick();
      }
    }

    method PlayTick() returns (echoed: Option<Cell>, ghost ready: Field, ghost turn: Turn)
      requires Valid() && life.phase.Playing?
      modifies this`seats, this`life, this`results, board
      ensures Valid() && Sane(ready) && Sized(seats) && Sane(board.field)
      ensures EchoDue(old(board.echoes), echoed) && (echoed.Some? ==> echoed.value !in old(board.field).bricks)
      ensures Ticked(old(State()), State(), ready, turn, now, Config())
      ensures results == old(results) + (if life.phase.Over? then [Ending(epoch, life.verdict)] else [])
      ensures Humans(seats) == old(Humans(seats)) && !life.phase.Dormant? && old(results) <= results
      ensures Humans(seats) == {} ==> life.phase.Playing? && Peaceful(ready, board.field)
      ensures Spawn.Spacious(baseline) && Placed(old(board.field)) && NewcomersFit(old(board.field), Actors(old(seats), zombies)) ==>
        InPlace()
      ensures Covered(board.field, seats, zombies)
    {
      hide Chronicle, SeatsOk, FieldSound, Placed, NoShots, ZombieSet, NonHumans, Spawn.Spacious, Combat, Silenced,
           EndedInv, FieldInv, Deserted, Peaceful, Readied, Steered, Finished, Ticked, TurnOf,
           NewcomersFit, StaleSlots, Drained;
      SeatsSized(seats, lastInput, now);
      SoundIsSane(board.field, baseline, limit, life.phase);
      ghost var before, f, was := State(), board.field, seats;
      PlayingIsFieldInv(f, baseline, limit);
      echoed := board.FlushEcho();
      ApplyQueuedInput();
      DrainedOk(was, lastInput, now, zombies);
      SteeredKeeps(f, was, now, baseline, limit);
      PlayingIsFieldInv(board.field, baseline, limit);
      var ended;
      ready, turn, ended := StepPlayers();
      SameTurn(before, State(), turn, now, Config());
      if Humans(seats) == {} {
        Undisturbed(f, ready, was, lastInput, now, baseline, turn, Actors(was, zombies));
      }
      NewcomersPlaced(f, was, now, Actors(was, zombies));
      if ended {
        SeatsAcross(seats, lastInput, now, zombies);
        EnterRoundOver(board.winner);
        TickEnded(before, State(), board.winner, ready, turn, now, Config());
      } else {
        PlayingIsFieldInv(board.field, baseline, limit);
        var mask := ComputeZombieMask(seats, zombies);
        ZombiesChronicle(epoch, results, life, limit, life.everZombie + mask);
        life := life.(everZombie := life.everZombie + mask);
        TickWentOn(before, State(), ready, turn, now, Config());
      }
    }

    // --- Runs -----------------------------------------------------------------------------------

    method Handle(e: Event)
      requires Valid()
      modifies this`seats, this`lastInput, this`life, this`epoch, this`results, this`shifts, board
      ensures Valid() && old(shifts) <= shifts
      ensures Happened(old(State()), e, State(), now, Config())
      ensures Since(old(life), old(board.field), old(epoch), old(results))
      ensures Spawn.Spacious(baseline) && old(Orderly()) && shifts == old(shifts) ==> Orderly()
    {
      hide Chronicle, SeatsOk, FieldSound, Placed, NoShots, ZombieSet, NonHumans, FrozenBetween, NewcomersFit, Peaceful,
           Accepted, Heard, Timed, Ticked, Spawn.Spacious;
      SeatsSized(seats, lastInput, now);
      SoundIsSane(board.field, baseline, limit, life.phase);
      FrozenStart(life, board.field, epoch);
      match e {
        case Connect(configured) =>
          var slot := Accept(configured);
        case Readable(i, packets, failed) =>
          if i < SLOTS && seats[i].inUse {
            ghost var heard := Receive(i, packets, failed);
          }
        case SendFails(i) =>
          if i < SLOTS && seats[i].inUse {
            FailSend(i);
          }
        case Timers =>
          ghost var trail := ServiceTimers();
        case TickDue =>
          var _, ready, turn := Tick();
      }
    }

    /** Every run of the room, whatever happens in it and however long each thing takes:
        each event does what `Effects.Happened` says; the lifecycle and the board keep
        their invariants; no round ends twice and no verdict changes; and as long as no
        HELLO moves a zombie to another slot, the actors stand on distinct open cells. */
    method Serve(events: seq<(nat, Event)>) returns (ghost run: seq<Snap>, ghost times: seq<nat>)
      requires Valid()
      modifies this, board
      ensures Valid() && old(shifts) <= shifts
      ensures History(run, events, times, Config()) && run[0] == old(State()) && run[|events|] == State()
      ensures times != [] ==> times[0] == old(now) + events[0].0
      ensures Since(old(life), old(board.field), old(epoch), old(results))
      ensures Spawn.Spacious(baseline) && old(Orderly()) && shifts == old(shifts) ==> Orderly()
    {
      hide Chronicle, SeatsOk, FieldSound, Placed, NoShots, ZombieSet, NonHumans, FrozenBetween, LifeOk, AtRest, Happened,
           History, Spawn.Spacious;
      SeatsSized(seats, lastInput, now);
      SoundIsSane(board.field, baseline, limit, life.phase);
      FrozenStart(life, board.field, epoch);
      Resting(State(), results, Config());
      run, times := [State()], [];
      assert History(run, events[..0], times, Config()) by { NothingYet(State(), events[..0], Config()); }
      var k := 0;
      while k < |events|
        invariant 0 <= k <= |events| && Valid() && Sized(seats) && Sane(board.field) && old(shifts) <= shifts
        invariant |run| == k + 1 && |times| == k && run[0] == old(State()) && run[k] == State()
        invariant History(run, events[..k], times, Config())
        invariant if k == 0 then now == old(now) else times[k - 1] == now && times[0] == old(now) + events[0].0
        invariant Since(old(life), old(board.field), old(epoch), old(results))
        invariant Spawn.Spacious(baseline) && old(Orderly()) && shifts == old(shifts) ==> Orderly()
      {
        ReadClock(now + events[k].0);
        ghost var l, f, e := life, board.field, epoch;
        Handle(events[k].1);
        FrozenChain(old(life), old(board.field), old(epoch), l, f, e, life, board.field, epoch);
        SeatsSized(seats, lastInput, now);
        SoundIsSane(board.field, baseline, limit, life.phase);
        Resting(State(), results, Config());
        HistoryMore(run, events[..k], times, State(), events[k], now, Config());
        assert events[..k] + [events[k]] == events[..k + 1];
        run, times := run + [State()], times + [now];
        k := k + 1;
      }
      assert events[..k] == events;
    }
  }

  /** On an empty board every spot is as good after the next one has been chosen. */
  lemma SpotsKept(f: Field, g: Field, n: nat)
    requires Sane(f) && Sane(g) && n < SLOTS && f.occupied == {} && g.occupied == {} && f.bricks == g.bricks
    requires forall j :: 0 <= j < n ==> g.players[j] == f.players[j] && Spawn.GoodSpawn(f, f.players[j].at)
    requires Spawn.GoodSpawn(f, g.players[n].at)
    ensures forall j :: 0 <= j <= n ==> Spawn.GoodSpawn(g, g.players[j].at)
  {
    hide Spawn.GoodSpawn;
    forall j | 0 <= j <= n
      ensures Spawn.GoodSpawn(g, g.players[j].at)
    {
      Spawn.SameSpawn(f, g, g.players[j].at);
    }
  }

  lemma Resting(s: Snap, results: seq<Ending>, r: Rules)
    requires Proper(s) && RulesOk(r) && FieldSound(s.field, r.baseline, r.limit, s.life.phase)
    requires LifeOk(s.life, Humans(s.seats)) && Chronicle(s.epoch, results, s.life, r.limit)
    ensures AtRest(s, r)
  {
  }

  lemma NothingYet(s: Snap, events: seq<(nat, Event)>, r: Rules)
    requires AtRest(s, r) && events == []
    ensures History([s], events, [], r)
  {
  }

  lemma RelocatedKeeps(f: Field, i: nat, c: Cell, baseline: set<Cell>, limit: nat)
    requires FieldSound(f, baseline, limit, Playing) && i < SLOTS && InBounds(c) && Spawn.GoodSpawn(f, c)
    ensures FieldSound(Relocated(f, i, c), baseline, limit, Playing)
    ensures NoShots(f) ==> NoShots(Relocated(f, i, c))
    ensures Spawn.Spacious(baseline) && Placed(f) ==> Placed(Relocated(f, i, c))
    ensures Relocated(f, i, c).occupied == f.occupied
  {
    var g := Relocated(f, i, c);
    assert forall j: nat :: OnBoard(g, j) == OnBoard(f, j);
    if Spawn.Spacious(baseline) && Placed(f) {
      Spawn.StaysSpacious(baseline, f.bricks);
      Spawn.SpaciousHasSpawn(f);
      assert Spawn.Free(f, c);
      forall j: nat | j != i && OnBoard(f, j)
        ensures f.players[j].at != c
      {
        assert !Stands(f, j, c);
      }
    }
  }

  lemma BrokenSound(f: Field, c: Cell, baseline: set<Cell>, limit: nat)
    requires FieldSound(f, baseline, limit, Playing)
    ensures FieldSound(Break(f, c), baseline, limit, Playing)
    ensures NoShots(f) ==> NoShots(Break(f, c))
    ensures Placed(f) ==> Placed(Break(f, c))
    ensures Break(f, c).occupied == f.occupied
  {
    BreakKeeps(f, c, baseline);
  }

  lemma PendingOk(seats: seq<Seat>, lastInput: seq<nat>, now: nat, i: nat)
    requires SeatsOk(seats, lastInput, now) && i < SLOTS
    ensures seats[i].leaving ==> seats[i].handshake
    ensures seats[i].handshake ==> seats[i].inUse
    ensures !seats[i].inUse ==> seats[i] == FREE_SEAT
  {
  }

  /** A packet that is neither an input nor a farewell touches the board at most. */
  lemma BoardOnly(s: Snap, i: nat, p: Packet, t: Snap, now: nat, r: Rules)
    requires Proper(s) && i < SLOTS && !s.seats[i].leaving && !p.LeaveRoom? && !p.Delta? && t == s.(field := t.field)
    requires if Relocates(p, s.life) then exists c: Cell :: MovedTo(s.field, i, t.field, c)
             else t.field == Granted(s.field, p, s.life)
    ensures Played(s, i, p, t, now, r)
  {
    assert s.seats[i := s.seats[i]] == s.seats;
  }

  lemma NothingHeard(i: nat, packets: seq<Packet>, s: Snap, now: nat, r: Rules)
    requires i < SLOTS && Proper(s)
    ensures HeardUpTo(i, packets, [s], 0, now, r)
  {
  }

  lemma NothingReaped(s: Snap, now: nat, r: Rules)
    requires Proper(s)
    ensures ReapedUpTo([s], 0, now, r)
  {
  }

  lemma ReadyAgain(f: Field, occupied: set<nat>, now: nat, g: Field)
    requires Sane(f) && Readied(Occupying(f, occupied), occupied, now, g)
    ensures Readied(f, occupied, now, g)
  {
  }

  lemma NewcomersPlaced(f: Field, seats: seq<Seat>, now: nat, occupied: set<nat>)
    requires Sane(f) && Sized(seats)
    ensures Placed(f) && NewcomersFit(f, occupied) ==> Placed(Occupying(Steered(f, seats, now), occupied))
  {
    hide Placed, NewcomersFit, Steered;
    if Placed(f) && NewcomersFit(f, occupied) {
      RebuildIsPlaced(f, occupied);
      SteeredPlacement(f, seats, now, occupied);
    }
  }

  /** Taking the inputs changes nobody's part in the turn. */
  lemma SameTurn(s: Snap, steered: Snap, turn: Turn, now: nat, r: Rules)
    requires Proper(s) && Proper(steered) && SeatsOk(s.seats, s.lastInput, now) && TurnOf(steered, turn, now, r)
    requires steered.seats == Drained(s.seats, now) && steered.lastInput == s.lastInput
    ensures TurnOf(s, turn, now, r)
    ensures turn.humans == Humans(s.seats) && turn.stale == StaleSlots(s.seats, s.lastInput, now, INPUT_STALE_MS)
    ensures turn.limit == r.limit && TurnOk(turn)
  {
    DrainedOk(s.seats, s.lastInput, now, r.zombies);
    assert StaleSlots(steered.seats, s.lastInput, now, INPUT_STALE_MS) == StaleSlots(s.seats, s.lastInput, now, INPUT_STALE_MS);
  }

  lemma TickEnded(s: Snap, t: Snap, winner: nat, ready: Field, turn: Turn, now: nat, r: Rules)
    requires Proper(s) && Proper(t) && Sane(ready) && TurnOk(turn)
    ensures
      && TurnOf(s, turn, now, r)
      && Readied(Steered(s.field, s.seats, now), Actors(s.seats, r.zombies), now, ready)
      && Combat(ready, turn) == Result(t.field, true) && WonBy(t.field, winner, r.limit)
      && t == Snap(Silenced(Drained(s.seats, now)), s.lastInput,
           Finished(s.life, t.field, ZombieSet(s.seats, r.zombies), winner, r.limit, now + r.intermissionMs), t.field, s.epoch)
      ==> Ticked(s, t, ready, turn, now, r)
  {
    hide Readied, Steered, Combat, Silenced, ZombieSet;
  }

  lemma TickWentOn(s: Snap, t: Snap, ready: Field, turn: Turn, now: nat, r: Rules)
    requires Proper(s) && Proper(t) && Sane(ready) && TurnOk(turn)
    ensures
      && TurnOf(s, turn, now, r)
      && Readied(Steered(s.field, s.seats, now), Actors(s.seats, r.zombies), now, ready)
      && Combat(ready, turn) == Result(t.field, false)
      && t == Snap(Drained(s.seats, now), s.lastInput,
           s.life.(everZombie := s.life.everZombie + ZombieSet(s.seats, r.zombies)), t.field, s.epoch)
      ==> Ticked(s, t, ready, turn, now, r)
  {
    hide Readied, Steered, Combat, ZombieSet;
  }

  lemma ZombiesChronicle(epoch: nat, results: seq<Ending>, life: Life, limit: nat, zombies: set<nat>)
    requires Chronicle(epoch, results, life, limit)
    ensures Chronicle(epoch, results, life.(everZombie := zombies), limit)
  {
  }

  /** A tick that no human watches. */
  lemma Undisturbed(f: Field, ready: Field, seats: seq<Seat>, lastInput: seq<nat>, now: nat, baseline: set<Cell>,
                    turn: Turn, occupied: set<nat>)
    requires TurnOk(turn) && FieldInv(f, baseline, turn.limit) && NoShots(f)
    requires SeatsOk(seats, lastInput, now) && Humans(seats) == {}
    requires Readied(Steered(f, seats, now), occupied, now, ready)
    requires turn.humans == {} && turn.stale == StaleSlots(seats, lastInput, now, INPUT_STALE_MS)
    ensures Sane(ready) && NoShots(ready)
    ensures !Combat(ready, turn).ended && Peaceful(ready, Combat(ready, turn).field) && NoShots(Combat(ready, turn).field)
  {
    hide Combat, FieldInv;
    SaneInv(f, baseline, turn.limit);
    SteeredKeeps(f, seats, now, baseline, turn.limit);
    ReadiedKeeps(Steered(f, seats, now), occupied, now, ready, baseline, turn.limit);
    NobodySteers(f, ready, occupied, seats, lastInput, now, INPUT_STALE_MS, turn);
    DesertedBoardIsPeaceful(ready, turn);
  }

  lemma FrozenStart(life: Life, f: Field, epoch: nat)
    ensures FrozenBetween(life, f, epoch, life, f, epoch)
  {
  }

  lemma FrozenChain(l0: Life, f0: Field, e0: nat, l1: Life, f1: Field, e1: nat, l2: Life, f2: Field, e2: nat)
    requires e0 <= e1 <= e2 && FrozenBetween(l0, f0, e0, l1, f1, e1) && FrozenBetween(l1, f1, e1, l2, f2, e2)
    ensures FrozenBetween(l0, f0, e0, l2, f2, e2)
  {
  }

  lemma OverMeans(f: Field, baseline: set<Cell>, limit: nat)
    ensures FieldSound(f, baseline, limit, Over) ==> Sane(f) && NoShots(f)
  {
  }

  lemma ResetTwice(f: Field, i: nat)
    requires Sane(f) && i < SLOTS
    ensures SlotReset(SlotReset(f, i), i) == SlotReset(f, i)
  {
  }

  lemma SlotResetOccupies(f: Field, i: nat)
    requires Sane(f) && i < SLOTS
    ensures SlotReset(f, i).occupied == f.occupied && (NoShots(f) ==> NoShots(SlotReset(f, i)))
  {
  }

  lemma AcceptedKeeps(f: Field, seats: seq<Seat>, zombies: nat, i: nat, s: Seat)
    requires Sane(f) && Sized(seats) && i < SLOTS && i !in Humans(seats) && !s.handshake
    ensures Humans(seats[i := s]) == Humans(seats)
    ensures Covered(f, seats, zombies) ==> Covered(SlotReset(f, i), seats[i := s], zombies)
  {
    DepartureShifts(seats, zombies, i, s);
  }

  lemma SlotResetLeaves(f: Field, i: nat)
    requires Sane(f) && i < SLOTS
    ensures SlotReset(f, i).bricks == f.bricks && SlotReset(f, i).broken == f.broken
  {
  }

  lemma TakenOk(seats: seq<Seat>, lastInput: seq<nat>, now: nat, i: nat)
    requires SeatsOk(seats, lastInput, now) && i < SLOTS
    ensures SeatsOk(seats[i := FREE_SEAT.(inUse := true, connectedAt := now, lastSeen := now)], lastInput[i := 0], now)
  {
  }

  lemma HelloOk(seats: seq<Seat>, lastInput: seq<nat>, now: nat, i: nat)
    requires SeatsOk(seats, lastInput, now) && i < SLOTS && seats[i].inUse
    ensures SeatsOk(seats[i := seats[i].(handshake := true)], lastInput, now)
  {
  }

  lemma DormantMeans(f: Field, baseline: set<Cell>, limit: nat)
    requires FieldSound(f, baseline, limit, Dormant)
    ensures Fresh(f, baseline, {})
  {
  }

  lemma NobodySeated(seats: seq<Seat>, lastInput: seq<nat>, now: nat)
    requires SeatsOk(seats, lastInput, now) && Humans(seats) == {}
    ensures lastInput == NoInput()
  {
    forall i | 0 <= i < SLOTS
      ensures lastInput[i] == 0
    {
      assert SeatOk(seats[i], lastInput[i], now) && i !in Humans(seats);
    }
  }

  lemma WokenChronicle(epoch: nat, results: seq<Ending>, was: Life, life: Life, limit: nat)
    requires Chronicle(epoch, results, was, limit) && was.phase.Dormant?
    requires life == was.(phase := Playing, everZombie := life.everZombie)
    ensures Chronicle(epoch, results, life, limit)
  {
  }

  lemma JoinedKeeps(f: Field, i: nat, c: Cell, baseline: set<Cell>, limit: nat)
    requires FieldSound(f, baseline, limit, Playing) && i < SLOTS && InBounds(c)
    ensures FieldSound(Joined(f, i, c), baseline, limit, Playing)
    ensures NoShots(f) ==> NoShots(Joined(f, i, c))
  {
  }

  lemma JoinedAlready(f: Field, i: nat, baseline: set<Cell>, seats: seq<Seat>, zombies: nat)
    requires Sized(seats) && Human(seats, i)
    requires Fresh(f, baseline, Actors(seats, zombies)) && Spread(f, Actors(seats, zombies), SLOTS)
    ensures Joined(f, i, f.players[i].at) == f && Covered(f, seats, zombies)
    ensures Spawn.Spacious(baseline) ==> Placed(f)
  {
    assert Clean(f.players[i]);
    assert f.occupied + {i} == f.occupied;
    if Spawn.Spacious(baseline) {
      SpreadIsPlaced(f, baseline, Actors(seats, zombies));
    }
  }

  /** A newcomer, or one who takes over where a zombie stands, stands in nobody's way. */
  lemma JoinedInPlace(f: Field, i: nat, c: Cell, baseline: set<Cell>, keep: bool)
    requires Sane(f) && i < SLOTS && f.bricks <= baseline
    requires if keep then OnBoard(f, i) && c == f.players[i].at else Spawn.GoodSpawn(f, c)
    ensures Spawn.Spacious(baseline) && Placed(f) ==> Placed(Joined(f, i, c))
  {
    if Spawn.Spacious(baseline) && Placed(f) {
      var g := Joined(f, i, c);
      assert forall j: nat :: j != i ==> OnBoard(g, j) == OnBoard(f, j);
      if keep {
        assert OnBoard(g, i);
      } else {
        Spawn.StaysSpacious(baseline, f.bricks);
        Spawn.SpaciousHasSpawn(f);
        assert Spawn.Free(f, c);
        forall j: nat | j != i && OnBoard(g, j)
          ensures g.players[j].at != c
        {
          assert !Stands(f, j, c);
        }
      }
    }
  }

  lemma JoinedCovers(f: Field, seats: seq<Seat>, zombies: nat, i: nat, c: Cell)
    requires Sane(f) && Sized(seats) && i < SLOTS && seats[i].inUse && !seats[i].handshake
    ensures Covered(f, seats, zombies) && !ShiftsIn(seats, zombies, i) ==>
      Covered(Joined(f, i, c), seats[i := seats[i].(handshake := true)], zombies)
  {
    HelloShifts(seats, zombies, i, seats[i].(handshake := true));
  }

  lemma GraceChronicle(epoch: nat, results: seq<Ending>, life: Life, limit: nat, at: nat)
    requires Chronicle(epoch, results, life, limit)
    ensures Chronicle(epoch, results, life.(graceAt := at), limit)
  {
  }

  lemma HumanIff(seats: seq<Seat>, lastInput: seq<nat>, now: nat, i: nat)
    requires SeatsOk(seats, lastInput, now) && i < SLOTS
    ensures i in Humans(seats) <==> seats[i].handshake
    ensures seats[i].handshake ==> seats[i].inUse
  {
  }

  lemma VacatedOk(seats: seq<Seat>, lastInput: seq<nat>, now: nat, i: nat)
    requires SeatsOk(seats, lastInput, now) && i < SLOTS
    ensures SeatsOk(seats[i := FREE_SEAT], lastInput[i := 0], now)
  {
  }

  lemma DepartureCovered(f: Field, g: Field, seats: seq<Seat>, zombies: nat, i: nat)
    requires Sane(f) && Sane(g) && Sized(seats) && i < SLOTS && g == SlotReset(f, i)
    ensures Covered(f, seats, zombies) ==> Covered(g, seats[i := FREE_SEAT], zombies)
  {
    DepartureShifts(seats, zombies, i, FREE_SEAT);
  }

  lemma ResetIsOrderly(f: Field, baseline: set<Cell>, seats: seq<Seat>, zombies: nat)
    requires Sized(seats) && Fresh(f, baseline, Actors(seats, zombies)) && Spread(f, Actors(seats, zombies), SLOTS)
    requires Spawn.Spacious(baseline)
    ensures Placed(f) && Covered(f, RewoundAll(seats), zombies)
  {
    SameMasks(RewoundAll(seats), seats, zombies);
    SpreadIsPlaced(f, baseline, Actors(seats, zombies));
  }

  lemma SkyPlacement(f: Field)
    requires Sane(f)
    ensures Placed(f) ==> Placed(NoShotsAtAll(f))
    ensures NoShotsAtAll(f).occupied == f.occupied
  {
    var g := NoShotsAtAll(f);
    assert forall j: nat :: OnBoard(g, j) <==> OnBoard(f, j);
  }

  lemma NothingSpread(f: Field, occupied: set<nat>)
    requires Sane(f)
    ensures Spread(f, occupied, 0)
  {
  }

  lemma SeatsSized(seats: seq<Seat>, lastInput: seq<nat>, now: nat)
    requires SeatsOk(seats, lastInput, now)
    ensures Sized(seats) && |lastInput| == SLOTS
  {
  }

  lemma RewindIsHarmless(a: seq<Seat>, b: seq<Seat>)
    requires Sized(a) && Sized(b) && forall i :: 0 <= i < SLOTS ==> b[i] == a[i] || b[i] == Rewound(a[i])
    ensures Humans(a) == Humans(b)
  {
    SameMasks(a, b, 0);
  }
}
