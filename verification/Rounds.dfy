/** Phases, deadlines and results of a room's rounds, and what a fresh round's
    board looks like. */
module Rounds {
  import opened Bytes
  import opened Grid
  import opened Arena
  import opened ArenaSafety
  import opened Seats
  import Spawn
  import IQ = InputQueue

  datatype Phase = Playing | Over | Dormant

  /** The frozen result of a round. */
  datatype Verdict =
    | NoVerdict
    | Match(round: byte, winner: nat, active: set<nat>, zombies: set<nat>, limit: nat, scores: seq<nat>, everZombie: set<nat>)

  /** Deadlines are 0 when they are not armed. */
  datatype Life = Life(
    round: byte, phase: Phase, intermissionAt: nat, graceAt: nat, verdict: Verdict, everZombie: set<nat>)

  /** No human is seated exactly when the room is dormant or its grace deadline is
      armed, never both; a round is over exactly when the intermission deadline is
      armed, and then a human is seated. */
  predicate LifeOk(life: Life, humans: set<nat>) {
    && (humans == {} <==> life.phase.Dormant? || life.graceAt != 0)
    && !(life.phase.Dormant? && life.graceAt != 0)
    && (life.phase.Over? <==> life.intermissionAt != 0)
    && (life.phase.Over? ==> humans != {})
  }

  predicate OnlyWinner(scores: seq<nat>, w: nat, limit: nat) {
    && |scores| == SLOTS && w < SLOTS && scores[w] == limit
    && forall i :: 0 <= i < SLOTS && i != w ==> scores[i] < limit
  }

  predicate VerdictOk(v: Verdict, limit: nat) {
    v.Match? && v.limit == limit && OnlyWinner(v.scores, v.winner, limit) && v.zombies <= v.everZombie
  }

  /** A round that has ended: its number, counted without bound, and its verdict. */
  datatype Ending = Ending(epoch: nat, verdict: Verdict)

  predicate EndingOk(e: Ending, limit: nat) {
    VerdictOk(e.verdict, limit) && e.verdict.round == (e.epoch + 1) % 256
  }

  /** Each round ends at most once: the results are those of ever later rounds, and
      the current round is among them exactly while it is over. */
  ghost predicate Chronicle(epoch: nat, results: seq<Ending>, life: Life, limit: nat) {
    && life.round == (epoch + 1) % 256
    && (forall i, j :: 0 <= i < j < |results| ==> results[i].epoch < results[j].epoch)
    && (forall i :: 0 <= i < |results| ==> EndingOk(results[i], limit) && results[i].epoch <= epoch)
    && (life.phase.Over? <==> results != [] && results[|results| - 1].epoch == epoch)
    && (life.phase.Over? ==> results[|results| - 1].verdict == life.verdict)
  }

  /** reset_round's share of the life of a room. */
  function NextRound(life: Life, zombies: set<nat>): Life {
    life.(round := (life.round + 1) % 256, phase := Playing, intermissionAt := 0, everZombie := zombies)
  }

  function Parked(life: Life): Life {
    life.(phase := Dormant, intermissionAt := 0, graceAt := 0)
  }

  lemma NextChronicle(epoch: nat, results: seq<Ending>, life: Life, limit: nat, zombies: set<nat>, next: nat)
    requires Chronicle(epoch, results, life, limit) && next == epoch + 1
    ensures Chronicle(next, results, NextRound(life, zombies), limit)
    ensures Chronicle(next, results, Parked(NextRound(life, zombies)), limit)
  {
  }

  /** While a round stays over, its verdict, its map and its empty sky stay too. */
  predicate FrozenBetween(was: Life, wasField: Field, wasEpoch: nat, life: Life, field: Field, epoch: nat) {
    was.phase.Over? && epoch == wasEpoch ==>
      && life.phase.Over? && life.verdict == was.verdict && life.intermissionAt == was.intermissionAt
      && field.bricks == wasField.bricks && field.broken == wasField.broken && field.shots == wasField.shots
  }

  // --- Seats across rounds ----------------------------------------------------------------

  predicate SeatOk(s: Seat, input: nat, now: nat) {
    && (!s.inUse ==> s == FREE_SEAT)
    && (!s.handshake ==> s.intake == IQ.EMPTY && input == 0 && !s.leaving)
    && s.connectedAt <= now && s.lastSeen <= now && input <= now
  }

  /** A free seat is blank, and whoever has not said HELLO has left no trace in the game. */
  predicate SeatsOk(seats: seq<Seat>, lastInput: seq<nat>, now: nat) {
    |seats| == SLOTS && |lastInput| == SLOTS && forall i :: 0 <= i < SLOTS ==> SeatOk(seats[i], lastInput[i], now)
  }

  /** What a new round leaves of a seat's input queue. */
  function Rewound(s: Seat): Seat {
    s.(intake := s.intake.(haveSeq := false, haveApplied := false, entries := []))
  }

  function RewoundAll(seats: seq<Seat>): (r: seq<Seat>)
    requires Sized(seats)
    ensures Sized(r)
  {
    seq(SLOTS, i requires 0 <= i < SLOTS => Rewound(seats[i]))
  }

  /** What the end of a round leaves of it. */
  function Silenced(seats: seq<Seat>): (r: seq<Seat>)
    requires Sized(seats)
    ensures Sized(r)
  {
    seq(SLOTS, i requires 0 <= i < SLOTS => seats[i].(intake := seats[i].intake.(entries := [])))
  }

  function NoInput(): seq<nat> {
    seq(SLOTS, _ => 0)
  }

  lemma SeatsAcross(seats: seq<Seat>, lastInput: seq<nat>, now: nat, zombies: nat)
    requires SeatsOk(seats, lastInput, now)
    ensures SeatsOk(RewoundAll(seats), NoInput(), now) && SeatsOk(Silenced(seats), lastInput, now)
    ensures Humans(RewoundAll(seats)) == Humans(seats) && Humans(Silenced(seats)) == Humans(seats)
    ensures ZombieSet(RewoundAll(seats), zombies) == ZombieSet(seats, zombies)
    ensures ZombieSet(Silenced(seats), zombies) == ZombieSet(seats, zombies)
  {
    SameMasks(RewoundAll(seats), seats, zombies);
    SameMasks(Silenced(seats), seats, zombies);
  }

  // --- The board of a fresh round -----------------------------------------------------------

  predicate Clean(p: Player) {
    p.joy == NEUTRAL && p.score == 0 && p.respawnAt == 0 && p.plan == NO_PLAN
  }

  ghost predicate NoShots(f: Field)
    requires Sane(f)
  {
    forall i :: 0 <= i < SLOTS ==> !f.shots[i].active
  }

  function NoShotsAtAll(f: Field): (g: Field)
    requires Sane(f)
    ensures Sane(g)
  {
    f.(shots := seq(SLOTS, _ => NO_SHOT))
  }

  /** The configured map, nothing broken, nothing in flight, everybody at zero. */
  ghost predicate Fresh(f: Field, baseline: set<Cell>, occupied: set<nat>) {
    && Sane(f) && InField(f) && f.bricks == baseline && f.broken == [] && f.occupied == occupied
    && (forall i :: 0 <= i < SLOTS ==> f.shots[i] == NO_SHOT && Clean(f.players[i]))
  }

  function Under(occupied: set<nat>, n: nat): set<nat> {
    set i | i in occupied && i < n
  }

  /** Every actor among the first n slots was put where the chooser, seeing only the
      actors before it, may put it. */
  ghost predicate Spread(f: Field, occupied: set<nat>, n: nat)
    requires Sane(f)
  {
    forall i: nat :: i < n && i < SLOTS && i in occupied ==>
      Spawn.GoodSpawn(Occupying(f, Under(occupied, i)), f.players[i].at)
  }

  lemma SpreadIsPlaced(f: Field, baseline: set<Cell>, occupied: set<nat>)
    requires Fresh(f, baseline, occupied) && Spread(f, occupied, SLOTS) && Spawn.Spacious(baseline)
    ensures Placed(f)
  {
    forall i: nat | OnBoard(f, i)
      ensures !IsBrick(f.bricks, f.players[i].at)
      ensures forall j: nat :: j < i && OnBoard(f, j) ==> f.players[j].at != f.players[i].at
    {
      var g := Occupying(f, Under(occupied, i));
      Spawn.SpaciousHasSpawn(g);
      assert Spawn.Free(g, f.players[i].at);
      forall j: nat | j < i && OnBoard(f, j)
        ensures f.players[j].at != f.players[i].at
      {
        assert !Stands(g, j, f.players[i].at);
      }
    }
  }

  /** Putting slot n somewhere good extends the spread by one. */
  lemma SpreadGrows(f: Field, g: Field, occupied: set<nat>, n: nat, c: Cell)
    requires Sane(f) && Sane(g) && n < SLOTS && Spread(f, occupied, n)
    requires f.occupied == Under(occupied, n) && n in occupied && Spawn.GoodSpawn(f, c)
    requires g.bricks == f.bricks && g.players[n].at == c
    requires forall j :: 0 <= j < n ==> g.players[j].at == f.players[j].at
    requires forall j :: 0 <= j < n ==> (g.players[j].respawnAt == 0 <==> f.players[j].respawnAt == 0)
    ensures Spread(g, occupied, n + 1)
  {
    hide Spawn.GoodSpawn;
    forall i: nat | i <= n && i in occupied
      ensures Spawn.GoodSpawn(Occupying(g, Under(occupied, i)), g.players[i].at)
    {
      Spawn.SameSpawn(Occupying(f, Under(occupied, i)), Occupying(g, Under(occupied, i)), g.players[i].at);
    }
  }

  // --- Between events of a run ---------------------------------------------------------------

  /** Everything about a room that its events change, save clock and records. */
  datatype Snap = Snap(seats: seq<Seat>, lastInput: seq<nat>, life: Life, field: Field, epoch: nat)

  predicate Proper(s: Snap) {
    Sized(s.seats) && |s.lastInput| == SLOTS && Sane(s.field)
  }

  /** Nothing has been launched or moved from f to g; shots may have been taken away. */
  ghost predicate ShotsCarry(f: Field, g: Field)
    requires Sane(f) && Sane(g)
  {
    forall k: nat :: k < SLOTS && g.shots[k].active ==> g.shots[k] == f.shots[k]
  }

  /** The fields of a run, and which of its events were ticks. */
  ghost predicate Shooting(fields: seq<Field>, ticks: seq<bool>) {
    && |fields| == |ticks| + 1 && (forall m :: 0 <= m < |fields| ==> Sane(fields[m]) && ShotsOk(fields[m]))
    && forall m, n :: 0 <= m < |ticks| && n == m + 1 ==>
         if ticks[m] then ShotsAdvance(fields[m], fields[n]) else ShotsCarry(fields[m], fields[n])
  }

  ghost predicate Aloft(fields: seq<Field>, k: nat, i: nat, j: nat)
    requires k < SLOTS && i <= j < |fields|
  {
    forall m :: i <= m <= j ==> Sane(fields[m]) && fields[m].shots[k].active
  }

  function TickCount(ticks: seq<bool>, i: nat, j: nat): nat
    requires i <= j <= |ticks|
    decreases j
  {
    if i == j then 0 else TickCount(ticks, i, j - 1) + One(ticks[j - 1])
  }

  /** Over any stretch of any run in which a shot stays in the air there are no more
      ticks than its distance to the edge at the start. */
  lemma {:induction false} FlightIsBounded(fields: seq<Field>, ticks: seq<bool>, k: nat, i: nat, j: nat)
    requires Shooting(fields, ticks) && k < SLOTS && i <= j < |fields| && Aloft(fields, k, i, j)
    ensures TickCount(ticks, i, j) + Range(fields[j].shots[k]) == Range(fields[i].shots[k])
    ensures 0 <= Range(fields[j].shots[k]) <= Range(fields[i].shots[k]) < WIDTH
    decreases j
  {
    hide ShotOk;
    InRange(fields[i], k);
    InRange(fields[j], k);
    if i < j {
      FlightIsBounded(fields, ticks, k, i, j - 1);
      var before, after := fields[j - 1], fields[j];
      InRange(before, k);
      if ticks[j - 1] {
        assert ShotsAdvance(before, after);
        RangeShrinks(before.shots[k], after.shots[k]);
      } else {
        assert ShotsCarry(before, after);
      }
    }
  }

  lemma InRange(f: Field, k: nat)
    requires Sane(f) && ShotsOk(f) && k < SLOTS && f.shots[k].active
    ensures InBounds(f.shots[k].at) && Abs(f.shots[k].dx) + Abs(f.shots[k].dy) == 1
    ensures 0 <= Range(f.shots[k]) < WIDTH
  {
    assert ShotOk(f.shots[k], f.bricks);
  }

  // --- The board in every phase ----------------------------------------------------------------

  ghost predicate FieldSound(f: Field, baseline: set<Cell>, limit: nat, phase: Phase) {
    && Sane(f) && ShotsOk(f) && InField(f) && Ledger(baseline, f)
    && match phase
       case Playing => Below(f, limit)
       case Over => NoShots(f) && forall i :: 0 <= i < SLOTS ==> f.players[i].score <= limit
       case Dormant => Fresh(f, baseline, {})
  }

  lemma FreshSound(f: Field, baseline: set<Cell>, limit: nat, occupied: set<nat>)
    requires Fresh(f, baseline, occupied) && limit > 0
    ensures FieldSound(f, baseline, limit, Playing) && NoShots(f)
    ensures occupied == {} ==> FieldSound(f, baseline, limit, Dormant)
  {
  }

  lemma PlayingIsFieldInv(f: Field, baseline: set<Cell>, limit: nat)
    ensures FieldSound(f, baseline, limit, Playing) <==> FieldInv(f, baseline, limit)
  {
  }

  lemma EndedIsSound(f: Field, baseline: set<Cell>, limit: nat)
    requires EndedInv(f, baseline, limit)
    ensures FieldSound(f, baseline, limit, Over)
  {
  }

  lemma SoundIsSane(f: Field, baseline: set<Cell>, limit: nat, phase: Phase)
    requires FieldSound(f, baseline, limit, phase)
    ensures Sane(f) && InField(f) && f.bricks <= baseline
  {
  }

  /** A slot that changes hands: its shot is retired with the usual clear burst, its
      score and plans go, and it stays where it stands. */
  function SlotReset(f: Field, i: nat): (g: Field)
    requires Sane(f) && i < SLOTS
    ensures Sane(g)
  {
    var cleared := if f.shots[i].active then Retire(f, i) else f;
    WithPlayer(cleared, i, f.players[i].(joy := NEUTRAL, score := 0, plan := NO_PLAN))
  }

  lemma SlotResetKeeps(f: Field, i: nat, baseline: set<Cell>, limit: nat, phase: Phase)
    requires FieldSound(f, baseline, limit, phase) && i < SLOTS && limit > 0
    ensures FieldSound(SlotReset(f, i), baseline, limit, phase)
    ensures Placed(f) ==> Placed(SlotReset(f, i))
    ensures NoShots(f) ==> SlotReset(f, i).shots == f.shots
    ensures phase.Dormant? ==> SlotReset(f, i) == f
  {
    var g := SlotReset(f, i);
    assert forall j: nat :: OnBoard(g, j) <==> OnBoard(f, j);
    if phase.Dormant? {
      assert Clean(f.players[i]);
    }
  }

  lemma NoShotsKeeps(f: Field, baseline: set<Cell>, limit: nat)
    requires FieldSound(f, baseline, limit, Playing)
    ensures FieldSound(NoShotsAtAll(f), baseline, limit, Playing) && NoShots(NoShotsAtAll(f))
    ensures Placed(f) ==> Placed(NoShotsAtAll(f))
  {
    var g := NoShotsAtAll(f);
    assert forall j: nat :: OnBoard(g, j) <==> OnBoard(f, j);
  }

  // --- Filling a fresh board slot by slot ---------------------------------------------------------

  /** The board after the first n slots have been seated. */
  ghost predicate Seeding(f: Field, baseline: set<Cell>, occupied: set<nat>, n: nat) {
    && Sane(f) && InField(f) && f.bricks == baseline && f.broken == [] && f.occupied == Under(occupied, n)
    && (forall i :: 0 <= i < SLOTS ==> f.shots[i] == NO_SHOT)
    && (forall i :: 0 <= i < n && i < SLOTS ==> Clean(f.players[i]))
    && Spread(f, occupied, n)
  }

  /** Slot i seated at c. */
  function Seated(f: Field, i: nat, c: Cell): (g: Field)
    requires Sane(f) && i < SLOTS
    ensures Sane(g)
  {
    WithPlayer(f, i, Standing(c)).(occupied := f.occupied + {i})
  }

  /** Slot i swept clean where it stands. */
  function Swept(f: Field, i: nat): (g: Field)
    requires Sane(f) && i < SLOTS
    ensures Sane(g)
  {
    WithPlayer(f, i, Standing(f.players[i].at))
  }

  lemma SeedKeeps(f: Field, baseline: set<Cell>, occupied: set<nat>, n: nat, c: Cell)
    requires n < SLOTS && Seeding(f, baseline, occupied, n) && n in occupied && InBounds(c) && Spawn.GoodSpawn(f, c)
    ensures Seeding(Seated(f, n, c), baseline, occupied, n + 1)
  {
    hide Spread;
    SpreadGrows(f, Seated(f, n, c), occupied, n, c);
  }

  lemma SweepKeeps(f: Field, baseline: set<Cell>, occupied: set<nat>, n: nat)
    requires n < SLOTS && Seeding(f, baseline, occupied, n)
    ensures Seeding(Swept(f, n), baseline, occupied, n)
    ensures n !in occupied ==> Seeding(Swept(f, n), baseline, occupied, n + 1)
  {
    hide Spawn.GoodSpawn;
    var g := Swept(f, n);
    forall i: nat | i < n && i in occupied
      ensures Spawn.GoodSpawn(Occupying(g, Under(occupied, i)), g.players[i].at)
    {
      Spawn.SameSpawn(Occupying(f, Under(occupied, i)), Occupying(g, Under(occupied, i)), g.players[i].at);
    }
  }

  lemma Seeded(f: Field, baseline: set<Cell>, occupied: set<nat>)
    requires Seeding(f, baseline, occupied, SLOTS) && forall i :: i in occupied ==> i < SLOTS
    ensures Fresh(f, baseline, occupied) && Spread(f, occupied, SLOTS)
  {
  }

  // --- Before the actors act ------------------------------------------------------------------------

  /** What one tick takes from the input queues. */
  function Drained(seats: seq<Seat>, now: nat): (r: seq<Seat>)
    requires Sized(seats)
    ensures Sized(r)
  {
    seq(SLOTS, i requires 0 <= i < SLOTS =>
        if seats[i].inUse then seats[i].(intake := IQ.Ticked(seats[i].intake, now)) else seats[i])
  }

  function JoyOf(f: Field, seats: seq<Seat>, now: nat, i: nat): byte
    requires Sane(f) && Sized(seats) && i < SLOTS
  {
    if seats[i].inUse then IQ.TickedJoy(seats[i].intake, now) else f.players[i].joy
  }

  function Steered(f: Field, seats: seq<Seat>, now: nat): (g: Field)
    requires Sane(f) && Sized(seats)
    ensures Sane(g)
  {
    f.(players := seq(SLOTS, i requires 0 <= i < SLOTS => f.players[i].(joy := JoyOf(f, seats, now, i))))
  }

  predicate RespawnDue(p: Player, now: nat) {
    p.respawnAt != 0 && now >= p.respawnAt
  }

  /** Slot i of field f, put back on the board if its time has come. */
  predicate RebornAs(p: Player, q: Player, now: nat) {
    if RespawnDue(p, now)
    then InBounds(q.at) && q == Player(q.at, NEUTRAL, p.score, 0, NO_PLAN)
    else q == p
  }

  /** Between f and g when the slots below i have had their turn. */
  function Midway(f: Field, g: Field, i: nat): (h: Field)
    requires Sane(f) && Sane(g) && i <= SLOTS
    ensures Sane(h)
  {
    g.(players := g.players[..i] + f.players[i..])
  }

  /** Whoever returns does so where the chooser, seeing those before it back in their
      places, may put it. */
  ghost predicate Respawned(f: Field, g: Field, i: nat, now: nat)
    requires Sane(f) && Sane(g) && i < SLOTS
  {
    RespawnDue(f.players[i], now) ==> Spawn.GoodSpawn(Midway(f, g, i), g.players[i].at)
  }

  /** The field the actors find: the occupancy recomputed, the fallen put back. */
  ghost predicate Readied(f: Field, occupied: set<nat>, now: nat, g: Field)
    requires Sane(f)
  {
    && Sane(g) && g.bricks == f.bricks && g.broken == f.broken && g.shots == f.shots && g.occupied == occupied
    && forall i :: 0 <= i < SLOTS ==> RebornAs(f.players[i], g.players[i], now) && Respawned(f, g, i, now)
  }

  lemma ReadiedKeeps(f: Field, occupied: set<nat>, now: nat, g: Field, baseline: set<Cell>, limit: nat)
    requires FieldInv(f, baseline, limit) && Readied(f, occupied, now, g)
    ensures FieldInv(g, baseline, limit) && (NoShots(f) ==> NoShots(g))
  {
    hide Respawned;
    forall i | 0 <= i < SLOTS
      ensures InBounds(g.players[i].at) && g.players[i].score < limit
    {
      assert RebornAs(f.players[i], g.players[i], now);
    }
  }

  lemma SteeredKeeps(f: Field, seats: seq<Seat>, now: nat, baseline: set<Cell>, limit: nat)
    requires FieldInv(f, baseline, limit) && Sized(seats)
    ensures FieldInv(Steered(f, seats, now), baseline, limit)
    ensures NoShots(f) ==> NoShots(Steered(f, seats, now))
  {
  }

  lemma SteeredPlacement(f: Field, seats: seq<Seat>, now: nat, occupied: set<nat>)
    requires Sane(f) && Sized(seats)
    ensures Placed(f) ==> Placed(Steered(f, seats, now))
    ensures Placed(Occupying(f, occupied)) ==> Placed(Occupying(Steered(f, seats, now), occupied))
  {
    var g, h := Steered(f, seats, now), Occupying(f, occupied);
    assert forall i: nat :: OnBoard(g, i) == OnBoard(f, i);
    assert forall i: nat :: OnBoard(Occupying(g, occupied), i) == OnBoard(h, i);
  }

  lemma DrainedOk(seats: seq<Seat>, lastInput: seq<nat>, now: nat, zombies: nat)
    requires SeatsOk(seats, lastInput, now)
    ensures SeatsOk(Drained(seats, now), lastInput, now)
    ensures Humans(Drained(seats, now)) == Humans(seats)
    ensures ZombieSet(Drained(seats, now), zombies) == ZombieSet(seats, zombies)
  {
    SameMasks(Drained(seats, now), seats, zombies);
  }

  /** Slot i back on the board at c. */
  function Reborn(f: Field, i: nat, c: Cell): (g: Field)
    requires Sane(f) && i < SLOTS
    ensures Sane(g)
  {
    WithPlayer(f, i, Player(c, NEUTRAL, f.players[i].score, 0, NO_PLAN))
  }

  lemma RebornPlaced(f: Field, i: nat, c: Cell)
    requires Sane(f) && i < SLOTS && f.players[i].respawnAt != 0 && Spawn.GoodSpawn(f, c)
    ensures Spawn.Spacious(f.bricks) && Placed(f) ==> Placed(Reborn(f, i, c))
  {
    if Spawn.Spacious(f.bricks) && Placed(f) {
      Spawn.SpaciousHasSpawn(f);
      assert Spawn.Free(f, c);
      var g := Reborn(f, i, c);
      assert forall j: nat :: j != i ==> OnBoard(g, j) == OnBoard(f, j);
      forall j: nat | j != i && OnBoard(f, j)
        ensures f.players[j].at != c
      {
        assert !Stands(f, j, c);
      }
    }
  }

  /** One more slot has had its turn: those before it were placed as they were. */
  lemma RespawnedSoFar(f: Field, g: Field, h: Field, i: nat, now: nat)
    requires Sane(f) && Sane(g) && Sane(h) && i < SLOTS
    requires g == f.(players := g.players) && forall j :: i <= j < SLOTS ==> g.players[j] == f.players[j]
    requires forall j: nat :: j < i ==> Respawned(f, g, j, now)
    requires h == g.(players := g.players[i := h.players[i]])
    requires RespawnDue(f.players[i], now) ==> Spawn.GoodSpawn(g, h.players[i].at)
    ensures forall j: nat :: j <= i ==> Respawned(f, h, j, now)
  {
    hide Spawn.GoodSpawn;
    forall j: nat | j <= i
      ensures Respawned(f, h, j, now)
    {
      assert h.players[..j] == g.players[..j];
      if j < i {
        assert Respawned(f, g, j, now);
        assert Midway(f, h, j) == Midway(f, g, j);
      } else {
        assert g.players[..i] + f.players[i..] == g.players;
        assert Midway(f, h, i) == g;
      }
    }
  }

  /** Whose actor nobody steers: a free slot with no input in the last half second. */
  function StaleSlots(seats: seq<Seat>, lastInput: seq<nat>, now: nat, patience: nat): set<nat>
    requires Sized(seats) && |lastInput| == SLOTS
  {
    set i: nat | i < SLOTS && !seats[i].inUse && (lastInput[i] == 0 || now - lastInput[i] > patience)
  }

  /** With no human seated, whoever is not a zombie stands still. */
  lemma NobodySteers(f: Field, g: Field, occupied: set<nat>, seats: seq<Seat>, lastInput: seq<nat>, now: nat,
                     patience: nat, t: Turn)
    requires Sane(f) && Sane(g) && SeatsOk(seats, lastInput, now) && Humans(seats) == {} && NoShots(g)
    requires Readied(Steered(f, seats, now), occupied, now, g)
    requires t.humans == {} && t.stale == StaleSlots(seats, lastInput, now, patience)
    ensures Deserted(g, t)
  {
    hide Respawned;
    forall i: nat | i < SLOTS && i !in t.zombies && i !in t.stale
      ensures g.players[i].joy == NEUTRAL
    {
      assert SeatOk(seats[i], lastInput[i], now) && i !in Humans(seats);
      assert RebornAs(Steered(f, seats, now).players[i], g.players[i], now);
    }
  }

  // --- The end of a round ------------------------------------------------------------------------------

  function Scores(f: Field): seq<nat>
    requires Sane(f)
  {
    seq(SLOTS, i requires 0 <= i < SLOTS => f.players[i].score)
  }

  function FrozenVerdict(life: Life, f: Field, zombies: set<nat>, winner: nat, limit: nat): Verdict
    requires Sane(f)
  {
    Match(life.round, winner, f.occupied, zombies, limit, Scores(f), life.everZombie + zombies)
  }

  function Finished(life: Life, f: Field, zombies: set<nat>, winner: nat, limit: nat, until: nat): Life
    requires Sane(f)
  {
    life.(phase := Over, intermissionAt := until, everZombie := life.everZombie + zombies,
      verdict := FrozenVerdict(life, f, zombies, winner, limit))
  }

  lemma EndedChronicle(epoch: nat, results: seq<Ending>, life: Life, f: Field, zombies: set<nat>, winner: nat,
                       limit: nat, until: nat, baseline: set<Cell>)
    requires Chronicle(epoch, results, life, limit) && life.phase.Playing?
    requires EndedInv(f, baseline, limit) && winner < SLOTS && f.players[winner].score == limit
    ensures var over := Finished(life, f, zombies, winner, limit, until);
      Chronicle(epoch, results + [Ending(epoch, over.verdict)], over, limit)
  {
  }
}
