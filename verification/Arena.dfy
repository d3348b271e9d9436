/** The room's playing field, and what one tick does to it: actors act in slot
    order, then shots advance in slot order. The dice and the zombies' moods are
    inputs, so what is proved holds for all of them. */
module Arena {
  import opened Bytes
  import opened Grid

  const SLOTS := 4
  const NEUTRAL: byte := 0x0F
  const NOBODY := 0xFF
  const RESPAWN_MS := 2000
  const CLEAR_BURST := 3

  /** A zombie's plan: whom it is winding up to shoot, and which brick it means to break. */
  datatype Plan = Plan(windup: bool, target: nat, brickPending: bool, brickDir: nat)

  const NO_PLAN := Plan(false, NOBODY, false, NOBODY)

  datatype Player = Player(at: Cell, joy: byte, score: nat, respawnAt: nat, plan: Plan)

  datatype Shot = Shot(active: bool, at: Cell, dx: int, dy: int, clearBurst: nat)

  const NO_SHOT := Shot(false, Cell(0, 0), 0, 0, 0)

  /** `broken` lists the cells whose removal has been announced reliably this round. */
  datatype Field = Field(players: seq<Player>, shots: seq<Shot>, bricks: set<Cell>, broken: seq<Cell>, occupied: set<nat>)

  predicate Sane(f: Field) {
    |f.players| == SLOTS && |f.shots| == SLOTS
  }

  /** Something one can walk into or shoot: an occupied slot that is not awaiting respawn. */
  predicate OnBoard(f: Field, i: nat)
    requires Sane(f)
  {
    i < SLOTS && i in f.occupied && f.players[i].respawnAt == 0
  }

  predicate Stands(f: Field, i: nat, c: Cell)
    requires Sane(f)
  {
    OnBoard(f, i) && f.players[i].at == c
  }

  predicate PlayerAt(f: Field, c: Cell, ignore: int)
    requires Sane(f)
  {
    exists i: nat :: i < SLOTS && i != ignore && Stands(f, i, c)
  }

  // --- Joystick bytes -----------------------------------------------------------------

  datatype Heading = Still | Toward(dx: int, dy: int)

  function HeadingOf(joy: byte): Heading {
    var stick := joy % 16;
    if stick == 0x07 then Toward(1, 0)
    else if stick == 0x0D then Toward(0, 1)
    else if stick == 0x0B then Toward(-1, 0)
    else if stick == 0x0E then Toward(0, -1)
    else Still
  }

  predicate Trigger(joy: byte) {
    joy / 16 % 2 == 1
  }

  function StickFromDir(dir: nat): byte {
    match dir % 4
    case 0 => 0x07
    case 1 => 0x0D
    case 2 => 0x0B
    case _ => 0x0E
  }

  function Firing(joy: byte): byte
    requires joy < 16
  {
    joy + 16
  }

  // --- Single effects --------------------------------------------------------------------

  function WithPlayer(f: Field, i: nat, p: Player): Field
    requires Sane(f) && i < SLOTS
  {
    f.(players := f.players[i := p])
  }

  function WithShot(f: Field, i: nat, s: Shot): Field
    requires Sane(f) && i < SLOTS
  {
    f.(shots := f.shots[i := s])
  }

  function Break(f: Field, c: Cell): Field {
    f.(bricks := f.bricks - {c}, broken := f.broken + [c])
  }

  function Retire(f: Field, i: nat): Field
    requires Sane(f) && i < SLOTS
  {
    WithShot(f, i, f.shots[i].(active := false, clearBurst := CLEAR_BURST))
  }

  /** A point for the shooter, clamped at the limit. */
  function Scored(f: Field, shooter: nat, limit: nat): Field
    requires Sane(f) && shooter < SLOTS
  {
    var p := f.players[shooter];
    var raised := if p.score < limit then p.score + 1 else p.score;
    WithPlayer(f, shooter, p.(score := if raised >= limit then limit else raised))
  }

  /** The field as a finished round leaves it: nothing in flight, nobody pushing. */
  function Settled(f: Field): Field
    requires Sane(f)
  {
    f.(shots := seq(SLOTS, _ => NO_SHOT), players := seq(SLOTS, i requires 0 <= i < SLOTS => f.players[i].(joy := NEUTRAL)))
  }

  datatype Result = Result(field: Field, ended: bool)

  /** The shooter scores off the victim: either the round ends here, or the victim goes down. */
  function Strike(f: Field, shooter: nat, victim: nat, now: nat, limit: nat): (r: Result)
    requires Sane(f) && shooter < SLOTS && victim < SLOTS
    ensures Sane(r.field)
  {
    var scored := Scored(f, shooter, limit);
    if scored.players[shooter].score >= limit then Result(Settled(scored), true)
    else Result(WithPlayer(scored, victim, scored.players[victim].(respawnAt := now + RESPAWN_MS)), false)
  }

  // --- Firing ---------------------------------------------------------------------------------

  /** The lowest-numbered actor on the cell other than the shooter. */
  function VictimAt(f: Field, c: Cell, shooter: nat, from: nat): nat
    requires Sane(f) && from <= SLOTS
    decreases SLOTS - from
  {
    if from == SLOTS then NOBODY
    else if from != shooter && Stands(f, from, c) then from
    else VictimAt(f, c, shooter, from + 1)
  }

  function Fire(f: Field, i: nat, joy: byte, now: nat, limit: nat): (r: Result)
    requires Sane(f) && i < SLOTS
    ensures Sane(r.field)
  {
    var p := f.players[i];
    var heading := HeadingOf(joy);
    if p.respawnAt != 0 || f.shots[i].active || !Trigger(joy) || heading.Still? then Result(f, false)
    else
      var c := Beside(p.at, heading.dx, heading.dy);
      if IsBrick(f.bricks, c) then Result(if OuterWall(c) then f else Break(f, c), false)
      else
        var victim := VictimAt(f, c, i, 0);
        if victim < SLOTS then Strike(f, i, victim, now, limit)
        else Result(WithShot(f, i, Shot(true, c, heading.dx, heading.dy, 0)), false)
  }

  // --- Moving -----------------------------------------------------------------------------------

  function Clamp(low: int, v: int, high: int): int {
    if v < low then low else if v > high then high else v
  }

  function Moved(f: Field, i: nat): (g: Field)
    requires Sane(f) && i < SLOTS
    ensures Sane(g)
  {
    var p := f.players[i];
    match HeadingOf(p.joy)
    case Still => f
    case Toward(dx, dy) =>
      var n := Cell(Clamp(0, p.at.x + dx, WIDTH - 1), Clamp(0, p.at.y + dy, HEIGHT - 1));
      if IsBrick(f.bricks, n) || PlayerAt(f, n, i) then f else WithPlayer(f, i, p.(at := n))
  }

  // --- Zombies ------------------------------------------------------------------------------------

  /** No brick strictly between two columns of a row. */
  predicate ClearRow(bricks: set<Cell>, y: int, x0: int, x1: int) {
    && (forall x :: x0 < x < x1 ==> !IsBrick(bricks, Cell(x, y)))
    && (forall x :: x1 < x < x0 ==> !IsBrick(bricks, Cell(x, y)))
  }

  predicate ClearColumn(bricks: set<Cell>, x: int, y0: int, y1: int) {
    && (forall y :: y0 < y < y1 ==> !IsBrick(bricks, Cell(x, y)))
    && (forall y :: y1 < y < y0 ==> !IsBrick(bricks, Cell(x, y)))
  }

  predicate LivingHuman(f: Field, humans: set<nat>, p: nat)
    requires Sane(f)
  {
    p < SLOTS && p in humans && f.players[p].respawnAt == 0
  }

  datatype Aim = NoAim | Direction(dir: nat)

  /** The direction in which a zombie can shoot at a living human along an unbroken row or column. */
  function AimAt(f: Field, i: nat, humans: set<nat>, p: nat): Aim
    requires Sane(f) && i < SLOTS
  {
    if !LivingHuman(f, humans, p) then NoAim
    else
      var z, h := f.players[i].at, f.players[p].at;
      if h.y == z.y && ClearRow(f.bricks, z.y, z.x, h.x) then Direction(if h.x > z.x then 0 else 2)
      else if h.x == z.x && ClearColumn(f.bricks, z.x, z.y, h.y) then Direction(if h.y > z.y then 1 else 3)
      else NoAim
  }

  /** The nearest aimable human among slots below n; the lowest-numbered of several. */
  function Nearest(f: Field, i: nat, humans: set<nat>, n: nat): (best: nat)
    requires Sane(f) && i < SLOTS && n <= SLOTS
    ensures best == NOBODY || (best < n && best != i && AimAt(f, i, humans, best).Direction?)
  {
    if n == 0 then NOBODY
    else
      var p := n - 1;
      var best := Nearest(f, i, humans, p);
      if p == i || AimAt(f, i, humans, p).NoAim? then best
      else if best == NOBODY || Distance(f.players[i].at, f.players[p].at) < Distance(f.players[i].at, f.players[best].at) then p
      else best
  }

  /** What the dice and clocks say about one zombie this tick. */
  datatype Whim = Whim(ready: bool, release: bool, moves: bool, dir: nat, plansBrick: bool)

  /** The choice a slot makes before anything happens: what to do, whether it may
      move, and the joystick and plan it is left with. */
  datatype Choice = Choice(action: byte, mayMove: bool, joy: byte, plan: Plan)

  predicate BreakableAhead(f: Field, i: nat, joy: byte)
    requires Sane(f) && i < SLOTS
  {
    var heading := HeadingOf(joy);
    heading.Toward? &&
      var c := Beside(f.players[i].at, heading.dx, heading.dy);
      !OuterWall(c) && IsBrick(f.bricks, c)
  }

  function ZombieChoice(f: Field, i: nat, humans: set<nat>, whim: Whim): Choice
    requires Sane(f) && i < SLOTS
  {
    var p := f.players[i];
    var plan := p.plan;
    if plan.windup then
      match AimAt(f, i, humans, plan.target)
      case NoAim => Choice(NEUTRAL, false, p.joy, plan.(windup := false, target := NOBODY))
      case Direction(dir) =>
        if whim.release then
          Choice(Firing(StickFromDir(dir)), false, p.joy, plan.(windup := false, target := NOBODY))
        else Choice(NEUTRAL, false, p.joy, plan)
    else
      var target := Nearest(f, i, humans, SLOTS);
      if !f.shots[i].active && whim.ready && target != NOBODY then
        Choice(NEUTRAL, false, StickFromDir(AimAt(f, i, humans, target).dir), plan.(windup := true, target := target))
      else if plan.brickPending then
        var stick := StickFromDir(plan.brickDir);
        if !f.shots[i].active && BreakableAhead(f, i, stick) then
          Choice(Firing(stick), false, stick, plan.(brickPending := false))
        else Choice(NEUTRAL, false, p.joy, plan.(brickPending := false))
      else if whim.moves then Choice(StickFromDir(whim.dir), true, StickFromDir(whim.dir), plan)
      else Choice(NEUTRAL, false, p.joy, plan)
  }

  // --- The tick --------------------------------------------------------------------------------------

  /** Who is who this tick: zombies, humans, vacated slots whose last input is stale. */
  datatype Turn = Turn(zombies: set<nat>, humans: set<nat>, stale: set<nat>, whims: seq<Whim>, now: nat, limit: nat)

  predicate TurnOk(t: Turn) {
    |t.whims| == SLOTS && t.limit > 0
  }

  function ChoiceOf(f: Field, i: nat, t: Turn): Choice
    requires Sane(f) && i < SLOTS && TurnOk(t)
  {
    if i in t.zombies then ZombieChoice(f, i, t.humans, t.whims[i])
    else
      var joy := if i in t.stale then NEUTRAL else f.players[i].joy;
      Choice(joy, true, joy, f.players[i].plan)
  }

  /** A zombie that ran into a breakable brick may decide to shoot it later. */
  function Replanned(before: Field, after: Field, i: nat, t: Turn, action: byte): (g: Field)
    requires Sane(before) && Sane(after) && i < SLOTS && TurnOk(t)
    ensures Sane(g)
  {
    var p := after.players[i];
    if i in t.zombies && p.at == before.players[i].at && BreakableAhead(after, i, action)
       && !p.plan.brickPending && !after.shots[i].active && t.whims[i].plansBrick
    then WithPlayer(after, i, p.(plan := p.plan.(brickPending := true, brickDir := t.whims[i].dir)))
    else after
  }

  /** One slot's turn: choose, fire, and move unless firing in a direction. */
  function Act(f: Field, i: nat, t: Turn): (r: Result)
    requires Sane(f) && i < SLOTS && TurnOk(t)
    ensures Sane(r.field)
  {
    var p := f.players[i];
    if p.respawnAt != 0 then
      Result(if i in t.stale && i !in t.zombies then WithPlayer(f, i, p.(joy := NEUTRAL)) else f, false)
    else
      var choice := ChoiceOf(f, i, t);
      var ready := WithPlayer(f, i, p.(joy := choice.joy, plan := choice.plan));
      var fired := Fire(ready, i, choice.action, t.now, t.limit);
      if fired.ended then fired
      else if choice.mayMove && !(Trigger(choice.action) && choice.action % 16 != 0x0F) then
        Result(Replanned(fired.field, Moved(fired.field, i), i, t, choice.action), false)
      else fired
  }

  function ActFrom(f: Field, i: nat, t: Turn): (r: Result)
    requires Sane(f) && i <= SLOTS && TurnOk(t)
    ensures Sane(r.field)
    decreases SLOTS - i
  {
    if i == SLOTS then Result(f, false)
    else
      var r := Act(f, i, t);
      if r.ended then r else ActFrom(r.field, i + 1, t)
  }

  /** Is p hit by shot s, about to enter cell n? Either p stands there, or p has
      just moved onto the cell that the shot is leaving. */
  predicate HitBy(f: Field, s: Shot, n: Cell, p: nat, before: seq<Cell>)
    requires Sane(f) && p < SLOTS && |before| == SLOTS
  {
    Stands(f, p, n) || (Stands(f, p, s.at) && before[p] != f.players[p].at)
  }

  function ShotVictim(f: Field, i: nat, n: Cell, before: seq<Cell>, from: nat): nat
    requires Sane(f) && i < SLOTS && |before| == SLOTS && from <= SLOTS
    decreases SLOTS - from
  {
    if from == SLOTS then NOBODY
    else if from != i && HitBy(f, f.shots[i], n, from, before) then from
    else ShotVictim(f, i, n, before, from + 1)
  }

  function StepShot(f: Field, i: nat, before: seq<Cell>, now: nat, limit: nat): (r: Result)
    requires Sane(f) && i < SLOTS && |before| == SLOTS
    ensures Sane(r.field)
  {
    var s := f.shots[i];
    var n := Beside(s.at, s.dx, s.dy);
    if !s.active then Result(f, false)
    else if !InBounds(n) then Result(Retire(f, i), false)
    else
      var victim := ShotVictim(f, i, n, before, 0);
      if victim < SLOTS then
        var struck := Strike(f, i, victim, now, limit);
        if struck.ended then struck else Result(Retire(struck.field, i), false)
      else if IsBrick(f.bricks, n) then
        Result(Retire(if OuterWall(n) then f else Break(f, n), i), false)
      else Result(WithShot(f, i, s.(at := n)), false)
  }

  function ShotsFrom(f: Field, i: nat, before: seq<Cell>, now: nat, limit: nat): (r: Result)
    requires Sane(f) && i <= SLOTS && |before| == SLOTS
    ensures Sane(r.field)
    decreases SLOTS - i
  {
    if i == SLOTS then Result(f, false)
    else
      var r := StepShot(f, i, before, now, limit);
      if r.ended then r else ShotsFrom(r.field, i + 1, before, now, limit)
  }

  /** The burst of clear packets after a shot's end runs down. */
  function Faded(f: Field): (g: Field)
    requires Sane(f)
    ensures Sane(g)
  {
    f.(shots := seq(SLOTS, i requires 0 <= i < SLOTS =>
        if f.shots[i].clearBurst > 0 then f.shots[i].(clearBurst := f.shots[i].clearBurst - 1) else f.shots[i]))
  }

  function Positions(f: Field): seq<Cell>
    requires Sane(f)
  {
    seq(SLOTS, i requires 0 <= i < SLOTS => f.players[i].at)
  }

  /** Actors, then shots; the ending hit stops everything. */
  function Combat(f: Field, t: Turn): (r: Result)
    requires Sane(f) && TurnOk(t)
    ensures Sane(r.field)
  {
    var acted := ActFrom(f, 0, t);
    if acted.ended then acted
    else
      var flown := ShotsFrom(acted.field, 0, Positions(f), t.now, t.limit);
      if flown.ended then flown else Result(Faded(flown.field), false)
  }
}
