/** What an actor's turn and a shot's step do, in plain terms: sticks, coordinates and
    times are numbers here, and nothing is said through the functions of module Arena,
    which are proved to do it. */
module Deeds {
  import opened Bytes
  import opened Grid
  import opened Arena
  import opened ArenaSafety
  import Targeting

  // --- The board ------------------------------------------------------------------------

  predicate OnGrid(c: Cell) {
    0 <= c.x < 20 && 0 <= c.y < 19
  }

  predicate OnRim(c: Cell) {
    c.x == 0 || c.x == 19 || c.y == 0 || c.y == 18
  }

  predicate Walled(f: Field, c: Cell) {
    !OnGrid(c) || c in f.bricks
  }

  /** Slot j has an actor that can be hit or bumped into. */
  predicate Up(f: Field, j: nat)
    requires Sane(f)
  {
    j < 4 && j in f.occupied && f.players[j].respawnAt == 0
  }

  /** Nothing keeps actor i from being on c. */
  ghost predicate Vacant(f: Field, c: Cell, i: nat)
    requires Sane(f)
  {
    OnGrid(c) && c !in f.bricks && forall j: nat :: Up(f, j) && j != i ==> f.players[j].at != c
  }

  predicate Points(stick: nat) {
    stick == 7 || stick == 13 || stick == 11 || stick == 14
  }

  /** Right, down, left, up. */
  function Next(c: Cell, stick: nat): Cell {
    match stick
    case 7 => Cell(c.x + 1, c.y)
    case 13 => Cell(c.x, c.y + 1)
    case 11 => Cell(c.x - 1, c.y)
    case 14 => Cell(c.x, c.y - 1)
    case _ => c
  }

  /** Without its brick at c, and the loss recorded. */
  function Cleared(f: Field, c: Cell): Field {
    f.(bricks := f.bricks - {c}, broken := f.broken + [c])
  }

  function Rejoined(f: Field, i: nat, joy: byte, plan: Plan): (g: Field)
    requires Sane(f) && i < 4
    ensures Sane(g)
  {
    f.(players := f.players[i := f.players[i].(joy := joy, plan := plan)])
  }

  lemma PlainBoard(f: Field)
    requires Sane(f)
    ensures forall c :: InBounds(c) == OnGrid(c) && OuterWall(c) == OnRim(c) && IsBrick(f.bricks, c) == Walled(f, c)
    ensures forall j: nat :: OnBoard(f, j) == Up(f, j)
    ensures forall j: nat, c :: Stands(f, j, c) == (Up(f, j) && f.players[j].at == c)
  {
  }

  lemma PlainStick(joy: byte, c: Cell)
    ensures HeadingOf(joy).Toward? <==> Points(joy % 16)
    ensures HeadingOf(joy).Toward? ==> Beside(c, HeadingOf(joy).dx, HeadingOf(joy).dy) == Next(c, joy % 16)
    ensures HeadingOf(joy).Toward? ==>
      HeadingOf(joy).dx == Next(c, joy % 16).x - c.x && HeadingOf(joy).dy == Next(c, joy % 16).y - c.y
  {
  }

  // --- Moving ---------------------------------------------------------------------------

  /** Actor i goes to the cell its stick points to if that is vacant, and otherwise
      nothing happens; nor does it with the stick pointing nowhere. */
  ghost predicate Moves(f: Field, g: Field, i: nat, joy: byte)
    requires Sane(f) && i < 4
  {
    var c := Next(f.players[i].at, joy % 16);
    g == if Points(joy % 16) && Vacant(f, c, i) then f.(players := f.players[i := f.players[i].(at := c)]) else f
  }

  lemma MovedExactly(f: Field, i: nat)
    requires Sane(f) && i < 4 && InBounds(f.players[i].at)
    ensures Moves(f, Moved(f, i), i, f.players[i].joy)
  {
    hide Stands, OnBoard;
    PlainBoard(f);
    var p := f.players[i];
    var c := Next(p.at, p.joy % 16);
    PlainStick(p.joy, p.at);
    if OnGrid(c) {
      assert Vacant(f, c, i) <==> !IsBrick(f.bricks, c) && !PlayerAt(f, c, i) by { PlainVacancy(f, c, i); }
    } else {
      assert f.players[i := p.(at := p.at)] == f.players;
    }
  }

  lemma PlainVacancy(f: Field, c: Cell, i: nat)
    requires Sane(f) && i < 4
    ensures Vacant(f, c, i) <==> !IsBrick(f.bricks, c) && !PlayerAt(f, c, i)
  {
    PlainBoard(f);
    if j: nat :| Up(f, j) && j != i && f.players[j].at == c {
      assert Stands(f, j, c);
    }
  }

  // --- Hitting ----------------------------------------------------------------------------

  /** Actor i scores off v. Short of the limit, v is down for two seconds; at the limit the
      round ends on the spot, with an empty sky and every stick at rest. */
  ghost predicate Struck(f: Field, r: Result, i: nat, v: nat, now: nat, limit: nat)
    requires Sane(f) && i < 4 && v < 4
  {
    var p := f.players[i];
    if p.score + 1 < limit then
      r == Result(f.(players := f.players[i := p.(score := p.score + 1)][v := f.players[v].(respawnAt := now + 2000)]), false)
    else
      && r.ended && Sane(r.field) && r.field == f.(players := r.field.players, shots := r.field.shots)
      && forall j :: 0 <= j < 4 ==>
           && r.field.shots[j] == Shot(false, Cell(0, 0), 0, 0, 0)
           && r.field.players[j] == f.players[j].(joy := 15, score := if j == i then limit else f.players[j].score)
  }

  lemma StrikesExactly(f: Field, i: nat, v: nat, now: nat, limit: nat)
    requires Sane(f) && i < 4 && v < 4 && i != v
    ensures Struck(f, Strike(f, i, v, now, limit), i, v, now, limit)
  {
  }

  /** v is the lowest-numbered actor on c, not counting i. */
  ghost predicate FirstOn(f: Field, c: Cell, i: nat, v: nat)
    requires Sane(f)
  {
    Up(f, v) && v != i && f.players[v].at == c && forall w: nat :: Up(f, w) && w < v && w != i ==> f.players[w].at != c
  }

  // --- Firing ------------------------------------------------------------------------------

  /** What a living actor's shot does where it leaves: nothing to the outer wall; any other
      brick is removed, and announced; the first actor there is struck; and from an open
      cell with nobody there the shot takes off. */
  ghost predicate Shoots(f: Field, r: Result, i: nat, c: Cell, now: nat, limit: nat)
    requires Sane(f) && i < 4
  {
    var at := f.players[i].at;
    if Walled(f, c) then r == Result(if OnRim(c) then f else Cleared(f, c), false)
    else if exists v: nat :: FirstOn(f, c, i, v) then exists v: nat :: FirstOn(f, c, i, v) && Struck(f, r, i, v, now, limit)
    else r == Result(f.(shots := f.shots[i := Shot(true, c, c.x - at.x, c.y - at.y, 0)]), false)
  }

  /** The trigger counts with a stick that points somewhere, for an actor that is not
      down and has no shot in the air. */
  ghost predicate Fires(f: Field, r: Result, i: nat, joy: byte, now: nat, limit: nat)
    requires Sane(f) && i < 4
  {
    if joy / 16 % 2 == 1 && Points(joy % 16) && f.players[i].respawnAt == 0 && !f.shots[i].active
    then Shoots(f, r, i, Next(f.players[i].at, joy % 16), now, limit)
    else r == Result(f, false)
  }

  lemma FiresExactly(f: Field, i: nat, joy: byte, now: nat, limit: nat)
    requires Sane(f) && i < 4
    ensures Fires(f, Fire(f, i, joy, now, limit), i, joy, now, limit)
  {
    hide Strike, Struck;
    PlainBoard(f);
    PlainStick(joy, f.players[i].at);
    var c := Next(f.players[i].at, joy % 16);
    FirstIsVictim(f, c, i);
    var v := VictimAt(f, c, i, 0);
    if v < 4 {
      StrikesExactly(f, i, v, now, limit);
    }
  }

  lemma FirstIsVictim(f: Field, c: Cell, i: nat)
    requires Sane(f) && i < 4
    ensures var v := VictimAt(f, c, i, 0);
      if v < 4 then FirstOn(f, c, i, v) && v != i else forall w: nat :: !FirstOn(f, c, i, w)
  {
    PlainBoard(f);
    FirstFrom(f, c, i, 0);
  }

  lemma FirstFrom(f: Field, c: Cell, i: nat, from: nat)
    requires Sane(f) && i < 4 && from <= 4
    ensures var v := VictimAt(f, c, i, from);
      if v < 4 then v != i && from <= v && Stands(f, v, c) && forall w: nat :: from <= w < v && w != i ==> !Stands(f, w, c)
      else forall w: nat :: from <= w < 4 && w != i ==> !Stands(f, w, c)
    decreases 4 - from
  {
    if from < 4 {
      FirstFrom(f, c, i, from + 1);
    }
  }

  // --- Flying ------------------------------------------------------------------------------

  /** p stands on the cell that shot s enters, or has just moved onto the one it leaves. */
  predicate InPath(f: Field, s: Shot, c: Cell, p: nat, before: seq<Cell>)
    requires Sane(f) && |before| == 4
  {
    Up(f, p) && (f.players[p].at == c || (f.players[p].at == s.at && before[p] != s.at))
  }

  ghost predicate FirstInPath(f: Field, s: Shot, c: Cell, i: nat, p: nat, before: seq<Cell>)
    requires Sane(f) && |before| == 4
  {
    InPath(f, s, c, p, before) && p != i && forall w: nat :: w < p && w != i ==> !InPath(f, s, c, w, before)
  }

  /** A shot that has ended, with three clear packets to come. */
  function Spent(f: Field, i: nat): Field
    requires Sane(f) && i < 4
  {
    f.(shots := f.shots[i := f.shots[i].(active := false, clearBurst := 3)])
  }

  ghost predicate StruckAndSpent(f: Field, r: Result, i: nat, v: nat, now: nat, limit: nat)
    requires Sane(f) && i < 4 && v < 4
  {
    exists hit: Result ::
      && Struck(f, hit, i, v, now, limit) && Sane(hit.field)
      && r == if hit.ended then hit else Result(Spent(hit.field, i), false)
  }

  /** One step of shot i: it ends at the edge, at the first actor in its path, whom it
      strikes, or at a brick, which it removes unless that is the outer wall; otherwise it
      is one cell further. */
  ghost predicate Flies(f: Field, r: Result, i: nat, before: seq<Cell>, now: nat, limit: nat)
    requires Sane(f) && i < 4 && |before| == 4
  {
    var s := f.shots[i];
    var c := Cell(s.at.x + s.dx, s.at.y + s.dy);
    if !s.active then r == Result(f, false)
    else if !OnGrid(c) then r == Result(Spent(f, i), false)
    else if exists v: nat :: FirstInPath(f, s, c, i, v, before) then
      exists v: nat :: FirstInPath(f, s, c, i, v, before) && StruckAndSpent(f, r, i, v, now, limit)
    else if c in f.bricks then r == Result(Spent(if OnRim(c) then f else Cleared(f, c), i), false)
    else r == Result(f.(shots := f.shots[i := s.(at := c)]), false)
  }

  lemma FliesExactly(f: Field, i: nat, before: seq<Cell>, now: nat, limit: nat)
    requires Sane(f) && i < 4 && |before| == 4
    ensures Flies(f, StepShot(f, i, before, now, limit), i, before, now, limit)
  {
    hide Strike, Struck, HitBy;
    PlainBoard(f);
    var s := f.shots[i];
    var c := Cell(s.at.x + s.dx, s.at.y + s.dy);
    FirstIsHit(f, i, c, before);
    var v := ShotVictim(f, i, c, before, 0);
    if v < 4 {
      StrikesExactly(f, i, v, now, limit);
      assert Struck(f, Strike(f, i, v, now, limit), i, v, now, limit);
    }
  }

  lemma FirstIsHit(f: Field, i: nat, c: Cell, before: seq<Cell>)
    requires Sane(f) && i < 4 && |before| == 4
    ensures var v, s := ShotVictim(f, i, c, before, 0), f.shots[i];
      if v < 4 then FirstInPath(f, s, c, i, v, before) && v != i else forall w: nat :: !FirstInPath(f, s, c, i, w, before)
  {
    hide HitBy;
    HitFrom(f, i, c, before, 0);
    forall p: nat | p < 4
      ensures HitBy(f, f.shots[i], c, p, before) == InPath(f, f.shots[i], c, p, before)
    {
      PlainHit(f, f.shots[i], c, p, before);
    }
  }

  lemma PlainHit(f: Field, s: Shot, c: Cell, p: nat, before: seq<Cell>)
    requires Sane(f) && p < 4 && |before| == 4
    ensures HitBy(f, s, c, p, before) == InPath(f, s, c, p, before)
  {
  }

  lemma HitFrom(f: Field, i: nat, c: Cell, before: seq<Cell>, from: nat)
    requires Sane(f) && i < 4 && |before| == 4 && from <= 4
    ensures var v, s := ShotVictim(f, i, c, before, from), f.shots[i];
      if v < 4 then v != i && from <= v && HitBy(f, s, c, v, before) && forall w: nat :: from <= w < v && w != i ==> !HitBy(f, s, c, w, before)
      else forall w: nat :: from <= w < 4 && w != i ==> !HitBy(f, s, c, w, before)
    decreases 4 - from
  {
    hide HitBy;
    if from < 4 {
      HitFrom(f, i, c, before, from + 1);
    }
  }

  // --- A steered actor's turn ---------------------------------------------------------------

  /** Actor i, not down, acts on a joystick: it fires if the trigger is pulled with the stick
      out of its middle, and otherwise moves. */
  ghost predicate Obeys(f: Field, r: Result, i: nat, joy: byte, now: nat, limit: nat)
    requires Sane(f) && i < 4
  {
    var g := f.(players := f.players[i := f.players[i].(joy := joy)]);
    if joy / 16 % 2 == 1 && joy % 16 != 15 then Fires(g, r, i, joy, now, limit)
    else !r.ended && Moves(g, r.field, i, joy)
  }

  lemma ObeysExactly(f: Field, i: nat, t: Turn)
    requires Sane(f) && i < 4 && TurnOk(t) && i !in t.zombies && f.players[i].respawnAt == 0
    requires InBounds(f.players[i].at)
    ensures Obeys(f, Act(f, i, t), i, if i in t.stale then 15 else f.players[i].joy, t.now, t.limit)
  {
    hide Fire, Moved, Fires, Moves, BreakableAhead;
    var joy := if i in t.stale then NEUTRAL else f.players[i].joy;
    var g := f.(players := f.players[i := f.players[i].(joy := joy)]);
    FiresExactly(g, i, joy, t.now, t.limit);
    if !(joy / 16 % 2 == 1 && joy % 16 != 15) {
      HoldsFire(g, i, joy, t.now, t.limit);
      MovedExactly(g, i);
    }
  }

  lemma HoldsFire(f: Field, i: nat, joy: byte, now: nat, limit: nat)
    requires Sane(f) && i < 4 && !(joy / 16 % 2 == 1 && joy % 16 != 15)
    ensures Fire(f, i, joy, now, limit) == Result(f, false)
  {
  }

  /** The turn of an actor that is down: at most its stick goes to rest. */
  lemma DownActor(f: Field, i: nat, t: Turn)
    requires Sane(f) && i < 4 && TurnOk(t) && f.players[i].respawnAt != 0
    ensures var joy := if i in t.stale && i !in t.zombies then 15 else f.players[i].joy;
      Act(f, i, t) == Result(Rejoined(f, i, joy, f.players[i].plan), false)
  {
    assert f.players[i := f.players[i]] == f.players;
  }

  // --- A zombie's turn ------------------------------------------------------------------------

  /** From slot i one sees slot p in this direction, past no brick; on one's own cell, to
      the left. */
  ghost predicate Sees(f: Field, i: nat, p: nat, stick: nat)
    requires Sane(f) && i < 4 && p < 4
  {
    var z, h := f.players[i].at, f.players[p].at;
    match stick
    case 7 => h.y == z.y && z.x < h.x && forall x :: z.x < x < h.x ==> !Walled(f, Cell(x, z.y))
    case 13 => h.x == z.x && z.y < h.y && forall y :: z.y < y < h.y ==> !Walled(f, Cell(z.x, y))
    case 11 => h.y == z.y && h.x <= z.x && forall x :: h.x < x < z.x ==> !Walled(f, Cell(x, z.y))
    case 14 => h.x == z.x && h.y < z.y && forall y :: h.y < y < z.y ==> !Walled(f, Cell(z.x, y))
    case _ => false
  }

  /** p is a human's living actor that zombie i sees in this direction. */
  ghost predicate Aims(f: Field, i: nat, humans: set<nat>, p: nat, stick: nat)
    requires Sane(f) && i < 4
  {
    p < 4 && p in humans && f.players[p].respawnAt == 0 && Sees(f, i, p, stick)
  }

  function Far(c: Cell, d: Cell): nat {
    (if c.x < d.x then d.x - c.x else c.x - d.x) + (if c.y < d.y then d.y - c.y else c.y - d.y)
  }

  /** Among those that zombie i can aim at p is the closest, the lowest-numbered of several. */
  ghost predicate Closest(f: Field, i: nat, humans: set<nat>, p: nat, stick: nat)
    requires Sane(f) && i < 4
  {
    && p != i && Aims(f, i, humans, p, stick)
    && forall q: nat, other: nat :: q != i && Aims(f, i, humans, q, other) ==>
         var d, e := Far(f.players[i].at, f.players[p].at), Far(f.players[i].at, f.players[q].at);
         d <= e && (q < p ==> d < e)
  }

  /** A brick on the next cell that a shot would remove. */
  predicate BrickNext(f: Field, i: nat, stick: nat)
    requires Sane(f) && i < 4
  {
    Points(stick) && var c := Next(f.players[i].at, stick); Walled(f, c) && !OnRim(c)
  }

  function StickOf(dir: nat): nat {
    match dir % 4
    case 0 => 7
    case 1 => 13
    case 2 => 11
    case _ => 14
  }

  ghost predicate InSight(f: Field, i: nat, humans: set<nat>, p: nat)
    requires Sane(f) && i < 4
  {
    exists stick: nat :: Aims(f, i, humans, p, stick)
  }

  ghost predicate AnyoneInSight(f: Field, i: nat, humans: set<nat>)
    requires Sane(f) && i < 4
  {
    exists p: nat :: p != i && InSight(f, i, humans, p)
  }

  /** What zombie i decides. While winding up it stands still, gives up when its target is
      out of sight, and fires at it when the time comes. Otherwise, if it may shoot and has
      no shot in the air, it starts winding up at the closest human in sight, facing it.
      Otherwise it fires at the brick it meant to remove, if that is still there; otherwise
      it wanders or stands still. */
  ghost predicate Decides(f: Field, i: nat, humans: set<nat>, whim: Whim, c: Choice)
    requires Sane(f) && i < 4
  {
    var p, plan := f.players[i], f.players[i].plan;
    var off := plan.(windup := false, target := 0xFF);
    var rid := plan.(brickPending := false);
    if plan.windup then
      if !InSight(f, i, humans, plan.target) then c == Choice(15, false, p.joy, off)
      else if !whim.release then c == Choice(15, false, p.joy, plan)
      else exists stick: nat :: Aims(f, i, humans, plan.target, stick) && c == Choice(stick + 16, false, p.joy, off)
    else if whim.ready && !f.shots[i].active && AnyoneInSight(f, i, humans) then
      exists target: nat, stick: nat :: Closest(f, i, humans, target, stick)
        && c == Choice(15, false, stick, plan.(windup := true, target := target))
    else if plan.brickPending then
      var stick := StickOf(plan.brickDir);
      c == if !f.shots[i].active && BrickNext(f, i, stick) then Choice(stick + 16, false, stick, rid)
           else Choice(15, false, p.joy, rid)
    else if whim.moves then c == Choice(StickOf(whim.dir), true, StickOf(whim.dir), plan)
    else c == Choice(15, false, p.joy, plan)
  }

  lemma AimsExactly(f: Field, i: nat, humans: set<nat>, p: nat)
    requires Sane(f) && i < 4
    ensures var aim := AimAt(f, i, humans, p);
      && (aim.Direction? ==> aim.dir < 4 && Aims(f, i, humans, p, StickFromDir(aim.dir)))
      && forall stick: nat :: Aims(f, i, humans, p, stick) ==> aim.Direction? && stick == StickFromDir(aim.dir)
  {
  }

  lemma ClosestExactly(f: Field, i: nat, humans: set<nat>)
    requires Sane(f) && i < 4
    ensures var best := Nearest(f, i, humans, 4);
      if best == NOBODY then !AnyoneInSight(f, i, humans)
      else AnyoneInSight(f, i, humans)
           && Closest(f, i, humans, best, StickFromDir(AimAt(f, i, humans, best).dir))
  {
    hide AimAt, Aims, Nearest;
    var best := Nearest(f, i, humans, 4);
    Targeting.NearestIsNearest(f, i, humans, 4);
    if best != NOBODY {
      AimsExactly(f, i, humans, best);
      assert InSight(f, i, humans, best);
    }
    forall q: nat, stick: nat | q != i && Aims(f, i, humans, q, stick)
      ensures q < 4 && best != NOBODY && AimAt(f, i, humans, q).Direction?
    {
      AimsExactly(f, i, humans, q);
      assert q < 4 by { AimsInRange(f, i, humans, q, stick); }
    }
  }

  lemma AimsInRange(f: Field, i: nat, humans: set<nat>, p: nat, stick: nat)
    requires Sane(f) && i < 4 && Aims(f, i, humans, p, stick)
    ensures p < 4 && Points(stick)
  {
  }

  lemma DecidesExactly(f: Field, i: nat, humans: set<nat>, whim: Whim)
    requires Sane(f) && i < 4
    ensures Decides(f, i, humans, whim, ZombieChoice(f, i, humans, whim))
  {
    hide AimAt, Aims, Nearest, Closest, AnyoneInSight;
    ClosestExactly(f, i, humans);
    AimsExactly(f, i, humans, f.players[i].plan.target);
    PlainBrickNext(f, i, StickFromDir(f.players[i].plan.brickDir));
  }

  lemma PlainBrickNext(f: Field, i: nat, joy: byte)
    requires Sane(f) && i < 4
    ensures BreakableAhead(f, i, joy) == BrickNext(f, i, joy % 16)
  {
  }

  /** Zombie i does what it has decided. One that wanders into a brick it could remove may
      plan to shoot that way later. */
  ghost predicate Performs(f: Field, r: Result, i: nat, c: Choice, whim: Whim, now: nat, limit: nat)
    requires Sane(f) && i < 4
  {
    var g := Rejoined(f, i, c.joy, c.plan);
    if !c.mayMove then Fires(g, r, i, c.action, now, limit)
    else !r.ended && exists h: Field :: Wanders(g, h, r.field, i, c.action, whim)
  }

  ghost predicate Wanders(f: Field, g: Field, h: Field, i: nat, joy: byte, whim: Whim)
    requires Sane(f) && i < 4
  {
    && Sane(g) && Moves(f, g, i, joy)
    && var p := g.players[i];
       h == if p.at == f.players[i].at && BrickNext(g, i, joy % 16)
               && !p.plan.brickPending && !g.shots[i].active && whim.plansBrick
            then Rejoined(g, i, p.joy, p.plan.(brickPending := true, brickDir := whim.dir))
            else g
  }

  lemma PerformsExactly(f: Field, i: nat, t: Turn)
    requires Sane(f) && i < 4 && TurnOk(t) && i in t.zombies && f.players[i].respawnAt == 0
    requires InBounds(f.players[i].at)
    ensures var c := ZombieChoice(f, i, t.humans, t.whims[i]);
      Performs(f, Act(f, i, t), i, c, t.whims[i], t.now, t.limit)
  {
    hide Fire, Moved, Fires, Moves, BreakableAhead, BrickNext, ZombieChoice;
    var c := ZombieChoice(f, i, t.humans, t.whims[i]);
    var g := Rejoined(f, i, c.joy, c.plan);
    FiresExactly(g, i, c.action, t.now, t.limit);
    WanderersHoldFire(f, i, t.humans, t.whims[i]);
    if c.mayMove {
      HoldsFire(g, i, c.action, t.now, t.limit);
      MovedExactly(g, i);
      PlainBrickNext(Moved(g, i), i, c.action);
      assert Wanders(g, Moved(g, i), Act(f, i, t).field, i, c.action, t.whims[i]);
    }
  }

  lemma WanderersHoldFire(f: Field, i: nat, humans: set<nat>, whim: Whim)
    requires Sane(f) && i < 4
    ensures var c := ZombieChoice(f, i, humans, whim); c.mayMove ==> c.action / 16 % 2 == 0 && c.joy == c.action
  {
    hide AimAt, Nearest, BreakableAhead;
  }

  /** A zombie's turn, from what it sees to what it does. */
  ghost predicate Roams(f: Field, r: Result, i: nat, humans: set<nat>, whim: Whim, now: nat, limit: nat)
    requires Sane(f) && i < 4
  {
    exists c: Choice :: Decides(f, i, humans, whim, c) && Performs(f, r, i, c, whim, now, limit)
  }

  lemma RoamsExactly(f: Field, i: nat, t: Turn)
    requires Sane(f) && i < 4 && TurnOk(t) && i in t.zombies && f.players[i].respawnAt == 0
    requires InBounds(f.players[i].at)
    ensures Roams(f, Act(f, i, t), i, t.humans, t.whims[i], t.now, t.limit)
  {
    hide Decides, Performs, Act, ZombieChoice;
    DecidesExactly(f, i, t.humans, t.whims[i]);
    PerformsExactly(f, i, t);
  }
}
