/** What a zombie's aim means on the board. */
module Targeting {
  import opened Bytes
  import opened Grid
  import opened Arena

  /** The cell n steps from c in a stick direction. */
  function Along(c: Cell, dir: nat, n: nat): Cell {
    match HeadingOf(StickFromDir(dir))
    case Still => c
    case Toward(dx, dy) => Cell(c.x + n * dx, c.y + n * dy)
  }

  /** Walking from z in this direction one meets h, with no brick on the way. */
  ghost predicate InLine(bricks: set<Cell>, z: Cell, h: Cell, dir: nat) {
    && h == Along(z, dir, Distance(z, h))
    && forall n: nat :: 0 < n < Distance(z, h) ==> !IsBrick(bricks, Along(z, dir, n))
  }

  lemma StickDirections(dir: nat)
    requires dir < 4
    ensures HeadingOf(StickFromDir(dir)) ==
      if dir == 0 then Toward(1, 0) else if dir == 1 then Toward(0, 1) else if dir == 2 then Toward(-1, 0) else Toward(0, -1)
    ensures StickFromDir(dir) < 16
  {
  }

  lemma AlongRow(bricks: set<Cell>, z: Cell, h: Cell)
    requires h.y == z.y
    ensures ClearRow(bricks, z.y, z.x, h.x) <==> InLine(bricks, z, h, if h.x > z.x then 0 else 2)
  {
    var dir := if h.x > z.x then 0 else 2;
    StickDirections(dir);
    if InLine(bricks, z, h, dir) {
      forall x | z.x < x < h.x || h.x < x < z.x
        ensures !IsBrick(bricks, Cell(x, z.y))
      {
        assert Along(z, dir, Abs(x - z.x)) == Cell(x, z.y);
      }
    }
  }

  lemma AlongColumn(bricks: set<Cell>, z: Cell, h: Cell)
    requires h.x == z.x
    ensures ClearColumn(bricks, z.x, z.y, h.y) <==> InLine(bricks, z, h, if h.y > z.y then 1 else 3)
  {
    var dir := if h.y > z.y then 1 else 3;
    StickDirections(dir);
    if InLine(bricks, z, h, dir) {
      forall y | z.y < y < h.y || h.y < y < z.y
        ensures !IsBrick(bricks, Cell(z.x, y))
      {
        assert Along(z, dir, Abs(y - z.y)) == Cell(z.x, y);
      }
    }
  }

  lemma LineIsStraight(bricks: set<Cell>, z: Cell, h: Cell, dir: nat)
    requires dir < 4 && z != h && InLine(bricks, z, h, dir)
    ensures dir == 0 ==> h.y == z.y && h.x > z.x
    ensures dir == 1 ==> h.x == z.x && h.y > z.y
    ensures dir == 2 ==> h.y == z.y && h.x < z.x
    ensures dir == 3 ==> h.x == z.x && h.y < z.y
  {
    StickDirections(dir);
  }

  /** A zombie has an aim at a slot exactly when a living human stands there and can
      be reached in a straight line past no brick; the aim is that line's direction. */
  lemma AimIsLineOfFire(f: Field, i: nat, humans: set<nat>, p: nat)
    requires Sane(f) && i < SLOTS
    ensures var aim := AimAt(f, i, humans, p);
      && (aim.Direction? ==> LivingHuman(f, humans, p) && aim.dir < 4 && InLine(f.bricks, f.players[i].at, f.players[p].at, aim.dir))
      && (LivingHuman(f, humans, p) ==>
            forall dir: nat :: dir < 4 && InLine(f.bricks, f.players[i].at, f.players[p].at, dir) ==> aim.Direction?)
  {
    hide InLine, ClearRow, ClearColumn;
    if LivingHuman(f, humans, p) {
      var z, h := f.players[i].at, f.players[p].at;
      if h.y == z.y {
        AlongRow(f.bricks, z, h);
      }
      if h.x == z.x {
        AlongColumn(f.bricks, z, h);
      }
      forall dir: nat | dir < 4 && InLine(f.bricks, z, h, dir)
        ensures AimAt(f, i, humans, p).Direction?
      {
        if z == h {
          assert ClearRow(f.bricks, z.y, z.x, h.x) by { NothingBetween(f.bricks, z); }
        } else {
          LineIsStraight(f.bricks, z, h, dir);
        }
      }
    }
  }

  lemma NothingBetween(bricks: set<Cell>, z: Cell)
    ensures ClearRow(bricks, z.y, z.x, z.x)
  {
  }

  /** The target is the closest human that can be aimed at, the lowest-numbered of
      several; there is none only when nobody can be aimed at. */
  lemma {:induction false} NearestIsNearest(f: Field, i: nat, humans: set<nat>, n: nat)
    requires Sane(f) && i < SLOTS && n <= SLOTS
    ensures var best := Nearest(f, i, humans, n);
      forall p: nat :: p < n && p != i && AimAt(f, i, humans, p).Direction? ==>
        && best != NOBODY
        && Distance(f.players[i].at, f.players[best].at) <= Distance(f.players[i].at, f.players[p].at)
        && (p < best ==> Distance(f.players[i].at, f.players[best].at) < Distance(f.players[i].at, f.players[p].at))
  {
    hide AimAt;
    if n > 0 {
      NearestIsNearest(f, i, humans, n - 1);
    }
  }

  /** A zombie that releases its shot fires toward a living human whom it has been
      winding up for and who still stands in its line of fire. */
  lemma ReleasedShotIsAimed(f: Field, i: nat, humans: set<nat>, whim: Whim)
    requires Sane(f) && i < SLOTS && f.players[i].plan.windup
    ensures var c, target := ZombieChoice(f, i, humans, whim), f.players[i].plan.target;
      Trigger(c.action) <==> whim.release && AimAt(f, i, humans, target).Direction?
    ensures var c, target := ZombieChoice(f, i, humans, whim), f.players[i].plan.target;
      Trigger(c.action) ==>
        && LivingHuman(f, humans, target) && !c.plan.windup && !c.mayMove
        && exists dir: nat :: dir < 4 && InLine(f.bricks, f.players[i].at, f.players[target].at, dir)
             && HeadingOf(c.action) == HeadingOf(StickFromDir(dir))
  {
    hide InLine, AimAt;
    var target := f.players[i].plan.target;
    AimIsLineOfFire(f, i, humans, target);
    var aim := AimAt(f, i, humans, target);
    if aim.Direction? {
      FiringKeepsStick(aim.dir);
    }
  }

  lemma FiringKeepsStick(dir: nat)
    requires dir < 4
    ensures StickFromDir(dir) < 16 && Trigger(Firing(StickFromDir(dir)))
    ensures HeadingOf(Firing(StickFromDir(dir))) == HeadingOf(StickFromDir(dir))
  {
  }
}
