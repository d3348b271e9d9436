/** The part of a room that combat changes, and the loops that change it. Each
    method is proved to compute the corresponding function of module Arena. */
module Board {
  import opened Bytes
  import opened Grid
  import opened Arena
  import opened ArenaSafety
  import Spawn

  const ECHO_MAX := 8
  const ECHO_REPEATS := 2

  /** A removed brick still to be announced again, on later ticks. */
  datatype Echo = Echo(cell: Cell, left: nat)

  const NO_ECHO := Echo(Cell(0, 0), 0)

  class Board {
    var field: Field
    var echoes: seq<Echo>
    /** Whose point ended the round. */
    var winner: nat

    ghost predicate Won(limit: nat)
      requires Sane(field)
      reads this
    {
      winner < SLOTS && field.players[winner].score == limit
    }

    /** Every pending echo names a cell whose brick is gone. */
    ghost predicate EchoesOk()
      reads this
    {
      |echoes| == ECHO_MAX && forall i :: 0 <= i < ECHO_MAX && echoes[i].left > 0 ==> echoes[i].cell !in field.bricks
    }

    ghost predicate Valid()
      reads this
    {
      Sane(field) && EchoesOk()
    }

    constructor (field: Field)
      requires Sane(field)
      ensures Valid() && this.field == field
    {
      this.field := field;
      echoes := seq(ECHO_MAX, _ => NO_ECHO);
      winner := NOBODY;
    }

    // --- Brick echoes ---------------------------------------------------------------

    /** The echo already pending for this cell is renewed; otherwise a spare place is
        taken, or, when there is none, the first. */
    method QueueEcho(cell: Cell) returns (place: nat)
      requires Valid() && cell !in field.bricks
      modifies this`echoes
      ensures Valid() && place < ECHO_MAX && echoes == old(echoes)[place := Echo(cell, ECHO_REPEATS)]
      ensures old(echoes)[place].left > 0 && old(echoes)[place].cell != cell ==>
        forall i :: 0 <= i < ECHO_MAX ==> old(echoes)[i].left > 0 && old(echoes)[i].cell != cell
    {
      var spare := -1;
      var i := 0;
      while i < ECHO_MAX
        invariant 0 <= i <= ECHO_MAX && -1 <= spare < i
        invariant spare >= 0 ==> echoes[spare].left == 0
        invariant forall j :: 0 <= j < i ==>
          (echoes[j].left > 0 && echoes[j].cell != cell) || (echoes[j].left == 0 && spare >= 0)
      {
        if echoes[i].left > 0 && echoes[i].cell == cell {
          echoes := echoes[i := echoes[i].(left := ECHO_REPEATS)];
          return i;
        }
        if spare < 0 && echoes[i].left == 0 {
          spare := i;
        }
        i := i + 1;
      }
      place := if spare < 0 then 0 else spare;
      echoes := echoes[place := Echo(cell, ECHO_REPEATS)];
    }

    /** At most one echo a tick: the first that is pending. */
    method FlushEcho() returns (sent: Option<Cell>)
      requires Valid()
      modifies this`echoes
      ensures Valid()
      ensures sent.Some? ==> sent.value !in field.bricks
      ensures sent.Some? ==>
        (exists i :: 0 <= i < ECHO_MAX && old(echoes)[i].left > 0 && old(echoes)[i].cell == sent.value &&
          echoes == old(echoes)[i := old(echoes)[i].(left := old(echoes)[i].left - 1)])
      ensures sent.None? ==> echoes == old(echoes) && forall i :: 0 <= i < ECHO_MAX ==> echoes[i].left == 0
    {
      var i := 0;
      while i < ECHO_MAX
        invariant 0 <= i <= ECHO_MAX
        invariant forall j :: 0 <= j < i ==> echoes[j].left == 0
      {
        if echoes[i].left > 0 {
          sent := Some(echoes[i].cell);
          echoes := echoes[i := echoes[i].(left := echoes[i].left - 1)];
          return;
        }
        i := i + 1;
      }
      return None;
    }

    /** clear_brick, its echo, and its announcement. */
    method BreakBrick(c: Cell)
      requires Valid()
      modifies this`field, this`echoes
      ensures Valid() && field == Break(old(field), c)
    {
      field := field.(bricks := field.bricks - {c});
      var _ := QueueEcho(c);
      field := field.(broken := field.broken + [c]);
    }

    // --- Hits ----------------------------------------------------------------------------

    /** award_score: true when this point ends the round, which it then freezes. */
    method AwardScore(shooter: nat, limit: nat) returns (ended: bool)
      requires Valid() && shooter < SLOTS
      modifies this
      ensures Valid()
      ensures ended == (Scored(old(field), shooter, limit).players[shooter].score >= limit)
      ensures ended ==> winner == shooter && Won(limit)
      ensures field == if ended then Settled(Scored(old(field), shooter, limit)) else Scored(old(field), shooter, limit)
    {
      var p := field.players[shooter];
      if p.score < limit {
        p := p.(score := p.score + 1);
      }
      field := field.(players := field.players[shooter := p]);
      if p.score >= limit {
        p := p.(score := limit);
        field := field.(players := field.players[shooter := p]);
        assert field == Scored(old(field), shooter, limit);
        winner := shooter;
        Settle();
        return true;
      }
      assert field == Scored(old(field), shooter, limit);
      return false;
    }

    /** The board's share of the end of a round. */
    method Settle()
      requires Valid()
      modifies this`field, this`echoes
      ensures Valid() && field == Settled(old(field))
      ensures forall i :: 0 <= i < ECHO_MAX ==> echoes[i] == NO_ECHO
    {
      ghost var was := field;
      field := field.(shots := seq(SLOTS, _ => NO_SHOT));
      echoes := seq(ECHO_MAX, _ => NO_ECHO);
      var i := 0;
      while i < SLOTS
        invariant 0 <= i <= SLOTS && Valid()
        invariant forall j :: 0 <= j < ECHO_MAX ==> echoes[j] == NO_ECHO
        invariant field == was.(shots := seq(SLOTS, _ => NO_SHOT), players := field.players)
        invariant forall j :: 0 <= j < SLOTS ==>
          field.players[j] == if j < i then was.players[j].(joy := NEUTRAL) else was.players[j]
      {
        field := field.(players := field.players[i := field.players[i].(joy := NEUTRAL)]);
        i := i + 1;
      }
      assert field == Settled(was);
    }

    /** A hit: the point, and, unless it ends the round, the victim's fall. */
    method Hit(shooter: nat, victim: nat, now: nat, limit: nat) returns (ended: bool)
      requires Valid() && shooter < SLOTS && victim < SLOTS
      modifies this
      ensures Valid()
      ensures Result(field, ended) == Strike(old(field), shooter, victim, now, limit)
      ensures ended ==> winner == shooter && Won(limit)
    {
      ended := AwardScore(shooter, limit);
      if ended {
        return;
      }
      var p := field.players[victim].(respawnAt := now + RESPAWN_MS);
      field := field.(players := field.players[victim := p]);
    }

    // --- Firing and moving ---------------------------------------------------------------

    method StartShot(shooter: nat, joy: byte, now: nat, limit: nat) returns (ended: bool)
      requires Valid() && shooter < SLOTS
      modifies this
      ensures Valid()
      ensures Result(field, ended) == Fire(old(field), shooter, joy, now, limit)
      ensures ended ==> Won(limit)
    {
      hide Strike;
      if field.players[shooter].respawnAt != 0 {
        return false;
      }
      if field.shots[shooter].active {
        return false;
      }
      var heading := HeadingOf(joy);
      if !Trigger(joy) || heading.Still? {
        return false;
      }
      var c := Beside(field.players[shooter].at, heading.dx, heading.dy);
      if IsBrick(field.bricks, c) {
        if !OuterWall(c) {
          BreakBrick(c);
        }
        return false;
      }
      var taken := Spawn.IsPlayerAt(field, c, shooter);
      ghost var f := field;
      FirstVictim(f, c, shooter);
      if taken {
        var p := 0;
        while p < SLOTS
          invariant 0 <= p <= SLOTS && Valid() && field == f
          invariant forall q: nat :: q < p && q != shooter ==> !Stands(f, q, c)
        {
          if p != shooter && OnBoard(field, p) && field.players[p].at == c {
            VictimIsFirst(f, c, shooter, p);
            ended := Hit(shooter, p, now, limit);
            return;
          }
          p := p + 1;
        }
        return false;
      }
      field := field.(shots := field.shots[shooter := Shot(true, c, heading.dx, heading.dy, 0)]);
      return false;
    }

    method ApplyMoveIfFree(i: nat)
      requires Valid() && i < SLOTS
      modifies this`field
      ensures Valid() && field == Moved(old(field), i)
    {
      var p := field.players[i];
      var heading := HeadingOf(p.joy);
      if heading.Still? {
        return;
      }
      var nx, ny := p.at.x + heading.dx, p.at.y + heading.dy;
      if nx < 0 {
        nx := 0;
      }
      if nx > 19 {
        nx := 19;
      }
      if ny < 0 {
        ny := 0;
      }
      if ny > 18 {
        ny := 18;
      }
      var taken := Spawn.IsPlayerAt(field, Cell(nx, ny), i);
      if !IsBrick(field.bricks, Cell(nx, ny)) && !taken {
        field := field.(players := field.players[i := p.(at := Cell(nx, ny))]);
      }
    }

    // --- Zombies ----------------------------------------------------------------------------

    method ClearRowShot(y: int, x0: int, x1: int) returns (clear: bool)
      ensures clear == ClearRow(field.bricks, y, x0, x1)
    {
      if x0 == x1 {
        return true;
      }
      var step := if x1 > x0 then 1 else -1;
      var x := x0 + step;
      while x != x1
        invariant if step == 1 then x0 < x <= x1 else x1 <= x < x0
        invariant forall k :: (if step == 1 then x0 < k < x else x < k < x0) ==> !IsBrick(field.bricks, Cell(k, y))
        decreases Abs(x1 - x)
      {
        if IsBrick(field.bricks, Cell(x, y)) {
          return false;
        }
        x := x + step;
      }
      return true;
    }

    method ClearColumnShot(x: int, y0: int, y1: int) returns (clear: bool)
      ensures clear == ClearColumn(field.bricks, x, y0, y1)
    {
      if y0 == y1 {
        return true;
      }
      var step := if y1 > y0 then 1 else -1;
      var y := y0 + step;
      while y != y1
        invariant if step == 1 then y0 < y <= y1 else y1 <= y < y0
        invariant forall k :: (if step == 1 then y0 < k < y else y < k < y0) ==> !IsBrick(field.bricks, Cell(x, k))
        decreases Abs(y1 - y)
      {
        if IsBrick(field.bricks, Cell(x, y)) {
          return false;
        }
        y := y + step;
      }
      return true;
    }

    /** zombie_shot_target_valid: the direction in which the target can be shot, if any. */
    method ShotDirection(i: nat, humans: set<nat>, target: nat) returns (aim: Aim)
      requires Valid() && i < SLOTS
      ensures aim == AimAt(field, i, humans, target)
    {
      if target >= SLOTS || target !in humans || field.players[target].respawnAt != 0 {
        return NoAim;
      }
      var z, h := field.players[i].at, field.players[target].at;
      if h.y == z.y {
        var clear := ClearRowShot(z.y, z.x, h.x);
        if clear {
          return Direction(if h.x > z.x then 0 else 2);
        }
      }
      if h.x == z.x {
        var clear := ClearColumnShot(z.x, z.y, h.y);
        if clear {
          return Direction(if h.y > z.y then 1 else 3);
        }
      }
      return NoAim;
    }

    method FindShotTarget(i: nat, humans: set<nat>) returns (best: nat, aim: Aim)
      requires Valid() && i < SLOTS
      ensures best == Nearest(field, i, humans, SLOTS)
      ensures aim == if best == NOBODY then NoAim else AimAt(field, i, humans, best)
    {
      hide AimAt;
      best, aim := NOBODY, NoAim;
      var bestDistance := 0;
      var p := 0;
      while p < SLOTS
        invariant 0 <= p <= SLOTS && best == Nearest(field, i, humans, p)
        invariant best == NOBODY ==> aim == NoAim
        invariant best != NOBODY ==>
          best < SLOTS && aim == AimAt(field, i, humans, best)
          && bestDistance == Distance(field.players[i].at, field.players[best].at)
      {
        if p != i {
          var a := ShotDirection(i, humans, p);
          var distance := Distance(field.players[i].at, field.players[p].at);
          if a.Direction? && (best == NOBODY || distance < bestDistance) {
            best, aim, bestDistance := p, a, distance;
          }
        }
        p := p + 1;
      }
    }

    /** The zombie's part of a slot's turn: a plan, a stick, perhaps a trigger. */
    method ZombieTurn(i: nat, humans: set<nat>, whim: Whim) returns (action: byte, mayMove: bool)
      requires Valid() && i < SLOTS
      modifies this`field
      ensures Valid()
      ensures var c := ZombieChoice(old(field), i, humans, whim);
        && action == c.action && mayMove == c.mayMove
        && field == WithPlayer(old(field), i, old(field).players[i].(joy := c.joy, plan := c.plan))
    {
      hide AimAt, Nearest, BreakableAhead;
      var zombie := field.players[i];
      action, mayMove := NEUTRAL, false;
      if zombie.plan.windup {
        var aim := ShotDirection(i, humans, zombie.plan.target);
        if aim.NoAim? {
          zombie := zombie.(plan := zombie.plan.(windup := false, target := NOBODY));
        } else if whim.release {
          action := Firing(StickFromDir(aim.dir));
          zombie := zombie.(plan := zombie.plan.(windup := false, target := NOBODY));
        }
      } else {
        var target, aim := FindShotTarget(i, humans);
        if !field.shots[i].active && whim.ready && target != NOBODY {
          zombie := zombie.(plan := zombie.plan.(windup := true, target := target), joy := StickFromDir(aim.dir));
        } else if zombie.plan.brickPending {
          var stick := StickFromDir(zombie.plan.brickDir);
          zombie := zombie.(plan := zombie.plan.(brickPending := false));
          if !field.shots[i].active && BreakableAhead(field, i, stick) {
            action := Firing(stick);
            zombie := zombie.(joy := stick);
          }
        } else if whim.moves {
          action := StickFromDir(whim.dir);
          zombie := zombie.(joy := action);
          mayMove := true;
        }
      }
      field := field.(players := field.players[i := zombie]);
    }

    // --- The tick ------------------------------------------------------------------------------

    /** One slot's turn in step_players. */
    method TakeTurn(i: nat, t: Turn) returns (ended: bool)
      requires Valid() && i < SLOTS && TurnOk(t)
      modifies this
      ensures Valid()
      ensures Result(field, ended) == Act(old(field), i, t)
      ensures ended ==> Won(t.limit)
    {
      hide Fire, Moved, ZombieChoice, BreakableAhead;
      ghost var f := field;
      if i !in t.zombies && i in t.stale {
        field := field.(players := field.players[i := field.players[i].(joy := NEUTRAL)]);
      }
      if field.players[i].respawnAt != 0 {
        return false;
      }
      var action, mayMove := field.players[i].joy, true;
      if i in t.zombies {
        action, mayMove := ZombieTurn(i, t.humans, t.whims[i]);
      }
      ghost var choice := ChoiceOf(f, i, t);
      assert field == WithPlayer(f, i, f.players[i].(joy := choice.joy, plan := choice.plan));
      ended := StartShot(i, action, t.now, t.limit);
      if ended {
        return;
      }
      if mayMove && !(Trigger(action) && action % 16 != 0x0F) {
        var before := field.players[i].at;
        ApplyMoveIfFree(i);
        var p := field.players[i];
        if i in t.zombies && p.at == before && BreakableAhead(field, i, action)
           && !p.plan.brickPending && !field.shots[i].active && t.whims[i].plansBrick {
          p := p.(plan := p.plan.(brickPending := true, brickDir := t.whims[i].dir));
          field := field.(players := field.players[i := p]);
        }
      }
    }

    method StepShots(before: seq<Cell>, now: nat, limit: nat) returns (ended: bool)
      requires Valid() && |before| == SLOTS
      modifies this
      ensures Valid()
      ensures var flown := ShotsFrom(old(field), 0, before, now, limit);
        Result(field, ended) == if flown.ended then flown else Result(Faded(flown.field), false)
      ensures ended ==> Won(limit)
    {
      hide StepShot;
      ghost var f := field;
      ended := false;
      var i := 0;
      while i < SLOTS
        invariant 0 <= i <= SLOTS && Valid()
        invariant ShotsFrom(f, 0, before, now, limit) == ShotsFrom(field, i, before, now, limit)
      {
        ended := StepOneShot(i, before, now, limit);
        if ended {
          return;
        }
        i := i + 1;
      }
      Fade();
    }

    method Fade()
      requires Valid()
      modifies this`field
      ensures Valid() && field == Faded(old(field))
    {
      ghost var f := field;
      var i := 0;
      while i < SLOTS
        invariant 0 <= i <= SLOTS && Valid()
        invariant field == f.(shots := field.shots)
        invariant forall j :: 0 <= j < SLOTS ==> field.shots[j] == if j < i then Faded(f).shots[j] else f.shots[j]
      {
        if field.shots[i].clearBurst > 0 {
          var s := field.shots[i].(clearBurst := field.shots[i].clearBurst - 1);
          field := field.(shots := field.shots[i := s]);
        }
        i := i + 1;
      }
      assert field.shots == Faded(f).shots;
    }

    method RetireShot(i: nat)
      requires Valid() && i < SLOTS
      modifies this`field
      ensures Valid() && field == Retire(old(field), i)
    {
      field := field.(shots := field.shots[i := field.shots[i].(active := false, clearBurst := CLEAR_BURST)]);
    }

    /** The body of the loop over shots. */
    method StepOneShot(i: nat, before: seq<Cell>, now: nat, limit: nat) returns (ended: bool)
      requires Valid() && i < SLOTS && |before| == SLOTS
      modifies this
      ensures Valid()
      ensures Result(field, ended) == StepShot(old(field), i, before, now, limit)
      ensures ended ==> Won(limit)
    {
      hide Strike, HitBy;
      ghost var f := field;
      var s := field.shots[i];
      if !s.active {
        return false;
      }
      var n := Beside(s.at, s.dx, s.dy);
      if !InBounds(n) {
        RetireShot(i);
        return false;
      }
      var p := 0;
      while p < SLOTS
        invariant 0 <= p <= SLOTS && Valid() && field == f
        invariant ShotVictim(f, i, n, before, 0) == ShotVictim(f, i, n, before, p)
      {
        if p != i {
          var hit := IsHit(s, n, p, before);
          if hit {
            ended := Hit(i, p, now, limit);
            if !ended {
              RetireShot(i);
            }
            return;
          }
        }
        p := p + 1;
      }
      if IsBrick(field.bricks, n) {
        if !OuterWall(n) {
          BreakBrick(n);
        }
        RetireShot(i);
        return false;
      }
      field := field.(shots := field.shots[i := s.(at := n)]);
      return false;
    }

    /** The destination test and the swept test. */
    method IsHit(s: Shot, n: Cell, p: nat, before: seq<Cell>) returns (hit: bool)
      requires Valid() && p < SLOTS && |before| == SLOTS
      ensures hit == HitBy(field, s, n, p, before)
    {
      if !OnBoard(field, p) {
        return false;
      }
      var hitDestination := field.players[p].at == n;
      var hitSwept := field.players[p].at == s.at && before[p] != field.players[p].at;
      hit := hitDestination || hitSwept;
    }

    /** Everybody's turn, then the shots; nothing follows the hit that ends the round. */
    method Fight(t: Turn) returns (ended: bool)
      requires Valid() && TurnOk(t)
      modifies this
      ensures Valid()
      ensures Result(field, ended) == Combat(old(field), t)
      ensures ended ==> Won(t.limit)
    {
      hide Act, ShotsFrom, Faded;
      ghost var f := field;
      var before := seq(SLOTS, i requires 0 <= i < SLOTS && Valid() reads this => field.players[i].at);
      assert before == Positions(f);
      ended := false;
      var i := 0;
      while i < SLOTS
        invariant 0 <= i <= SLOTS && Valid()
        invariant ActFrom(f, 0, t) == ActFrom(field, i, t)
      {
        ended := TakeTurn(i, t);
        if ended {
          return;
        }
        i := i + 1;
      }
      ended := StepShots(before, t.now, t.limit);
    }
  }

  lemma FirstVictim(f: Field, c: Cell, shooter: nat)
    requires Sane(f) && shooter < SLOTS
    ensures PlayerAt(f, c, shooter) <==> VictimAt(f, c, shooter, 0) < SLOTS
  {
    VictimStands(f, c, shooter, 0);
  }

  lemma VictimIsFirst(f: Field, c: Cell, shooter: nat, p: nat)
    requires Sane(f) && p < SLOTS && p != shooter && Stands(f, p, c)
    requires forall q: nat :: q < p && q != shooter ==> !Stands(f, q, c)
    ensures VictimAt(f, c, shooter, 0) == p
  {
    VictimStands(f, c, shooter, 0);
  }
}
