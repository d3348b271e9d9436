/** What a tick of combat keeps, and what it cannot do. */
module ArenaSafety {
  import opened Bytes
  import opened Grid
  import opened Arena

  // --- Invariants of the field -------------------------------------------------------

  /** Actors on the board stand on distinct open cells. */
  ghost predicate Placed(f: Field)
    requires Sane(f)
  {
    && (forall i: nat :: OnBoard(f, i) ==> !IsBrick(f.bricks, f.players[i].at))
    && (forall i: nat, j: nat :: i != j && OnBoard(f, i) && OnBoard(f, j) ==> f.players[i].at != f.players[j].at)
  }

  ghost predicate ShotOk(s: Shot, bricks: set<Cell>) {
    s.active ==> !IsBrick(bricks, s.at) && Abs(s.dx) + Abs(s.dy) == 1
  }

  ghost predicate ShotsOk(f: Field)
    requires Sane(f)
  {
    forall i :: 0 <= i < SLOTS ==> ShotOk(f.shots[i], f.bricks)
  }

  ghost predicate InField(f: Field)
    requires Sane(f)
  {
    forall i :: 0 <= i < SLOTS ==> InBounds(f.players[i].at)
  }

  ghost predicate Below(f: Field, limit: nat)
    requires Sane(f)
  {
    forall i :: 0 <= i < SLOTS ==> f.players[i].score < limit
  }

  function CellsOf(s: seq<Cell>): set<Cell> {
    set c | c in s
  }

  /** The announcements account for every brick the round has lost. */
  ghost predicate Ledger(baseline: set<Cell>, f: Field) {
    f.bricks == baseline - CellsOf(f.broken)
  }

  /** Everything that holds of the field while a round is being played. */
  ghost predicate FieldInv(f: Field, baseline: set<Cell>, limit: nat) {
    Sane(f) && ShotsOk(f) && InField(f) && Ledger(baseline, f) && Below(f, limit)
  }

  /** What is left of it once the round has ended. */
  ghost predicate EndedInv(f: Field, baseline: set<Cell>, limit: nat) {
    && Sane(f) && InField(f) && Ledger(baseline, f)
    && (forall i :: 0 <= i < SLOTS ==> f.players[i].score <= limit && !f.shots[i].active)
    && (exists w :: 0 <= w < SLOTS && f.players[w].score == limit
          && forall i :: 0 <= i < SLOTS && i != w ==> f.players[i].score < limit)
  }

  ghost predicate ResultInv(r: Result, baseline: set<Cell>, limit: nat) {
    if r.ended then EndedInv(r.field, baseline, limit) else FieldInv(r.field, baseline, limit)
  }

  // --- Accounts ---------------------------------------------------------------------------

  function TotalScore(f: Field): nat
    requires Sane(f)
  {
    f.players[0].score + f.players[1].score + f.players[2].score + f.players[3].score
  }

  function One(b: bool): nat {
    if b then 1 else 0
  }

  function DownCount(f: Field): nat
    requires Sane(f)
  {
    One(f.players[0].respawnAt != 0) + One(f.players[1].respawnAt != 0) +
    One(f.players[2].respawnAt != 0) + One(f.players[3].respawnAt != 0)
  }

  /** From f to g every point scored stands for one actor sent down; a hit that
      ends the round scores its point and sends nobody down. */
  predicate Accounted(f: Field, g: Field, ended: bool)
    requires Sane(f) && Sane(g)
  {
    TotalScore(g) - TotalScore(f) == DownCount(g) - DownCount(f) + One(ended)
  }

  /** What no part of combat changes, and the only ways the rest may change. */
  ghost predicate Onward(f: Field, g: Field)
    requires Sane(f) && Sane(g)
  {
    && g.occupied == f.occupied && f.broken <= g.broken && g.bricks <= f.bricks
    && (forall i :: 0 <= i < SLOTS ==> f.players[i].score <= g.players[i].score)
    && (forall i :: 0 <= i < SLOTS && f.players[i].respawnAt != 0 ==>
          g.players[i].respawnAt == f.players[i].respawnAt && g.players[i].at == f.players[i].at)
  }

  ghost predicate Kept(f: Field, r: Result, baseline: set<Cell>, limit: nat)
    requires Sane(f) && Sane(r.field)
  {
    && ResultInv(r, baseline, limit) && Onward(f, r.field) && Accounted(f, r.field, r.ended)
    && (Placed(f) ==> Placed(r.field))
  }

  // --- Single effects -----------------------------------------------------------------------

  lemma BreakKeeps(f: Field, c: Cell, baseline: set<Cell>)
    requires Sane(f)
    ensures Placed(f) ==> Placed(Break(f, c))
    ensures ShotsOk(f) ==> ShotsOk(Break(f, c))
    ensures Ledger(baseline, f) ==> Ledger(baseline, Break(f, c))
  {
    var g := Break(f, c);
    assert forall i: nat :: OnBoard(g, i) <==> OnBoard(f, i);
    assert CellsOf(g.broken) == CellsOf(f.broken) + {c};
  }

  lemma TotalAfter(f: Field, i: nat, p: Player)
    requires Sane(f) && i < SLOTS
    ensures TotalScore(WithPlayer(f, i, p)) == TotalScore(f) - f.players[i].score + p.score
    ensures DownCount(WithPlayer(f, i, p)) == DownCount(f) - One(f.players[i].respawnAt != 0) + One(p.respawnAt != 0)
  {
  }

  lemma StrikeAccounts(f: Field, shooter: nat, victim: nat, now: nat, limit: nat)
    requires Sane(f) && Below(f, limit) && shooter < SLOTS && victim < SLOTS && shooter != victim
    requires f.players[victim].respawnAt == 0
    ensures var r := Strike(f, shooter, victim, now, limit); Accounted(f, r.field, r.ended) && Onward(f, r.field)
  {
    hide TotalScore, DownCount;
    var scored := Scored(f, shooter, limit);
    TotalAfter(f, shooter, scored.players[shooter]);
    if scored.players[shooter].score >= limit {
      SettledAccounts(scored);
    } else {
      TotalAfter(scored, victim, scored.players[victim].(respawnAt := now + RESPAWN_MS));
    }
  }

  lemma SettledAccounts(f: Field)
    requires Sane(f)
    ensures TotalScore(Settled(f)) == TotalScore(f) && DownCount(Settled(f)) == DownCount(f)
  {
  }

  lemma StrikeKeeps(f: Field, shooter: nat, victim: nat, now: nat, limit: nat, baseline: set<Cell>)
    requires FieldInv(f, baseline, limit) && shooter < SLOTS && victim < SLOTS && shooter != victim
    requires f.players[victim].respawnAt == 0
    ensures Kept(f, Strike(f, shooter, victim, now, limit), baseline, limit)
  {
    hide TotalScore, DownCount, Accounted, Onward;
    StrikeAccounts(f, shooter, victim, now, limit);
    var r := Strike(f, shooter, victim, now, limit);
    StrikePlacement(f, shooter, victim, now, limit);
    if r.ended {
      assert r.field.players[shooter].score == limit;
    }
  }

  lemma StrikePlacement(f: Field, shooter: nat, victim: nat, now: nat, limit: nat)
    requires Sane(f) && shooter < SLOTS && victim < SLOTS && shooter != victim
    ensures Placed(f) ==> Placed(Strike(f, shooter, victim, now, limit).field)
  {
    var g := Strike(f, shooter, victim, now, limit).field;
    assert forall i: nat :: OnBoard(g, i) ==> OnBoard(f, i) && g.players[i].at == f.players[i].at;
  }

  lemma VictimStands(f: Field, c: Cell, shooter: nat, from: nat)
    requires Sane(f) && from <= SLOTS
    ensures var v := VictimAt(f, c, shooter, from);
      if v < SLOTS then v != shooter && Stands(f, v, c) && from <= v
      else v == NOBODY && forall i: nat :: from <= i < SLOTS && i != shooter ==> !Stands(f, i, c)
    decreases SLOTS - from
  {
    if from < SLOTS {
      VictimStands(f, c, shooter, from + 1);
    }
  }

  lemma HeadingIsUnit(joy: byte)
    ensures HeadingOf(joy).Toward? ==> Abs(HeadingOf(joy).dx) + Abs(HeadingOf(joy).dy) == 1
  {
  }

  lemma FireKeeps(f: Field, i: nat, joy: byte, now: nat, limit: nat, baseline: set<Cell>)
    requires FieldInv(f, baseline, limit) && i < SLOTS
    ensures Kept(f, Fire(f, i, joy, now, limit), baseline, limit)
  {
    hide Strike, FieldInv, ResultInv, Placed, Onward, Accounted;
    NothingKept(f, baseline, limit);
    var p, heading := f.players[i], HeadingOf(joy);
    if p.respawnAt == 0 && !f.shots[i].active && Trigger(joy) && heading.Toward? {
      var c := Beside(p.at, heading.dx, heading.dy);
      HeadingIsUnit(joy);
      if IsBrick(f.bricks, c) {
        BrokenKeeps(f, c, baseline, limit);
      } else {
        VictimStands(f, c, i, 0);
        var victim := VictimAt(f, c, i, 0);
        if victim < SLOTS {
          StrikeKeeps(f, i, victim, now, limit, baseline);
        } else {
          LaunchKeeps(f, i, Shot(true, c, heading.dx, heading.dy, 0), baseline, limit);
        }
      }
    }
  }

  lemma NothingKept(f: Field, baseline: set<Cell>, limit: nat)
    requires FieldInv(f, baseline, limit)
    ensures Sane(f) && Kept(f, Result(f, false), baseline, limit)
  {
  }

  lemma BrokenKeeps(f: Field, c: Cell, baseline: set<Cell>, limit: nat)
    requires FieldInv(f, baseline, limit)
    ensures Kept(f, Result(Break(f, c), false), baseline, limit)
  {
    BreakKeeps(f, c, baseline);
  }

  lemma LaunchKeeps(f: Field, i: nat, s: Shot, baseline: set<Cell>, limit: nat)
    requires FieldInv(f, baseline, limit) && i < SLOTS && ShotOk(s, f.bricks)
    ensures Kept(f, Result(WithShot(f, i, s), false), baseline, limit)
  {
    var g := WithShot(f, i, s);
    assert forall j: nat :: OnBoard(g, j) <==> OnBoard(f, j);
  }

  /** An actor steps to a neighbouring open cell where nobody stands, or stays. */
  lemma MovedKeeps(f: Field, i: nat, baseline: set<Cell>, limit: nat)
    requires FieldInv(f, baseline, limit) && i < SLOTS && f.players[i].respawnAt == 0
    ensures Kept(f, Result(Moved(f, i), false), baseline, limit)
    ensures var g := Moved(f, i);
      && Distance(f.players[i].at, g.players[i].at) <= 1
      && (g.players[i].at != f.players[i].at ==> !IsBrick(f.bricks, g.players[i].at) && !PlayerAt(f, g.players[i].at, i))
  {
    var g := Moved(f, i);
    HeadingIsUnit(f.players[i].joy);
    assert forall j: nat :: OnBoard(g, j) <==> OnBoard(f, j);
    if g != f && Placed(f) {
      var n := g.players[i].at;
      forall j: nat | j != i && OnBoard(g, j)
        ensures g.players[j].at != n
      {
        assert Stands(f, j, f.players[j].at);
      }
    }
  }

  lemma RewiredKeeps(f: Field, i: nat, joy: byte, plan: Plan, baseline: set<Cell>, limit: nat)
    requires FieldInv(f, baseline, limit) && i < SLOTS
    ensures var g := WithPlayer(f, i, f.players[i].(joy := joy, plan := plan));
      FieldInv(g, baseline, limit) && Kept(f, Result(g, false), baseline, limit)
  {
    var g := WithPlayer(f, i, f.players[i].(joy := joy, plan := plan));
    assert forall j: nat :: OnBoard(g, j) <==> OnBoard(f, j);
  }

  lemma Chained(f: Field, g: Field, h: Field, ended: bool)
    requires Sane(f) && Sane(g) && Sane(h)
    requires Onward(f, g) && Onward(g, h) && Accounted(f, g, false) && Accounted(g, h, ended)
    ensures Onward(f, h) && Accounted(f, h, ended)
  {
  }

  // --- One actor, all actors ----------------------------------------------------------------------

  lemma KeptChained(f: Field, g: Field, r: Result, baseline: set<Cell>, limit: nat)
    requires Sane(f) && Sane(g) && Sane(r.field)
    requires Kept(f, Result(g, false), baseline, limit) && Kept(g, r, baseline, limit)
    ensures Kept(f, r, baseline, limit)
  {
    hide ResultInv, Placed;
    Chained(f, g, r.field, r.ended);
  }

  lemma FireMovesNobody(f: Field, i: nat, joy: byte, now: nat, limit: nat, baseline: set<Cell>)
    requires FieldInv(f, baseline, limit) && i < SLOTS && f.players[i].respawnAt == 0
    ensures Fire(f, i, joy, now, limit).field.players[i].respawnAt == 0
    ensures forall j :: 0 <= j < SLOTS ==> Fire(f, i, joy, now, limit).field.players[j].at == f.players[j].at
  {
    var heading := HeadingOf(joy);
    if heading.Toward? {
      VictimStands(f, Beside(f.players[i].at, heading.dx, heading.dy), i, 0);
    }
  }

  lemma ReplannedKeeps(before: Field, after: Field, i: nat, t: Turn, action: byte, baseline: set<Cell>)
    requires Sane(before) && FieldInv(after, baseline, t.limit) && i < SLOTS && TurnOk(t)
    ensures Kept(after, Result(Replanned(before, after, i, t, action), false), baseline, t.limit)
  {
    var p := after.players[i];
    RewiredKeeps(after, i, p.joy, p.plan.(brickPending := true, brickDir := t.whims[i].dir), baseline, t.limit);
    NothingKept(after, baseline, t.limit);
  }

  lemma ActKeeps(f: Field, i: nat, t: Turn, baseline: set<Cell>)
    requires FieldInv(f, baseline, t.limit) && i < SLOTS && TurnOk(t)
    ensures Kept(f, Act(f, i, t), baseline, t.limit)
  {
    hide Fire, Moved, Replanned, ChoiceOf, FieldInv, Placed, Onward, Accounted;
    SaneInv(f, baseline, t.limit);
    var p := f.players[i];
    NothingKept(f, baseline, t.limit);
    if p.respawnAt != 0 {
      RewiredKeeps(f, i, NEUTRAL, p.plan, baseline, t.limit);
    } else {
      var choice := ChoiceOf(f, i, t);
      var ready := WithPlayer(f, i, p.(joy := choice.joy, plan := choice.plan));
      RewiredKeeps(f, i, choice.joy, choice.plan, baseline, t.limit);
      var fired := Fire(ready, i, choice.action, t.now, t.limit);
      FireKeeps(ready, i, choice.action, t.now, t.limit, baseline);
      FireMovesNobody(ready, i, choice.action, t.now, t.limit, baseline);
      KeptChained(f, ready, fired, baseline, t.limit);
      if !fired.ended {
        assert fired == Result(fired.field, false);
        MovedKeeps(fired.field, i, baseline, t.limit);
        var moved := Moved(fired.field, i);
        ReplannedKeeps(fired.field, moved, i, t, choice.action, baseline);
        KeptChained(f, fired.field, Result(moved, false), baseline, t.limit);
        KeptChained(f, moved, Result(Replanned(fired.field, moved, i, t, choice.action), false), baseline, t.limit);
      }
    }
  }

  lemma SaneInv(f: Field, baseline: set<Cell>, limit: nat)
    requires FieldInv(f, baseline, limit)
    ensures Sane(f)
  {
  }

  lemma {:induction false} ActorsKeep(f: Field, i: nat, t: Turn, baseline: set<Cell>)
    requires FieldInv(f, baseline, t.limit) && i <= SLOTS && TurnOk(t)
    ensures Kept(f, ActFrom(f, i, t), baseline, t.limit)
    decreases SLOTS - i
  {
    hide Act, FieldInv, Placed, Onward, Accounted;
    SaneInv(f, baseline, t.limit);
    NothingKept(f, baseline, t.limit);
    if i < SLOTS {
      ActKeeps(f, i, t, baseline);
      var r := Act(f, i, t);
      if !r.ended {
        ActorsKeep(r.field, i + 1, t, baseline);
        KeptChained(f, r.field, ActFrom(r.field, i + 1, t), baseline, t.limit);
      }
    }
  }

  // --- Shots ---------------------------------------------------------------------------------------

  /** The cell a shot is about to enter. */
  function Ahead(s: Shot): Cell {
    Beside(s.at, s.dx, s.dy)
  }

  lemma ShotVictimIsHit(f: Field, i: nat, n: Cell, before: seq<Cell>, from: nat)
    requires Sane(f) && i < SLOTS && |before| == SLOTS && from <= SLOTS
    ensures var v := ShotVictim(f, i, n, before, from);
      if v < SLOTS then from <= v && v != i && HitBy(f, f.shots[i], n, v, before)
      else v == NOBODY && forall p: nat :: from <= p < SLOTS && p != i ==> !HitBy(f, f.shots[i], n, p, before)
    decreases SLOTS - from
  {
    if from < SLOTS {
      ShotVictimIsHit(f, i, n, before, from + 1);
    }
  }

  lemma StepShotKeeps(f: Field, i: nat, before: seq<Cell>, now: nat, limit: nat, baseline: set<Cell>)
    requires FieldInv(f, baseline, limit) && i < SLOTS && |before| == SLOTS
    ensures Kept(f, StepShot(f, i, before, now, limit), baseline, limit)
  {
    hide Strike, FieldInv, Placed, Onward, Accounted;
    NothingKept(f, baseline, limit);
    var s := f.shots[i];
    var n := Ahead(s);
    if s.active {
      ShotVictimIsHit(f, i, n, before, 0);
      var victim := ShotVictim(f, i, n, before, 0);
      if !InBounds(n) {
        RetireKeeps(f, i, baseline, limit);
      } else if victim < SLOTS {
        StrikeKeeps(f, i, victim, now, limit, baseline);
        var struck := Strike(f, i, victim, now, limit);
        if !struck.ended {
          assert struck == Result(struck.field, false);
          RetireKeeps(struck.field, i, baseline, limit);
          KeptChained(f, struck.field, Result(Retire(struck.field, i), false), baseline, limit);
        }
      } else if IsBrick(f.bricks, n) {
        var g := if OuterWall(n) then f else Break(f, n);
        BrokenKeeps(f, n, baseline, limit);
        RetireKeeps(g, i, baseline, limit);
        KeptChained(f, g, Result(Retire(g, i), false), baseline, limit);
      } else {
        ActiveShotOk(f, i, baseline, limit);
        LaunchKeeps(f, i, s.(at := n), baseline, limit);
      }
    }
  }

  lemma ActiveShotOk(f: Field, i: nat, baseline: set<Cell>, limit: nat)
    requires FieldInv(f, baseline, limit) && i < SLOTS && f.shots[i].active
    ensures ShotOk(f.shots[i], f.bricks)
  {
  }

  lemma RetireKeeps(f: Field, i: nat, baseline: set<Cell>, limit: nat)
    requires FieldInv(f, baseline, limit) && i < SLOTS
    ensures Kept(f, Result(Retire(f, i), false), baseline, limit)
  {
    LaunchKeeps(f, i, f.shots[i].(active := false, clearBurst := CLEAR_BURST), baseline, limit);
  }

  lemma {:induction false} ShotsKeep(f: Field, i: nat, before: seq<Cell>, now: nat, limit: nat, baseline: set<Cell>)
    requires FieldInv(f, baseline, limit) && i <= SLOTS && |before| == SLOTS
    ensures Kept(f, ShotsFrom(f, i, before, now, limit), baseline, limit)
    decreases SLOTS - i
  {
    hide StepShot, FieldInv, Placed, Onward, Accounted;
    NothingKept(f, baseline, limit);
    if i < SLOTS {
      StepShotKeeps(f, i, before, now, limit, baseline);
      var r := StepShot(f, i, before, now, limit);
      if !r.ended {
        ShotsKeep(r.field, i + 1, before, now, limit, baseline);
        KeptChained(f, r.field, ShotsFrom(r.field, i + 1, before, now, limit), baseline, limit);
      }
    }
  }

  lemma FadedKeeps(f: Field, baseline: set<Cell>, limit: nat)
    requires FieldInv(f, baseline, limit)
    ensures Kept(f, Result(Faded(f), false), baseline, limit)
  {
    var g := Faded(f);
    assert forall j: nat :: OnBoard(g, j) <==> OnBoard(f, j);
  }

  /** One tick of combat, for every field, every choice of dice and every set of
      zombies: shots and actors stay where they may be, the brick announcements
      account for every brick lost, and every point stands for one actor sent down. */
  lemma CombatKeeps(f: Field, t: Turn, baseline: set<Cell>)
    requires FieldInv(f, baseline, t.limit) && TurnOk(t)
    ensures Kept(f, Combat(f, t), baseline, t.limit)
  {
    hide ActFrom, ShotsFrom, Faded, FieldInv, Placed, Onward, Accounted;
    SaneInv(f, baseline, t.limit);
    ActorsKeep(f, 0, t, baseline);
    var acted := ActFrom(f, 0, t);
    if !acted.ended {
      assert acted == Result(acted.field, false);
      ShotsKeep(acted.field, 0, Positions(f), t.now, t.limit, baseline);
      var flown := ShotsFrom(acted.field, 0, Positions(f), t.now, t.limit);
      KeptChained(f, acted.field, flown, baseline, t.limit);
      if !flown.ended {
        assert flown == Result(flown.field, false);
        FadedKeeps(flown.field, baseline, t.limit);
        KeptChained(f, flown.field, Result(Faded(flown.field), false), baseline, t.limit);
      }
    }
  }

  // --- What one flight step means ------------------------------------------------------------------------

  /** Nobody but the shooter is where shot s goes, or has just swapped cells with it. */
  ghost predicate InTheClear(f: Field, s: Shot, i: nat, before: seq<Cell>)
    requires Sane(f) && |before| == SLOTS
  {
    forall p: nat :: p < SLOTS && p != i ==> !HitBy(f, s, Ahead(s), p, before)
  }

  /** What became of shot i, which was s when the shots began to move at field f. */
  ghost predicate Flown(f: Field, g: Field, i: nat, before: seq<Cell>)
    requires Sane(f) && Sane(g) && i < SLOTS && |before| == SLOTS
  {
    var s := f.shots[i];
    && (!s.active ==> !g.shots[i].active)
    && (g.shots[i].active ==> g.shots[i] == s.(at := Ahead(s)) && InTheClear(g, s, i, before))
    && (s.active && InBounds(Ahead(s)) && Ahead(s) !in f.bricks && InTheClear(f, s, i, before) ==> g.shots[i].active)
  }

  /** Shot i is in the air and p, not its shooter, is in its way. */
  ghost predicate Hits(f: Field, i: nat, p: nat, before: seq<Cell>)
    requires Sane(f) && i < SLOTS && p < SLOTS && |before| == SLOTS
  {
    i != p && f.shots[i].active && HitBy(f, f.shots[i], Ahead(f.shots[i]), p, before)
  }

  /** Actors stand still while shots fly, and leave the board only by being hit by an active shot. */
  ghost predicate OnlyHits(f: Field, g: Field, before: seq<Cell>)
    requires Sane(f) && Sane(g) && |before| == SLOTS
  {
    g.occupied == f.occupied &&
    forall p: nat :: p < SLOTS ==>
      && g.players[p].at == f.players[p].at
      && (g.players[p].respawnAt != f.players[p].respawnAt ==>
            f.players[p].respawnAt == 0 && g.players[p].respawnAt != 0 && exists i: nat :: i < SLOTS && Hits(f, i, p, before))
  }

  /** A field somewhere along the loop over shots: the first k have moved. */
  ghost predicate MidFlight(f: Field, g: Field, k: nat, before: seq<Cell>)
    requires Sane(f) && Sane(g) && k <= SLOTS && |before| == SLOTS
  {
    && (forall i: nat :: i < k ==> Flown(f, g, i, before))
    && (forall i: nat :: k <= i < SLOTS ==> g.shots[i] == f.shots[i])
    && OnlyHits(f, g, before) && g.bricks <= f.bricks
  }

  /** What a step of shot k does to everything but the score. */
  lemma StepShotEffect(g: Field, k: nat, before: seq<Cell>, now: nat, limit: nat)
    requires Sane(g) && k < SLOTS && |before| == SLOTS
    ensures var r := StepShot(g, k, before, now, limit);
      var s := g.shots[k];
      !r.ended ==>
        && (forall j :: 0 <= j < SLOTS && j != k ==> r.field.shots[j] == g.shots[j])
        && (forall p :: 0 <= p < SLOTS ==> r.field.players[p].at == g.players[p].at)
        && r.field.occupied == g.occupied && r.field.bricks <= g.bricks
        && (r.field.shots[k].active ==> s.active && r.field.shots[k] == s.(at := Ahead(s)) && InTheClear(g, s, k, before))
        && (s.active && InBounds(Ahead(s)) && Ahead(s) !in g.bricks && InTheClear(g, s, k, before) ==> r.field.shots[k].active)
        && (forall p: nat :: p < SLOTS && r.field.players[p].respawnAt != g.players[p].respawnAt ==>
              p != k && s.active && HitBy(g, s, Ahead(s), p, before) && r.field.players[p].respawnAt != 0)
  {
    hide Strike, HitBy, IsBrick;
    var s := g.shots[k];
    var n := Ahead(s);
    ShotVictimIsHit(g, k, n, before, 0);
    var victim := ShotVictim(g, k, n, before, 0);
    if victim < SLOTS {
      StrikeEffect(g, k, victim, now, limit);
    } else {
      assert IsBrick(g.bricks, n) <==> !InBounds(n) || n in g.bricks by { BrickMeans(g.bricks, n); }
    }
  }

  lemma BrickMeans(bricks: set<Cell>, c: Cell)
    ensures IsBrick(bricks, c) <==> !InBounds(c) || c in bricks
  {
  }

  lemma StrikeEffect(f: Field, shooter: nat, victim: nat, now: nat, limit: nat)
    requires Sane(f) && shooter < SLOTS && victim < SLOTS
    ensures var r := Strike(f, shooter, victim, now, limit);
      !r.ended ==>
        && r.field.shots == f.shots && r.field.occupied == f.occupied && r.field.bricks == f.bricks
        && (forall p :: 0 <= p < SLOTS ==> r.field.players[p].at == f.players[p].at)
        && (forall p :: 0 <= p < SLOTS && p != victim ==> r.field.players[p].respawnAt == f.players[p].respawnAt)
        && r.field.players[victim].respawnAt != 0
  {
  }

  /** Hits only ever shrink the set of those who can be hit. */
  lemma FewerToHit(f: Field, g: Field, s: Shot, n: Cell, p: nat, before: seq<Cell>)
    requires Sane(f) && Sane(g) && p < SLOTS && |before| == SLOTS
    requires g.occupied == f.occupied && g.players[p].at == f.players[p].at
    requires g.players[p].respawnAt == 0 ==> f.players[p].respawnAt == 0
    ensures HitBy(g, s, n, p, before) ==> HitBy(f, s, n, p, before)
  {
  }

  lemma {:induction false} ShotsFly(f: Field, g: Field, k: nat, before: seq<Cell>, now: nat, limit: nat)
    requires Sane(f) && Sane(g) && k <= SLOTS && |before| == SLOTS && MidFlight(f, g, k, before)
    ensures var r := ShotsFrom(g, k, before, now, limit);
      !r.ended ==> MidFlight(f, r.field, SLOTS, before)
    decreases SLOTS - k
  {
    if k < SLOTS {
      var r := StepShot(g, k, before, now, limit);
      if !r.ended {
        StepMidFlight(f, g, k, before, now, limit);
        ShotsFly(f, r.field, k + 1, before, now, limit);
      }
    }
  }

  lemma StillClear(f: Field, g: Field, s: Shot, i: nat, before: seq<Cell>)
    requires Sane(f) && Sane(g) && |before| == SLOTS && OnlyHits(f, g, before) && InTheClear(f, s, i, before)
    ensures InTheClear(g, s, i, before)
  {
    forall p: nat | p < SLOTS && p != i
      ensures !HitBy(g, s, Ahead(s), p, before)
    {
      FewerToHit(f, g, s, Ahead(s), p, before);
    }
  }

  lemma StepMidFlight(f: Field, g: Field, k: nat, before: seq<Cell>, now: nat, limit: nat)
    requires Sane(f) && Sane(g) && k < SLOTS && |before| == SLOTS && MidFlight(f, g, k, before)
    ensures var r := StepShot(g, k, before, now, limit);
      !r.ended ==> MidFlight(f, r.field, k + 1, before)
  {
    hide StepShot, HitBy, InTheClear;
    var r := StepShot(g, k, before, now, limit);
    StepShotEffect(g, k, before, now, limit);
    if !r.ended {
      var h := r.field;
      HitBackwards(f, g, h, k, before);
      forall i: nat | i < k + 1
        ensures Flown(f, h, i, before)
      {
        var s := f.shots[i];
        if i < k {
          assert Flown(f, g, i, before);
        }
        if h.shots[i].active {
          OneHit(g, h, k, before);
          StillClear(g, h, s, i, before);
        } else if i == k && s.active && InTheClear(f, s, i, before) {
          StillClear(f, g, s, i, before);
        }
      }
    }
  }

  /** One step is itself a flight in which only shot k hits. */
  lemma OneHit(g: Field, h: Field, k: nat, before: seq<Cell>)
    requires Sane(g) && Sane(h) && k < SLOTS && |before| == SLOTS && h.occupied == g.occupied
    requires forall p :: 0 <= p < SLOTS ==> h.players[p].at == g.players[p].at
    requires forall p: nat :: p < SLOTS && h.players[p].respawnAt != g.players[p].respawnAt ==>
      p != k && g.shots[k].active && HitBy(g, g.shots[k], Ahead(g.shots[k]), p, before) && h.players[p].respawnAt != 0
    ensures OnlyHits(g, h, before)
  {
    forall p: nat | p < SLOTS && h.players[p].respawnAt != g.players[p].respawnAt
      ensures Hits(g, k, p, before)
    {
    }
  }

  lemma HitBackwards(f: Field, g: Field, h: Field, k: nat, before: seq<Cell>)
    requires Sane(f) && Sane(g) && Sane(h) && k < SLOTS && |before| == SLOTS
    requires OnlyHits(f, g, before) && g.shots[k] == f.shots[k] && h.occupied == g.occupied
    requires forall p :: 0 <= p < SLOTS ==> h.players[p].at == g.players[p].at
    requires forall p: nat :: p < SLOTS && h.players[p].respawnAt != g.players[p].respawnAt ==>
      p != k && g.shots[k].active && HitBy(g, g.shots[k], Ahead(g.shots[k]), p, before) && h.players[p].respawnAt != 0
    ensures OnlyHits(f, h, before)
  {
    forall p: nat | p < SLOTS && h.players[p].respawnAt != g.players[p].respawnAt
      ensures Hits(f, k, p, before) && f.players[p].respawnAt == 0
    {
      FewerToHit(f, g, f.shots[k], Ahead(f.shots[k]), p, before);
    }
  }

  /** After the shots have moved in a round that goes on: a shot still in the air
      has advanced one cell along its heading, shares its cell with no other actor
      on the board and has swapped cells with none; a shot with nothing in its way
      is still in the air; and nobody went down but by a shot that reached them. */
  lemma FlightSafety(f: Field, before: seq<Cell>, now: nat, limit: nat)
    requires Sane(f) && |before| == SLOTS
    ensures var r := ShotsFrom(f, 0, before, now, limit);
      !r.ended ==>
        && (forall i: nat :: i < SLOTS ==> Flown(f, r.field, i, before))
        && OnlyHits(f, r.field, before)
  {
    assert MidFlight(f, f, 0, before);
    ShotsFly(f, f, 0, before, now, limit);
  }

  /** Cells left before the edge in the direction of flight. */
  function Range(s: Shot): int {
    if s.dx > 0 then WIDTH - 1 - s.at.x
    else if s.dx < 0 then s.at.x
    else if s.dy > 0 then HEIGHT - 1 - s.at.y
    else s.at.y
  }

  /** One cell ahead is one cell nearer to the edge. */
  lemma RangeShrinks(s: Shot, t: Shot)
    requires Abs(s.dx) + Abs(s.dy) == 1 && t.at == Ahead(s) && t.dx == s.dx && t.dy == s.dy && InBounds(t.at)
    ensures Range(t) == Range(s) - 1 && 0 <= Range(t) < WIDTH
  {
  }

  /** No actor's turn disturbs a shot that is in the air. */
  lemma ActLeavesShots(f: Field, i: nat, t: Turn, k: nat)
    requires Sane(f) && i < SLOTS && k < SLOTS && TurnOk(t) && f.shots[k].active
    ensures !Act(f, i, t).ended ==> Act(f, i, t).field.shots[k] == f.shots[k]
  {
    hide Replanned, Moved, ChoiceOf, Strike;
    if f.players[i].respawnAt == 0 {
      var choice := ChoiceOf(f, i, t);
      var ready := WithPlayer(f, i, f.players[i].(joy := choice.joy, plan := choice.plan));
      var fired := Fire(ready, i, choice.action, t.now, t.limit);
      FireLeavesShots(ready, i, choice.action, t.now, t.limit, k);
      if !fired.ended {
        ShotsStay(fired.field, i, t, choice.action);
      }
    }
  }

  lemma FireLeavesShots(f: Field, i: nat, joy: byte, now: nat, limit: nat, k: nat)
    requires Sane(f) && i < SLOTS && k < SLOTS && f.shots[k].active
    ensures !Fire(f, i, joy, now, limit).ended ==> Fire(f, i, joy, now, limit).field.shots[k] == f.shots[k]
  {
    hide Strike;
    var heading := HeadingOf(joy);
    if heading.Toward? {
      var c := Beside(f.players[i].at, heading.dx, heading.dy);
      VictimStands(f, c, i, 0);
      var victim := VictimAt(f, c, i, 0);
      if victim < SLOTS {
        StrikeEffect(f, i, victim, now, limit);
      }
    }
  }

  lemma {:induction false} ActorsLeaveShots(f: Field, i: nat, t: Turn, k: nat)
    requires Sane(f) && i <= SLOTS && k < SLOTS && TurnOk(t) && f.shots[k].active
    ensures !ActFrom(f, i, t).ended ==> ActFrom(f, i, t).field.shots[k] == f.shots[k]
    decreases SLOTS - i
  {
    hide Act;
    if i < SLOTS {
      ActLeavesShots(f, i, t, k);
      if !Act(f, i, t).ended {
        ActorsLeaveShots(Act(f, i, t).field, i + 1, t, k);
      }
    }
  }

  /** From f to g every shot that is in the air in both has moved one cell ahead. */
  ghost predicate ShotsAdvance(f: Field, g: Field)
    requires Sane(f) && Sane(g)
  {
    forall k: nat :: k < SLOTS && f.shots[k].active && g.shots[k].active ==>
      g.shots[k].at == Ahead(f.shots[k]) && g.shots[k].dx == f.shots[k].dx && g.shots[k].dy == f.shots[k].dy
  }

  /** A tick of a round that goes on moves every shot that it leaves in the air. */
  lemma CombatAdvances(f: Field, t: Turn)
    requires Sane(f) && TurnOk(t)
    ensures !Combat(f, t).ended ==> ShotsAdvance(f, Combat(f, t).field)
  {
    hide ActFrom, ShotsFrom, OnlyHits, InTheClear;
    var acted := ActFrom(f, 0, t);
    if !acted.ended {
      FlightSafety(acted.field, Positions(f), t.now, t.limit);
      var flown := ShotsFrom(acted.field, 0, Positions(f), t.now, t.limit);
      forall k: nat | k < SLOTS && f.shots[k].active && !flown.ended
        ensures acted.field.shots[k] == f.shots[k]
        ensures Flown(acted.field, flown.field, k, Positions(f))
      {
        ActorsLeaveShots(f, 0, t, k);
      }
    }
  }

  // --- One actor's turn ---------------------------------------------------------------------------------------

  /** Firing in a direction suppresses movement, whatever the shot does: it may break a
      brick, hit point-blank, be refused because one is in flight already, or be launched;
      and then it leaves from the open cell beside the actor. */
  lemma FireOrMove(f: Field, i: nat, t: Turn)
    requires Sane(f) && i < SLOTS && TurnOk(t)
    ensures var action := ChoiceOf(f, i, t).action;
      Trigger(action) && HeadingOf(action).Toward? ==>
        forall j :: 0 <= j < SLOTS ==> Act(f, i, t).field.players[j].at == f.players[j].at
    ensures var r := Act(f, i, t);
      !r.ended && !f.shots[i].active && r.field.shots[i].active ==>
        && r.field.players[i].at == f.players[i].at
        && Distance(r.field.players[i].at, r.field.shots[i].at) == 1
        && r.field.shots[i].at == Beside(f.players[i].at, r.field.shots[i].dx, r.field.shots[i].dy)
        && !IsBrick(f.bricks, r.field.shots[i].at) && !PlayerAt(r.field, r.field.shots[i].at, i)
  {
    hide Replanned, Moved, ChoiceOf, Strike;
    if f.players[i].respawnAt == 0 {
      var choice := ChoiceOf(f, i, t);
      var ready := WithPlayer(f, i, f.players[i].(joy := choice.joy, plan := choice.plan));
      var fired := Fire(ready, i, choice.action, t.now, t.limit);
      var heading := HeadingOf(choice.action);
      if heading.Toward? && Trigger(choice.action) {
        HeadingIsUnit(choice.action);
        var c := Beside(f.players[i].at, heading.dx, heading.dy);
        VictimStands(ready, c, i, 0);
        var victim := VictimAt(ready, c, i, 0);
        if victim < SLOTS {
          StrikeEffect(ready, i, victim, t.now, t.limit);
          StrikeMovesNobody(ready, i, victim, t.now, t.limit);
        }
        if !fired.ended && !f.shots[i].active && fired.field.shots[i].active {
          NobodyAhead(ready, fired.field, c, i);
        }
      } else if !fired.ended {
        ShotsStay(fired.field, i, t, choice.action);
      }
    }
  }

  lemma StrikeMovesNobody(f: Field, shooter: nat, victim: nat, now: nat, limit: nat)
    requires Sane(f) && shooter < SLOTS && victim < SLOTS
    ensures forall j :: 0 <= j < SLOTS ==> Strike(f, shooter, victim, now, limit).field.players[j].at == f.players[j].at
  {
  }

  lemma ShotsStay(f: Field, i: nat, t: Turn, action: byte)
    requires Sane(f) && i < SLOTS && TurnOk(t)
    ensures Replanned(f, Moved(f, i), i, t, action).shots == f.shots
  {
  }

  lemma NobodyAhead(f: Field, g: Field, c: Cell, i: nat)
    requires Sane(f) && Sane(g) && i < SLOTS && g.players == f.players && g.occupied == f.occupied
    requires forall p: nat :: p < SLOTS && p != i ==> !Stands(f, p, c)
    ensures !PlayerAt(g, c, i)
  {
    forall p: nat | p < SLOTS && p != i
      ensures !Stands(g, p, c)
    {
      assert !Stands(f, p, c);
    }
  }

  // --- A board without humans ------------------------------------------------------------------------------

  /** No human is playing: whoever is not a zombie keeps the stick in the middle. */
  ghost predicate Deserted(f: Field, t: Turn)
    requires Sane(f)
  {
    && t.humans == {}
    && (forall i: nat :: i < SLOTS && i !in t.zombies && i !in t.stale ==> f.players[i].joy == NEUTRAL)
    && (forall i :: 0 <= i < SLOTS ==> !f.shots[i].active)
  }

  /** Nothing in the air, no score changed, nobody sent down. */
  ghost predicate Peaceful(f: Field, g: Field)
    requires Sane(f) && Sane(g)
  {
    forall i :: 0 <= i < SLOTS ==>
      !g.shots[i].active && g.players[i].score == f.players[i].score && g.players[i].respawnAt == f.players[i].respawnAt
  }

  lemma NoTarget(f: Field, i: nat, n: nat)
    requires Sane(f) && i < SLOTS && n <= SLOTS
    ensures Nearest(f, i, {}, n) == NOBODY
    ensures forall p: nat :: AimAt(f, i, {}, p).NoAim?
  {
  }

  /** Without a human to aim at, a zombie pulls the trigger only at a brick beside it. */
  lemma LonelyZombie(f: Field, i: nat, whim: Whim)
    requires Sane(f) && i < SLOTS
    ensures var c := ZombieChoice(f, i, {}, whim);
      Trigger(c.action) ==> BreakableAhead(f, i, c.action) && c.action % 16 != 0x0F
  {
    hide Nearest, AimAt;
    NoTarget(f, i, SLOTS);
    NoTarget(f, i, 0);
  }

  lemma PeacefulFire(f: Field, i: nat, joy: byte, now: nat, limit: nat)
    requires Sane(f) && i < SLOTS && (Trigger(joy) ==> BreakableAhead(f, i, joy) || HeadingOf(joy).Still?)
    ensures var r := Fire(f, i, joy, now, limit);
      !r.ended && r.field.players == f.players && r.field.shots == f.shots
  {
  }

  lemma PeacefulAct(f: Field, i: nat, t: Turn)
    requires Sane(f) && i < SLOTS && TurnOk(t) && Deserted(f, t)
    ensures !Act(f, i, t).ended && Peaceful(f, Act(f, i, t).field) && Deserted(Act(f, i, t).field, t)
  {
    hide Fire, Moved, Replanned, ZombieChoice, BreakableAhead;
    var p := f.players[i];
    if p.respawnAt == 0 {
      var choice := ChoiceOf(f, i, t);
      var ready := WithPlayer(f, i, p.(joy := choice.joy, plan := choice.plan));
      if i in t.zombies {
        LonelyZombie(f, i, t.whims[i]);
        SameAhead(f, ready, i, choice.action);
      } else {
        assert choice.action == NEUTRAL;
      }
      PeacefulFire(ready, i, choice.action, t.now, t.limit);
      var fired := Fire(ready, i, choice.action, t.now, t.limit).field;
      PeacefulMove(fired, Moved(fired, i), i, t, choice.action);
    }
  }

  lemma SameAhead(f: Field, g: Field, i: nat, joy: byte)
    requires Sane(f) && Sane(g) && i < SLOTS && g.bricks == f.bricks && g.players[i].at == f.players[i].at
    ensures BreakableAhead(g, i, joy) == BreakableAhead(f, i, joy)
  {
  }

  lemma PeacefulMove(f: Field, g: Field, i: nat, t: Turn, action: byte)
    requires Sane(f) && i < SLOTS && TurnOk(t) && g == Moved(f, i)
    ensures var h := Replanned(f, g, i, t, action);
      && h.shots == f.shots
      && forall j :: 0 <= j < SLOTS ==>
           h.players[j].joy == f.players[j].joy && h.players[j].score == f.players[j].score
           && h.players[j].respawnAt == f.players[j].respawnAt
  {
  }

  lemma {:induction false} PeacefulActors(f: Field, i: nat, t: Turn)
    requires Sane(f) && i <= SLOTS && TurnOk(t) && Deserted(f, t)
    ensures var r := ActFrom(f, i, t); !r.ended && Peaceful(f, r.field) && Deserted(r.field, t)
    decreases SLOTS - i
  {
    hide Act;
    if i < SLOTS {
      PeacefulAct(f, i, t);
      PeacefulActors(Act(f, i, t).field, i + 1, t);
    }
  }

  lemma {:induction false} NoShotsToMove(f: Field, i: nat, before: seq<Cell>, now: nat, limit: nat)
    requires Sane(f) && i <= SLOTS && |before| == SLOTS && (forall j :: 0 <= j < SLOTS ==> !f.shots[j].active)
    ensures ShotsFrom(f, i, before, now, limit) == Result(f, false)
    decreases SLOTS - i
  {
    if i < SLOTS {
      NoShotsToMove(f, i + 1, before, now, limit);
    }
  }

  /** While no human is seated, no tick launches a shot, changes a score, sends an
      actor down or ends the round, whatever the zombies and the dice do. */
  lemma DesertedBoardIsPeaceful(f: Field, t: Turn)
    requires Sane(f) && TurnOk(t) && Deserted(f, t)
    ensures var r := Combat(f, t); !r.ended && Peaceful(f, r.field)
  {
    hide ActFrom;
    PeacefulActors(f, 0, t);
    NoShotsToMove(ActFrom(f, 0, t).field, 0, Positions(f), t.now, t.limit);
  }
}
