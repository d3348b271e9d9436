/** A whole tick of a round, told in plain terms: which joystick each slot acts on, what
    every slot and then every shot does in its order, and what is left at the end. */
module Orders {
  import opened Bytes
  import opened Grid
  import opened Arena
  import opened ArenaSafety
  import opened Seats
  import opened Rounds
  import opened Effects
  import opened Deeds
  import IQ = InputQueue
  import Runs

  // --- Before the turns -------------------------------------------------------------------

  /** An input waits whose time has come. */
  predicate Waits(q: IQ.Intake, now: nat) {
    q.entries != [] && q.entries[0].readyAt <= now
  }

  /** The stick that the tick finds in slot i: the oldest input of a connection, and the
      middle when none is due; without a connection, the last stick. */
  function StickFound(s: Snap, i: nat, now: nat): byte
    requires Proper(s) && i < 4
  {
    var q := s.seats[i].intake;
    if !s.seats[i].inUse then s.field.players[i].joy
    else if Waits(q, now) then q.entries[0].joy
    else 15
  }

  /** The stick that slot i acts on when no zombie drives it: at rest once a slot without
      a connection has gone half a second without input, or never had any. */
  function StickObeyed(s: Snap, ready: Field, i: nat, now: nat): byte
    requires Proper(s) && Sane(ready) && i < 4
  {
    if !s.seats[i].inUse && (s.lastInput[i] == 0 || now - s.lastInput[i] > 500) then 15 else ready.players[i].joy
  }

  /** The field as the turns find it: on the board are the humans and the zombies; whoever
      was down for long enough is back, with the stick at rest and no plans; everyone else
      holds the stick found. */
  ghost predicate Prepared(s: Snap, ready: Field, now: nat, r: Rules)
    requires Proper(s)
  {
    && Sane(ready) && ready.occupied == Humans(s.seats) + ZombieSet(s.seats, r.zombies)
    && ready == s.field.(players := ready.players, occupied := ready.occupied)
    && forall i: nat :: i < 4 ==>
         var p, q := s.field.players[i], ready.players[i];
         if p.respawnAt != 0 && p.respawnAt <= now
         then OnGrid(q.at) && q == Player(q.at, 15, p.score, 0, Plan(false, 0xFF, false, 0xFF))
         else q == p.(joy := StickFound(s, i, now))
  }

  lemma PreparedExactly(s: Snap, t: Snap, ready: Field, turn: Turn, now: nat, r: Rules)
    requires Proper(s) && Ticked(s, t, ready, turn, now, r)
    ensures Prepared(s, ready, now, r)
  {
    hide Combat, Drained, ZombieSet, Respawned, Finished, Silenced;
    forall i: nat | i < 4
      ensures RebornAs(Steered(s.field, s.seats, now).players[i], ready.players[i], now)
    {
    }
  }

  // --- The turns --------------------------------------------------------------------------

  /** Slot i's turn. */
  ghost predicate TakesTurn(s: Snap, ready: Field, f: Field, t: Result, i: nat, whim: Whim, now: nat, r: Rules)
    requires Proper(s) && Sane(ready) && Sane(f) && i < 4
  {
    var p, zombie := f.players[i], i in ZombieSet(s.seats, r.zombies);
    var joy := if zombie then p.joy else StickObeyed(s, ready, i, now);
    if p.respawnAt != 0 then t == Result(Rejoined(f, i, joy, p.plan), false)
    else if zombie then Roams(f, t, i, Humans(s.seats), whim, now, r.limit)
    else Obeys(f, t, i, joy, now, r.limit)
  }

  /** The slots' turns in order, until all have had theirs or the round has ended. */
  ghost predicate Turns(s: Snap, ready: Field, acts: seq<Result>, whims: seq<Whim>, now: nat, r: Rules)
    requires Proper(s) && Sane(ready) && |whims| == 4
  {
    && 1 <= |acts| <= 5 && acts[0] == Result(ready, false)
    && (forall k :: 0 <= k < |acts| ==> Sane(acts[k].field))
    && (forall k: nat, next :: k < |acts| - 1 && next == k + 1 ==>
          !acts[k].ended && TakesTurn(s, ready, acts[k].field, acts[next], k, whims[k], now, r))
    && (|acts| < 5 ==> acts[|acts| - 1].ended)
  }

  /** The shots' steps in order, until all have flown or the round has ended. */
  ghost predicate Flights(ready: Field, f: Field, flights: seq<Result>, now: nat, r: Rules)
    requires Sane(ready) && Sane(f)
  {
    && 1 <= |flights| <= 5 && flights[0] == Result(f, false)
    && (forall k :: 0 <= k < |flights| ==> Sane(flights[k].field))
    && (forall k: nat, next :: k < |flights| - 1 && next == k + 1 ==>
          !flights[k].ended && Flies(flights[k].field, flights[next], k, Spots(ready), now, r.limit))
    && (|flights| < 5 ==> flights[|flights| - 1].ended)
  }

  function Spots(f: Field): (c: seq<Cell>)
    requires Sane(f)
    ensures |c| == 4
  {
    [f.players[0].at, f.players[1].at, f.players[2].at, f.players[3].at]
  }

  /** One clear packet of each ended shot has been sent. */
  ghost predicate BurstsDown(f: Field, g: Field)
    requires Sane(f)
  {
    && Sane(g) && g == f.(shots := g.shots)
    && forall k :: 0 <= k < 4 ==>
         var left := f.shots[k].clearBurst;
         g.shots[k] == f.shots[k].(clearBurst := if left == 0 then 0 else left - 1)
  }

  function Turned(f: Field, i: nat, t: Turn): (acts: seq<Result>)
    requires Sane(f) && i <= 4 && TurnOk(t)
    ensures 1 <= |acts| <= 5 - i && acts[0] == Result(f, false)
    ensures acts[|acts| - 1] == ActFrom(f, i, t)
    ensures |acts| < 5 - i ==> acts[|acts| - 1].ended
    ensures forall k :: 0 <= k < |acts| ==> Sane(acts[k].field)
    ensures forall k, next :: 0 <= k < |acts| - 1 && next == k + 1 ==> !acts[k].ended && acts[next] == Act(acts[k].field, i + k, t)
    decreases 4 - i
  {
    if i == 4 then [Result(f, false)]
    else
      var a := Act(f, i, t);
      if a.ended then [Result(f, false), a] else [Result(f, false)] + Turned(a.field, i + 1, t)
  }

  function Stepped(f: Field, i: nat, before: seq<Cell>, now: nat, limit: nat): (flights: seq<Result>)
    requires Sane(f) && i <= 4 && |before| == 4
    ensures 1 <= |flights| <= 5 - i && flights[0] == Result(f, false)
    ensures flights[|flights| - 1] == ShotsFrom(f, i, before, now, limit)
    ensures |flights| < 5 - i ==> flights[|flights| - 1].ended
    ensures forall k :: 0 <= k < |flights| ==> Sane(flights[k].field)
    ensures forall k, next :: 0 <= k < |flights| - 1 && next == k + 1 ==>
      !flights[k].ended && flights[next] == StepShot(flights[k].field, i + k, before, now, limit)
    decreases 4 - i
  {
    if i == 4 then [Result(f, false)]
    else
      var a := StepShot(f, i, before, now, limit);
      if a.ended then [Result(f, false), a] else [Result(f, false)] + Stepped(a.field, i + 1, before, now, limit)
  }

  // --- The tick ---------------------------------------------------------------------------

  /** Slots from k on hold the sticks they held when the turns began. */
  ghost predicate YetToAct(ready: Field, f: Field, k: nat)
    requires Sane(ready) && Sane(f)
  {
    forall j: nat :: k <= j < 4 ==> f.players[j].joy == ready.players[j].joy
  }

  /** A turn leaves the sticks of the others alone. */
  lemma OthersHold(f: Field, i: nat, t: Turn)
    requires Sane(f) && i < 4 && TurnOk(t) && !Act(f, i, t).ended
    ensures forall j: nat :: j < 4 && j != i ==> Act(f, i, t).field.players[j].joy == f.players[j].joy
  {
    hide ChoiceOf, VictimAt, BreakableAhead;
  }

  lemma {:induction false} ActsUpTo(ready: Field, acts: seq<Result>, k: nat, t: Turn, baseline: set<Cell>)
    requires Sane(ready) && FieldInv(ready, baseline, t.limit) && TurnOk(t) && acts == Turned(ready, 0, t) && k < |acts| - 1
    ensures Sane(acts[k].field) && FieldInv(acts[k].field, baseline, t.limit) && YetToAct(ready, acts[k].field, k)
  {
    hide FieldInv, Act;
    if k > 0 {
      ActsUpTo(ready, acts, k - 1, t, baseline);
      var f := acts[k - 1].field;
      assert acts[k] == Act(f, k - 1, t);
      ActKeeps(f, k - 1, t, baseline);
      OthersHold(f, k - 1, t);
    }
  }

  lemma TurnTaken(s: Snap, ready: Field, f: Field, i: nat, turn: Turn, now: nat, r: Rules)
    requires Proper(s) && i < 4 && TurnOf(s, turn, now, r) && FieldInv(f, r.baseline, r.limit)
    requires Sane(ready) && f.players[i].joy == ready.players[i].joy
    ensures TurnOk(turn) && TakesTurn(s, ready, f, Act(f, i, turn), i, turn.whims[i], now, r)
  {
    hide Act, ZombieSet, Roams, Obeys;
    assert i in turn.stale <==> !s.seats[i].inUse && (s.lastInput[i] == 0 || now - s.lastInput[i] > 500);
    if f.players[i].respawnAt != 0 {
      DownActor(f, i, turn);
    } else if i in turn.zombies {
      RoamsExactly(f, i, turn);
    } else {
      ObeysExactly(f, i, turn);
    }
  }

  lemma TurnsTaken(s: Snap, ready: Field, turn: Turn, now: nat, r: Rules)
    requires Proper(s) && TurnOf(s, turn, now, r) && FieldInv(ready, r.baseline, r.limit)
    ensures TurnOk(turn) && Turns(s, ready, Turned(ready, 0, turn), turn.whims, now, r)
  {
    hide FieldInv, Act, TakesTurn;
    SaneInv(ready, r.baseline, r.limit);
    var acts := Turned(ready, 0, turn);
    forall k: nat, next | k < |acts| - 1 && next == k + 1
      ensures !acts[k].ended && TakesTurn(s, ready, acts[k].field, acts[next], k, turn.whims[k], now, r)
    {
      ActsUpTo(ready, acts, k, turn, r.baseline);
      TurnTaken(s, ready, acts[k].field, k, turn, now, r);
    }
  }

  lemma FlightsFlown(ready: Field, f: Field, now: nat, r: Rules)
    requires Sane(ready) && Sane(f)
    ensures Flights(ready, f, Stepped(f, 0, Positions(ready), now, r.limit), now, r)
  {
    hide StepShot, Flies;
    var flights := Stepped(f, 0, Positions(ready), now, r.limit);
    assert Positions(ready) == Spots(ready);
    forall k: nat, next | k < |flights| - 1 && next == k + 1
      ensures !flights[k].ended && Flies(flights[k].field, flights[next], k, Spots(ready), now, r.limit)
    {
      FliesExactly(flights[k].field, k, Spots(ready), now, r.limit);
    }
  }

  lemma FadedExactly(f: Field)
    requires Sane(f)
    ensures BurstsDown(f, Faded(f))
  {
  }

  lemma ReadyInv(s: Snap, t: Snap, ready: Field, turn: Turn, now: nat, r: Rules)
    requires AtRest(s, r) && s.life.phase.Playing? && Ticked(s, t, ready, turn, now, r)
    ensures FieldInv(ready, r.baseline, r.limit)
  {
    hide Combat, Drained, ZombieSet, FieldSound, FieldInv, Readied, Steered, StaleSlots;
    PlayingIsFieldInv(s.field, r.baseline, r.limit);
    SteeredKeeps(s.field, s.seats, now, r.baseline, r.limit);
    ReadiedKeeps(Steered(s.field, s.seats, now), Actors(s.seats, r.zombies), now, ready, r.baseline, r.limit);
  }

  /** Every tick of every round, told in full. The field is prepared; the slots take their
      turns in order; if that has not ended the round the shots fly in order; and the
      bursts of ended shots run down. The round is over exactly when a hit has ended it. */
  lemma TickTold(s: Snap, t: Snap, ready: Field, turn: Turn, now: nat, r: Rules)
      returns (acts: seq<Result>, flights: seq<Result>)
    requires AtRest(s, r) && s.life.phase.Playing? && Ticked(s, t, ready, turn, now, r)
    ensures |turn.whims| == 4 && Prepared(s, ready, now, r) && Turns(s, ready, acts, turn.whims, now, r)
    ensures var a := acts[|acts| - 1];
      if a.ended then t.life.phase.Over? && t.field == a.field
      else
        && Flights(ready, a.field, flights, now, r)
        && var z := flights[|flights| - 1];
           if z.ended then t.life.phase.Over? && t.field == z.field
           else t.life.phase.Playing? && BurstsDown(z.field, t.field)
  {
    hide ActFrom, ShotsFrom, Drained, ZombieSet, Readied, Turns, Flights, Prepared, Steered, StaleSlots, AtRest, Faded,
         FieldInv, Silenced, FrozenVerdict;
    Runs.AtRestProper(s, r);
    PreparedExactly(s, t, ready, turn, now, r);
    ReadyInv(s, t, ready, turn, now, r);
    SaneInv(ready, r.baseline, r.limit);
    acts := Turned(ready, 0, turn);
    TurnsTaken(s, ready, turn, now, r);
    var a := acts[|acts| - 1];
    flights := Stepped(a.field, 0, Positions(ready), now, r.limit);
    FlightsFlown(ready, a.field, now, r);
    FadedExactly(flights[|flights| - 1].field);
  }

  // --- What that means for a player -----------------------------------------------------------

  /** The inputs of a connection after the tick: the oldest is gone, and published as
      applied, exactly when its time had come. */
  lemma OldestIsTaken(s: Snap, t: Snap, ready: Field, turn: Turn, now: nat, r: Rules, k: nat)
    requires Proper(s) && Proper(t) && k < 4 && s.life.phase.Playing? && Ticked(s, t, ready, turn, now, r)
    ensures var q, after := s.seats[k].intake, t.seats[k].intake;
      var due := s.seats[k].inUse && Waits(q, now);
      && t.seats[k] == s.seats[k].(intake := after)
      && after.haveSeq == q.haveSeq && after.lastSeq == q.lastSeq
      && after.haveApplied == (due || q.haveApplied)
      && after.applied == (if due then q.entries[0].seqno else q.applied)
      && after.entries == (if t.life.phase.Over? then [] else if due then q.entries[1..] else q.entries)
  {
    hide Combat, ZombieSet, Respawned, FrozenVerdict, Steered, StaleSlots, Readied;
  }

  /** A due input is obeyed, however long it has waited: in every tick that finds the actor
      of a connection on the board, the turn of its slot, unless the round ends before it
      or the actor is sent down before it, is that of the oldest input that is due, and of
      a stick at rest when none is. */
  lemma DueInputIsObeyed(s: Snap, ready: Field, acts: seq<Result>, whims: seq<Whim>, now: nat, r: Rules, k: nat)
    requires Proper(s) && |whims| == 4 && k < 4 && Prepared(s, ready, now, r) && Turns(s, ready, acts, whims, now, r)
    requires s.seats[k].inUse && k !in ZombieSet(s.seats, r.zombies) && s.field.players[k].respawnAt == 0
    requires k < |acts| - 1 && acts[k].field.players[k].respawnAt == 0
    ensures var q := s.seats[k].intake;
      var joy := if q.entries != [] && q.entries[0].readyAt <= now then q.entries[0].joy else 0x0F;
      Obeys(acts[k].field, acts[k + 1], k, joy, now, r.limit)
  {
    hide Obeys, Roams, ZombieSet;
    assert TakesTurn(s, ready, acts[k].field, acts[k + 1], k, whims[k], now, r);
  }

  /** Without a connection and without a zombie, the actor acts on a stick at rest if and
      only if its last input is missing or older than half a second, or the stick was at
      rest before. */
  lemma AbandonedStick(s: Snap, ready: Field, acts: seq<Result>, whims: seq<Whim>, now: nat, r: Rules, k: nat)
    requires Proper(s) && |whims| == 4 && k < 4 && Prepared(s, ready, now, r) && Turns(s, ready, acts, whims, now, r)
    requires !s.seats[k].inUse && k !in ZombieSet(s.seats, r.zombies) && s.field.players[k].respawnAt == 0
    requires k < |acts| - 1 && acts[k].field.players[k].respawnAt == 0
    ensures var joy := if s.lastInput[k] == 0 || now - s.lastInput[k] > 500 then 0x0F else s.field.players[k].joy;
      Obeys(acts[k].field, acts[k + 1], k, joy, now, r.limit)
  {
    hide Obeys, Roams, ZombieSet;
    assert TakesTurn(s, ready, acts[k].field, acts[k + 1], k, whims[k], now, r);
  }
}
