/** What the events of a room leave behind, in plain terms: a new round, a slot that changes
    hands, the verdict of a round, and the cell of a spawn. */
module Outcomes {
  import opened Bytes
  import opened Grid
  import opened Arena
  import opened ArenaSafety
  import opened Seats
  import opened Rounds
  import opened Effects
  import opened Deeds
  import Inputs
  import Orders
  import Runs
  import Spawn
  import IQ = InputQueue

  // --- Spawning ---------------------------------------------------------------------------

  /** Every actor is at least so many steps away. */
  ghost predicate Apart(f: Field, c: Cell, distance: nat)
    requires Sane(f)
  {
    forall j: nat :: Up(f, j) ==> Far(c, f.players[j].at) >= distance
  }

  /** Some actor is as near to d as any is to c. */
  ghost predicate Nearer(f: Field, d: Cell, c: Cell)
    requires Sane(f)
  {
    exists j: nat :: Up(f, j) && Apart(f, c, Far(d, f.players[j].at))
  }

  /** Vacant for anyone. */
  ghost predicate Open(f: Field, c: Cell)
    requires Sane(f)
  {
    Vacant(f, c, 4)
  }

  /** The chooser's promise: an open cell at least eight steps from every actor, or no nearer
      to one than any open cell is; and the corner when no cell is open. */
  lemma SpawnExactly(f: Field, c: Cell)
    requires Sane(f)
    ensures Spawn.GoodSpawn(f, c) <==>
      if exists d :: Open(f, d) then
        Open(f, c) && (Apart(f, c, 8) || forall d :: Open(f, d) ==> Nearer(f, d, c))
      else c == Cell(0, 0)
  {
    hide Spawn.NearestActor, Spawn.Free, Vacant, Apart, Nearer;
    forall d
      ensures Spawn.Free(f, d) == Open(f, d)
    {
      FreeIsOpen(f, d);
    }
    DistanceKept(f, c);
    if !Apart(f, c, 8) {
      forall d
        ensures Nearer(f, d, c) <==> Spawn.NearestActor(f, d, 4) <= Spawn.NearestActor(f, c, 4)
      {
        NearerExactly(f, d, c);
      }
    }
  }

  lemma FreeIsOpen(f: Field, c: Cell)
    requires Sane(f)
    ensures Spawn.Free(f, c) == Open(f, c)
  {
    PlainBoard(f);
    if j: nat :| Up(f, j) && f.players[j].at == c {
      assert Stands(f, j, c);
    }
  }

  lemma DistanceKept(f: Field, c: Cell)
    requires Sane(f)
    ensures Apart(f, c, 8) <==> Spawn.NearestActor(f, c, 4) >= 8
  {
    hide Spawn.NearestActor;
    NearestMeans(f, c);
  }

  lemma NearestMeans(f: Field, c: Cell)
    requires Sane(f)
    ensures var d := Spawn.NearestActor(f, c, 4);
      && (forall j: nat :: Up(f, j) ==> d <= Far(c, f.players[j].at))
      && (d == Spawn.FAR || exists j: nat :: Up(f, j) && d == Far(c, f.players[j].at))
  {
    hide Spawn.NearestActor;
    PlainBoard(f);
    var d := Spawn.NearestActor(f, c, 4);
    if d != Spawn.FAR {
      var j: nat :| j < 4 && OnBoard(f, j) && d == Distance(c, f.players[j].at);
      assert Up(f, j);
    }
  }

  /** Where somebody is less than eight steps from c, the nearest distances decide. */
  lemma NearerExactly(f: Field, d: Cell, c: Cell)
    requires Sane(f) && !Apart(f, c, 8)
    ensures Nearer(f, d, c) <==> Spawn.NearestActor(f, d, 4) <= Spawn.NearestActor(f, c, 4)
  {
    hide Spawn.NearestActor;
    NearestMeans(f, c);
    NearestMeans(f, d);
  }

  // --- A new round ---------------------------------------------------------------------------

  /** A new round keeps the connections and forgets their inputs, so that any number is
      unseen; it restores the map, empties the sky, and puts everybody at the start: no
      points, no plans, sticks at rest, nobody down, each actor on a cell that the chooser,
      seeing those before it, may pick. */
  lemma NewRoundExactly(was: seq<Seat>, t: Snap, r: Rules)
    requires Sized(was) && BegunAnew(was, t, r)
    ensures Proper(t) && t.field.bricks == r.baseline && t.field.broken == []
    ensures t.field.occupied == Humans(was) + ZombieSet(was, r.zombies)
    ensures forall i: nat :: i < 4 ==>
      && t.seats[i] == was[i].(intake := IQ.Intake(false, was[i].intake.lastSeq, false, was[i].intake.applied, []))
      && (forall n: byte :: Inputs.Unseen(t.seats[i].intake, n))
      && t.lastInput[i] == 0
      && t.field.shots[i] == Shot(false, Cell(0, 0), 0, 0, 0)
      && t.field.players[i] == Player(t.field.players[i].at, 15, 0, 0, Plan(false, 0xFF, false, 0xFF))
      && OnGrid(t.field.players[i].at)
    ensures forall i: nat :: i < 4 && i in t.field.occupied ==>
      Spawn.GoodSpawn(t.field.(occupied := set j | j in t.field.occupied && j < i), t.field.players[i].at)
  {
    hide Spawn.GoodSpawn, ZombieSet;
  }

  /** The end of an intermission: the next number, play, and no deadline. */
  lemma IntermissionEnds(s: Snap, t: Snap, now: nat, r: Rules)
    requires Proper(s) && s.life.phase.Over? && s.life.graceAt == 0 && Expired(s, t, now, r)
    ensures now < s.life.intermissionAt ==> t == s
    ensures now >= s.life.intermissionAt ==>
      && BegunAnew(s.seats, t, r) && t.epoch == s.epoch + 1
      && t.life.round == (if s.life.round == 255 then 0 else s.life.round + 1)
      && t.life.phase.Playing? && t.life.intermissionAt == 0 && t.life.graceAt == 0
      && t.life.verdict == s.life.verdict
  {
    hide Fresh, Spread, ZombieSet;
  }

  /** The end of the grace: the next number, on the configured map, parked. */
  lemma GraceEnds(s: Snap, t: Snap, now: nat, r: Rules)
    requires Proper(s) && s.life.graceAt != 0 && Expired(s, t, now, r)
    ensures now >= s.life.graceAt ==>
      && t.epoch == s.epoch + 1 && t.life.round == (if s.life.round == 255 then 0 else s.life.round + 1)
      && t.life.phase.Dormant? && t.life.intermissionAt == 0 && t.life.graceAt == 0
      && Fresh(t.field, r.baseline, {})
      && forall i: nat :: i < 4 ==> t.seats[i].intake.entries == [] && !t.seats[i].intake.haveSeq
  {
    hide Fresh, ZombieSet;
  }

  // --- A slot that changes hands ---------------------------------------------------------------

  /** Whoever comes next to slot i finds it without points, plans, pull on the stick or
      shot, on the spot and as long down as its last actor; the end of a shot is still
      announced. Nobody else notices. */
  lemma HandedOver(s: Snap, i: nat)
    requires Proper(s) && i < 4
    ensures var t := Vacated(s, i);
      var p, shot := s.field.players[i], s.field.shots[i];
      && t.seats == s.seats[i := FREE_SEAT] && t.lastInput == s.lastInput[i := 0] && t.life == s.life && t.epoch == s.epoch
      && t.field == s.field.(
           players := s.field.players[i := Player(p.at, 15, 0, p.respawnAt, Plan(false, 0xFF, false, 0xFF))],
           shots := s.field.shots[i := if shot.active then Shot(false, shot.at, shot.dx, shot.dy, 3) else shot])
  {
    assert s.field.shots[i := s.field.shots[i]] == s.field.shots;
  }

  /** A connection lost without a word. The last human's loss empties the sky of a round in
      play and starts the grace, once; and it ends an intermission at once. */
  lemma LossExactly(s: Snap, i: nat, t: Snap, now: nat, r: Rules)
    requires Proper(s) && i < 4 && Dropped(s, i, t, now, r)
    ensures
      if Humans(s.seats) != {i} || s.life.graceAt != 0 || s.life.phase.Dormant? then t == Vacated(s, i)
      else
        && t.seats[i] == FREE_SEAT && t.life.graceAt == now + r.graceMs && t.life.phase.Playing?
        && if s.life.phase.Playing? then
             && t == Vacated(s, i).(life := t.life, field := Vacated(s, i).field.(shots := t.field.shots))
             && t.life == s.life.(graceAt := t.life.graceAt)
             && t.field.shots == [Shot(false, Cell(0, 0), 0, 0, 0), Shot(false, Cell(0, 0), 0, 0, 0),
                                  Shot(false, Cell(0, 0), 0, 0, 0), Shot(false, Cell(0, 0), 0, 0, 0)]
           else
             && BegunAnew(s.seats[i := FREE_SEAT], t, r) && t.epoch == s.epoch + 1
             && t.life.round == (if s.life.round == 255 then 0 else s.life.round + 1) && t.life.intermissionAt == 0
  {
    hide Fresh, Spread, ZombieSet;
  }

  /** A departure on purpose: the last human's parks the room in its next round at once. */
  lemma DepartureExactly(s: Snap, i: nat, t: Snap, r: Rules)
    requires Proper(s) && i < 4 && Departed(s, i, t, r)
    ensures
      if Humans(s.seats) != {i} then t == Vacated(s, i)
      else
        && t.seats[i] == FREE_SEAT && t.epoch == s.epoch + 1
        && t.life.round == (if s.life.round == 255 then 0 else s.life.round + 1)
        && t.life.phase.Dormant? && t.life.intermissionAt == 0 && t.life.graceAt == 0
        && Sane(t.field) && t.field.bricks == r.baseline && t.field.broken == [] && t.field.occupied == {}
        && forall j: nat :: j < 4 ==>
             && t.field.shots[j] == Shot(false, Cell(0, 0), 0, 0, 0)
             && t.field.players[j] == Player(t.field.players[j].at, 15, 0, 0, Plan(false, 0xFF, false, 0xFF))
  {
    hide ZombieSet;
  }

  /** A HELLO. It wakes a dormant room, whose round starts afresh with everyone on the board;
      between rounds the newcomer waits; and in a round in play its actor joins the board,
      up, where it stands if a zombie was up there, and otherwise where the chooser may put
      it, and nothing else on the board changes. */
  lemma HelloExactly(s: Snap, i: nat, t: Snap, r: Rules)
    requires Proper(s) && Proper(t) && i < 4 && Greeted(s, i, t, r)
    ensures t.seats == s.seats[i := s.seats[i].(handshake := true)] && t.lastInput == s.lastInput && t.epoch == s.epoch
    ensures t.life == s.life.(phase := t.life.phase, graceAt := t.life.graceAt, everZombie := t.life.everZombie)
    ensures
      match s.life.phase
      case Dormant =>
        && t.life.phase.Playing? && t.life.graceAt == s.life.graceAt
        && t.field.occupied == Humans(t.seats) + ZombieSet(t.seats, r.zombies)
        && t.field.bricks == r.baseline && t.field.broken == []
        && forall j: nat :: j < 4 ==>
             && t.field.shots[j] == Shot(false, Cell(0, 0), 0, 0, 0)
             && t.field.players[j] == Player(t.field.players[j].at, 15, 0, 0, Plan(false, 0xFF, false, 0xFF))
      case Over => t.life.phase.Over? && t.life.graceAt == 0 && t.field == s.field
      case Playing =>
        var p, at := s.field.players[i], t.field.players[i].at;
        && t.life.phase.Playing? && t.life.graceAt == 0
        && t.field == s.field.(players := s.field.players[i := p.(at := at, respawnAt := 0)], occupied := s.field.occupied + {i})
        && if i in ZombieSet(s.seats, r.zombies) && Up(s.field, i) then at == p.at else Spawn.GoodSpawn(s.field, at)
  {
    hide Spawn.GoodSpawn, Spread;
  }

  // --- Packets ------------------------------------------------------------------------------------

  /** A HELLO that is let in. */
  predicate Welcome(p: Packet) {
    p.Hello? && p.length == 2 && p.version == 1
  }

  /** Every packet of every connection. Before its HELLO a connection is not heard, and a
      wrong HELLO condemns it; after LEAVE_ROOM it is not heard any more. An input counts
      in the round in play under its own number; unless its number has been seen, it marks
      the moment, and it waits out the room's lag. So does a request for a new place, which
      is granted, and for a brick to be removed, which is, inside the outer wall. Names,
      acknowledgements, a second HELLO and anything else leave the room as it was. */
  lemma PacketExactly(s: Snap, i: nat, p: Packet, t: Snap, now: nat, r: Rules)
    requires Proper(s) && i < 4 && Handled(s, i, p, t, now, r)
    ensures
      var was := s.seats[i];
      if !was.handshake then
        Welcome(p) || t == if p.Hello? then s.(seats := s.seats[i := was.(txFailed := true)]) else s
      else if was.leaving then t == s
      else
        var q := was.intake;
        match p
        case LeaveRoom(_) => t == s.(seats := s.seats[i := was.(leaving := true)])
        case Delta(seqno, joy, round) =>
          if round == s.life.round && s.life.phase.Playing? && Inputs.Unseen(q, seqno) then
            && t == s.(seats := t.seats, lastInput := s.lastInput[i := now])
            && t.seats == s.seats[i := was.(intake := t.seats[i].intake)]
            && t.seats[i].intake == q.(haveSeq := true, lastSeq := seqno, entries :=
                 if Inputs.Repeats(q, joy) then q.entries[|q.entries| - 1 := q.entries[|q.entries| - 1].(seqno := seqno)]
                 else if |q.entries| < 6 then q.entries + [IQ.Input(seqno, joy, now + r.lagMs)]
                 else q.entries)
          else t == s
        case Respawn(round) =>
          if round == s.life.round && s.life.phase.Playing? then
            Proper(t) ==>
              && Spawn.GoodSpawn(s.field, t.field.players[i].at)
              && t == s.(field := s.field.(players := s.field.players[i := s.field.players[i].(at := t.field.players[i].at)]))
          else t == s
        case BrickDelta(x, y, round) =>
          t == if round == s.life.round && s.life.phase.Playing? && 1 <= x <= 18 && 1 <= y <= 17
               then s.(field := Cleared(s.field, Cell(x, y))) else s
        case _ => t == s
  {
    hide Greeted, Spawn.GoodSpawn, IQ.VerdictOn, Inputs.Unseen, Inputs.Repeats;
    var was := s.seats[i];
    assert s.seats[i := was] == s.seats;
    if p.Delta? {
      Inputs.PlainVerdict(was.intake, p.seqno, p.joy);
      IQ.StaleIsIgnored(was.intake, p.seqno, p.joy, now + r.lagMs);
    }
  }

  // --- The verdict ------------------------------------------------------------------------------

  /** What the tick that ends a round announces, and every later round may still show: the
      round's number, its winner, who was on the board, who of them was a zombie then and
      who ever was, and everybody's points. */
  lemma VerdictExactly(s: Snap, t: Snap, ready: Field, turn: Turn, now: nat, r: Rules)
    requires AtRest(s, r) && AtRest(t, r) && s.life.phase.Playing? && Ticked(s, t, ready, turn, now, r)
    ensures t.life.phase.Over? ==> var v := t.life.verdict;
      && v.Match? && v.round == s.life.round && t.life.round == s.life.round && v.limit == r.limit
      && v.active == Humans(s.seats) + ZombieSet(s.seats, r.zombies)
      && v.zombies == ZombieSet(s.seats, r.zombies) && v.everZombie == s.life.everZombie + v.zombies
      && |v.scores| == 4 && (forall i: nat :: i < 4 ==> v.scores[i] == t.field.players[i].score)
      && v.winner < 4 && v.scores[v.winner] == r.limit
      && (forall i: nat :: i < 4 && i != v.winner ==> v.scores[i] < r.limit)
      && t.life.intermissionAt == now + r.intermissionMs
  {
    hide Drained, ZombieSet, Readied, FieldInv, EndedInv, Steered, StaleSlots, AtRest, Combat, Onward, Accounted;
    Runs.AtRestProper(s, r);
    Runs.AtRestProper(t, r);
    Orders.ReadyInv(s, t, ready, turn, now, r);
    Orders.PreparedExactly(s, t, ready, turn, now, r);
    CombatKeeps(ready, turn, r.baseline);
    SameOccupied(ready, Combat(ready, turn).field);
    if t.life.phase.Over? {
      OneWinner(t.field, r.baseline, r.limit, t.life.verdict.winner);
    }
  }

  lemma SameOccupied(f: Field, g: Field)
    requires Sane(f) && Sane(g) && Onward(f, g)
    ensures g.occupied == f.occupied
  {
  }

  lemma OneWinner(f: Field, baseline: set<Cell>, limit: nat, w: nat)
    requires Sane(f) && EndedInv(f, baseline, limit) && WonBy(f, w, limit)
    ensures forall i: nat :: i < 4 && i != w ==> f.players[i].score < limit
  {
  }
}
