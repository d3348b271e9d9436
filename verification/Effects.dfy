/** What each event does to a room, as relations between its states before and after.
    The methods of module Room are proved to stay within them. */
module Effects {
  import opened Bytes
  import opened Grid
  import opened Arena
  import opened ArenaSafety
  import opened Seats
  import opened Rounds
  import Spawn
  import IQ = InputQueue

  const INPUT_STALE_MS := 500
  const PROTOCOL_VERSION: byte := 1

  datatype Rules = Rules(zombies: nat, limit: nat, intermissionMs: nat, graceMs: nat, lagMs: nat, baseline: set<Cell>)

  predicate RulesOk(r: Rules) {
    r.zombies < SLOTS && 1 <= r.limit <= 10 && r.intermissionMs >= 100 && r.graceMs >= 100
  }

  datatype Packet =
    | Hello(version: byte, length: nat)
    | LeaveRoom(tag: byte)
    | ReliableAck(revision: word)
    | Delta(seqno: byte, joy: byte, round: byte)
    | Name
    | Respawn(round: byte)
    | BrickDelta(x: byte, y: byte, round: byte)
    | Unknown

  /** What happens to a room: a peer connects, a socket becomes readable, a send
      fails, the timers are serviced, a tick falls due. */
  datatype Event =
    | Connect(configured: bool)
    | Readable(slot: nat, packets: seq<Packet>, failed: bool)
    | SendFails(slot: nat)
    | Timers
    | TickDue

  predicate GoodHello(p: Packet) {
    p.Hello? && p.length == 2 && p.version == PROTOCOL_VERSION
  }

  /** A connection that has neither failed nor fallen silent. */
  predicate Alive(s: Seat, now: int) {
    && !s.txFailed
    && if s.handshake then now - s.lastSeen < CLIENT_TIMEOUT_MS else now - s.connectedAt < CLIENT_HANDSHAKE_MS
  }

  /** A slot put on the board at c. */
  function Joined(f: Field, i: nat, c: Cell): (g: Field)
    requires Sane(f) && i < SLOTS
    ensures Sane(g)
  {
    WithPlayer(f, i, f.players[i].(at := c, respawnAt := 0)).(occupied := f.occupied + {i})
  }

  function Relocated(f: Field, i: nat, c: Cell): (g: Field)
    requires Sane(f) && i < SLOTS
    ensures Sane(g)
  {
    WithPlayer(f, i, f.players[i].(at := c))
  }

  // --- Rounds -----------------------------------------------------------------------------

  /** A round has just begun with those who were seated. */
  ghost predicate BegunAnew(was: seq<Seat>, t: Snap, r: Rules)
    requires Sized(was)
  {
    && Proper(t) && t.seats == RewoundAll(was) && t.lastInput == NoInput()
    && t.life.everZombie == ZombieSet(was, r.zombies)
    && Fresh(t.field, r.baseline, Actors(was, r.zombies)) && Spread(t.field, Actors(was, r.zombies), SLOTS)
  }

  /** The room has just been parked. */
  ghost predicate GoneDormant(s: Snap, was: seq<Seat>, t: Snap, r: Rules)
    requires Sized(was)
  {
    && t.seats == RewoundAll(was) && t.lastInput == NoInput() && t.epoch == s.epoch + 1
    && t.life == Parked(NextRound(s.life, ZombieSet(was, r.zombies))) && Fresh(t.field, r.baseline, {})
  }

  // --- Leaving --------------------------------------------------------------------------------

  function Vacated(s: Snap, i: nat): Snap
    requires Proper(s) && i < SLOTS
  {
    s.(seats := s.seats[i := FREE_SEAT], lastInput := s.lastInput[i := 0], field := SlotReset(s.field, i))
  }

  /** A connection is gone without a word: unless it was the last human's, the seat is
      freed and nothing else changes; the last one's loss starts the grace, and a
      finished round gives way to the next. */
  ghost predicate Dropped(s: Snap, i: nat, t: Snap, now: nat, r: Rules)
    requires Proper(s) && i < SLOTS
  {
    var vacated, waiting := s.seats[i := FREE_SEAT], s.life.(graceAt := now + r.graceMs);
    if Humans(s.seats) != {i} || s.life.graceAt != 0 || s.life.phase.Dormant? then t == Vacated(s, i)
    else if s.life.phase.Playing? then
      t == Vacated(s, i).(life := waiting, field := NoShotsAtAll(SlotReset(s.field, i)))
    else
      && BegunAnew(vacated, t, r) && t.epoch == s.epoch + 1
      && t.life == NextRound(waiting, ZombieSet(vacated, r.zombies))
  }

  /** A human leaves on purpose; after the last one the room is dormant at once. */
  ghost predicate Departed(s: Snap, i: nat, t: Snap, r: Rules)
    requires Proper(s) && i < SLOTS
  {
    if Humans(s.seats) == {i} then GoneDormant(s, s.seats[i := FREE_SEAT], t, r) else t == Vacated(s, i)
  }

  // --- Arriving -------------------------------------------------------------------------------

  /** A connection is turned away only when no seat can be had; it gets the preferred
      seat, blank. */
  ghost predicate Accepted(s: Snap, configured: bool, slot: Option<nat>, t: Snap, now: nat, r: Rules)
    requires Proper(s)
  {
    && (slot.None? <==>
        (!configured ||
         forall i :: 0 <= i < SLOTS ==> s.seats[i].inUse && (IsZombie(s.seats, r.zombies, i) || s.seats[i].handshake)))
    && (forall i: nat :: configured && FreeHumanSeat(s.seats, r.zombies, i) ==>
          slot.Some? && FreeHumanSeat(s.seats, r.zombies, slot.value))
    && (slot.None? ==> t == s)
    && (slot.Some? ==>
          && Preferred(s.seats, r.zombies, slot.value) && slot.value !in Humans(s.seats)
          && var blank := FREE_SEAT.(inUse := true, connectedAt := now, lastSeen := now);
             t == Vacated(s, slot.value).(seats := s.seats[slot.value := blank]))
  }

  /** A HELLO: the seat becomes a human's; a dormant room wakes and a running grace is
      called off; in a running round the newcomer's actor comes onto the board, where it
      stands if a zombie stood there, and otherwise where it may be spawned. */
  ghost predicate Greeted(s: Snap, i: nat, t: Snap, r: Rules)
    requires Proper(s) && i < SLOTS
  {
    var seats := s.seats[i := s.seats[i].(handshake := true)];
    && t.seats == seats && t.lastInput == s.lastInput && t.epoch == s.epoch
    && t.life == (if s.life.phase.Dormant?
                  then s.life.(phase := Playing, everZombie := ZombieSet(seats, r.zombies))
                  else s.life.(graceAt := 0))
    && (s.life.phase.Dormant? ==>
          Fresh(t.field, r.baseline, Actors(seats, r.zombies)) && Spread(t.field, Actors(seats, r.zombies), SLOTS))
    && (s.life.phase.Over? ==> t.field == s.field)
    && (s.life.phase.Playing? ==> exists c: Cell :: PutOnBoard(s, i, t.field, c, r))
  }

  ghost predicate PutOnBoard(s: Snap, i: nat, g: Field, c: Cell, r: Rules)
    requires Proper(s) && i < SLOTS
  {
    && g == Joined(s.field, i, c)
    && if IsZombie(s.seats, r.zombies, i) && OnBoard(s.field, i)
       then c == s.field.players[i].at
       else Spawn.GoodSpawn(s.field, c)
  }

  // --- Packets ------------------------------------------------------------------------------------

  /** An input that the round in progress takes. */
  predicate Counts(p: Packet, life: Life) {
    p.Delta? && p.round == life.round && life.phase.Playing?
  }

  function IntakeAfter(q: IQ.Intake, p: Packet, life: Life, readyAt: nat): IQ.Intake {
    if Counts(p, life) then IQ.Accepted(q, p.seqno, p.joy, readyAt) else q
  }

  /** An input that shows its sender to be steering. */
  predicate Stamps(q: IQ.Intake, p: Packet, life: Life) {
    Counts(p, life) && !IQ.VerdictOn(q, p.seqno, p.joy).Stale?
  }

  /** A request to remove a brick that the round in progress grants. */
  function Granted(f: Field, p: Packet, life: Life): Field {
    if p.BrickDelta? && life.phase.Playing? && p.round == life.round && InBounds(Cell(p.x, p.y)) && !OuterWall(Cell(p.x, p.y))
    then Break(f, Cell(p.x, p.y))
    else f
  }

  predicate Relocates(p: Packet, life: Life) {
    p.Respawn? && life.phase.Playing? && p.round == life.round
  }

  ghost predicate MovedTo(f: Field, i: nat, g: Field, c: Cell)
    requires Sane(f) && i < SLOTS
  {
    Spawn.GoodSpawn(f, c) && g == Relocated(f, i, c)
  }

  /** A packet of a human who has not asked to leave. */
  ghost predicate Played(s: Snap, i: nat, p: Packet, t: Snap, now: nat, r: Rules)
    requires Proper(s) && i < SLOTS
  {
    var was := s.seats[i];
    var seat := was.(leaving := p.LeaveRoom?, intake := IntakeAfter(was.intake, p, s.life, now + r.lagMs));
    && t == s.(seats := s.seats[i := seat], field := t.field,
               lastInput := if Stamps(was.intake, p, s.life) then s.lastInput[i := now] else s.lastInput)
    && if Relocates(p, s.life) then exists c: Cell :: MovedTo(s.field, i, t.field, c)
       else t.field == Granted(s.field, p, s.life)
  }

  /** One decoded packet. Before HELLO nothing else is heard, and a bad HELLO condemns
      the connection; after LEAVE_ROOM nothing more counts. */
  ghost predicate Handled(s: Snap, i: nat, p: Packet, t: Snap, now: nat, r: Rules)
    requires Proper(s) && i < SLOTS
  {
    var was := s.seats[i];
    if !was.handshake then
      if GoodHello(p) then Greeted(s, i, t, r)
      else t == s.(seats := s.seats[i := was.(txFailed := was.txFailed || p.Hello?)])
    else if was.leaving then t == s
    else Played(s, i, p, t, now, r)
  }

  /** The packets of one read, each on what the one before it left; then, at once, the
      departure that they asked for, or the drop of a failed connection. */
  ghost predicate Heard(s: Snap, i: nat, packets: seq<Packet>, failed: bool, heard: seq<Snap>, t: Snap, now: nat, r: Rules)
    requires Proper(s) && i < SLOTS
  {
    && |heard| == |packets| + 1 && heard[0] == s.(seats := s.seats[i := s.seats[i].(lastSeen := now)])
    && HeardUpTo(i, packets, heard, |packets|, now, r)
    && var end := heard[|packets|];
       if end.seats[i].leaving then Departed(end, i, t, r)
       else if failed || end.seats[i].txFailed then Dropped(end, i, t, now, r)
       else t == end
  }

  ghost predicate HeardUpTo(i: nat, packets: seq<Packet>, heard: seq<Snap>, n: nat, now: nat, r: Rules)
    requires i < SLOTS && n <= |packets| && n < |heard|
  {
    && (forall m :: 0 <= m <= n ==> Proper(heard[m]))
    && (forall m, next :: 0 <= m < n && next == m + 1 ==> Handled(heard[m], i, packets[m], heard[next], now, r))
  }

  // --- Timers -------------------------------------------------------------------------------------

  /** Slot by slot, the silent and the failed are dropped and no one else. */
  ghost predicate ReapedUpTo(trail: seq<Snap>, n: nat, now: nat, r: Rules)
    requires n <= SLOTS && n < |trail|
  {
    && (forall i :: 0 <= i <= n ==> Proper(trail[i]))
    && (forall i: nat, next :: i < n && next == i + 1 ==> ReapedAt(trail[i], i, trail[next], now, r))
  }

  ghost predicate ReapedAt(s: Snap, i: nat, t: Snap, now: nat, r: Rules)
    requires Proper(s) && i < SLOTS
  {
    if s.seats[i].inUse && !Alive(s.seats[i], now) then Dropped(s, i, t, now, r) else t == s
  }

  /** A deadline that has passed does exactly its own transition. */
  ghost predicate Expired(s: Snap, t: Snap, now: nat, r: Rules)
    requires Proper(s)
  {
    if s.life.graceAt != 0 && now >= s.life.graceAt then GoneDormant(s, s.seats, t, r)
    else if s.life.phase.Over? && now >= s.life.intermissionAt then
      && BegunAnew(s.seats, t, r) && t.epoch == s.epoch + 1
      && t.life == NextRound(s.life, ZombieSet(s.seats, r.zombies))
    else t == s
  }

  ghost predicate Timed(s: Snap, trail: seq<Snap>, t: Snap, now: nat, r: Rules)
    requires Proper(s)
  {
    |trail| == SLOTS + 1 && trail[0] == s && ReapedUpTo(trail, SLOTS, now, r) && Expired(trail[SLOTS], t, now, r)
  }

  // --- Ticks -------------------------------------------------------------------------------------------

  /** The turn that a tick gives everyone: who drives which slot, and the moods. */
  ghost predicate TurnOf(s: Snap, turn: Turn, now: nat, r: Rules)
    requires Proper(s)
  {
    && |turn.whims| == SLOTS && r.limit > 0
    && turn == Turn(ZombieSet(s.seats, r.zombies), Humans(s.seats),
                    StaleSlots(s.seats, s.lastInput, now, INPUT_STALE_MS), turn.whims, now, r.limit)
  }

  /** A tick of a running round: the inputs are taken, the field is readied, everyone
      acts and the shots fly; the hit that ends the round freezes it. */
  ghost predicate Ticked(s: Snap, t: Snap, ready: Field, turn: Turn, now: nat, r: Rules)
    requires Proper(s)
  {
    var mask, seats := ZombieSet(s.seats, r.zombies), Drained(s.seats, now);
    && TurnOf(s, turn, now, r)
    && Readied(Steered(s.field, s.seats, now), Actors(s.seats, r.zombies), now, ready)
    && t.lastInput == s.lastInput && t.epoch == s.epoch && t.field == Combat(ready, turn).field
    && if Combat(ready, turn).ended
       then t.seats == Silenced(seats) && t.life.verdict.Match?
            && WonBy(t.field, t.life.verdict.winner, r.limit)
            && t.life == Finished(s.life, t.field, mask, t.life.verdict.winner, r.limit, now + r.intermissionMs)
       else t.seats == seats && t.life == s.life.(everZombie := s.life.everZombie + mask)
  }

  predicate WonBy(f: Field, w: nat, limit: nat)
    requires Sane(f)
  {
    w < SLOTS && f.players[w].score == limit
  }

  // --- Events ------------------------------------------------------------------------------------------

  ghost predicate Happened(s: Snap, e: Event, t: Snap, now: nat, r: Rules)
    requires Proper(s)
  {
    match e
    case Connect(configured) => exists slot: Option<nat> :: Accepted(s, configured, slot, t, now, r)
    case Readable(i, packets, failed) =>
      if i < SLOTS && s.seats[i].inUse then exists heard: seq<Snap> :: Heard(s, i, packets, failed, heard, t, now, r)
      else t == s
    case SendFails(i) =>
      t == if i < SLOTS && s.seats[i].inUse then s.(seats := s.seats[i := s.seats[i].(txFailed := true)]) else s
    case Timers => exists trail: seq<Snap> :: Timed(s, trail, t, now, r)
    case TickDue =>
      if s.life.phase.Playing? then exists ready: Field, turn: Turn :: Ticked(s, t, ready, turn, now, r) else t == s
  }

  /** What every state between two events of a run has. */
  ghost predicate AtRest(s: Snap, r: Rules) {
    Proper(s) && RulesOk(r) && FieldSound(s.field, r.baseline, r.limit, s.life.phase) && LifeOk(s.life, Humans(s.seats))
      && s.life.round == (s.epoch + 1) % 256
  }

  /** A room as it comes up: nobody seated, dormant, on its configured map, with every
      actor where the chooser may put it. */
  ghost predicate Newborn(s: Snap, r: Rules) {
    && Proper(s) && s.seats == seq(SLOTS, _ => FREE_SEAT) && s.lastInput == NoInput() && s.epoch == 0
    && s.life == Life(1, Dormant, 0, 0, NoVerdict, ZombieSet(s.seats, r.zombies))
    && Fresh(s.field, r.baseline, {})
    && forall i :: 0 <= i < SLOTS ==> Spawn.GoodSpawn(s.field, s.field.players[i].at)
  }

  /** A run: its states, its events, each with the time since the one before, and the
      times at which they happened. */
  ghost predicate History(run: seq<Snap>, events: seq<(nat, Event)>, times: seq<nat>, r: Rules) {
    && |run| == |events| + 1 && |times| == |events|
    && (forall m :: 0 <= m < |run| ==> AtRest(run[m], r))
    && (forall m, next :: 0 <= m < |events| && next == m + 1 ==> Happened(run[m], events[m].1, run[next], times[m], r))
    && (forall m, next :: 0 <= m && next == m + 1 < |events| ==> times[next] == times[m] + events[next].0)
  }

  // --- What the timers leave of the seats ------------------------------------------------------------------

  /** The same holder, at most with the input queue of a new round: empty, and ready to
      take any number. */
  predicate SameSeat(a: Seat, b: Seat) {
    b == a || b == a.(intake := IQ.Intake(false, a.intake.lastSeq, false, a.intake.applied, []))
  }

  lemma DroppedSeats(s: Snap, i: nat, t: Snap, now: nat, r: Rules)
    requires Proper(s) && Proper(t) && i < SLOTS && Dropped(s, i, t, now, r)
    ensures t.seats[i] == FREE_SEAT
    ensures forall j :: 0 <= j < SLOTS && j != i ==> SameSeat(s.seats[j], t.seats[j])
    ensures forall j :: 0 <= j < SLOTS && s.seats[j] == FREE_SEAT ==> t.seats[j] == FREE_SEAT
  {
    hide SlotReset, Fresh, Spread, ZombieSet;
  }

  /** A seat is taken away when its transmission has failed, when a client that has said
      HELLO has been silent for fifteen seconds, and when one that has not has been
      connected for three. */
  predicate Forfeit(s: Seat, now: nat) {
    s.inUse && (s.txFailed || (s.handshake && now - s.lastSeen >= 15000) || (!s.handshake && now - s.connectedAt >= 3000))
  }

  lemma ForfeitExactly(s: Seat, now: nat)
    ensures Forfeit(s, now) <==> s.inUse && !Alive(s, now)
  {
  }

  /** Exactly the silent and the failed lose their seats. */
  lemma {:induction false} ReapedExactly(trail: seq<Snap>, n: nat, now: nat, r: Rules)
    requires n <= SLOTS && n < |trail| && ReapedUpTo(trail, n, now, r)
    ensures forall i :: 0 <= i < SLOTS ==>
      if i < n && Forfeit(trail[0].seats[i], now)
      then trail[n].seats[i] == FREE_SEAT
      else SameSeat(trail[0].seats[i], trail[n].seats[i])
    decreases n
  {
    hide Dropped, Alive, Forfeit;
    if n > 0 {
      var k := n - 1;
      ReapedExactly(trail, k, now, r);
      var s, t := trail[k], trail[n];
      assert ReapedAt(s, k, t, now, r);
      ForfeitExactly(trail[0].seats[k], now);
      SameIsAlive(trail[0].seats[k], s.seats[k], now);
      if s.seats[k].inUse && !Alive(s.seats[k], now) {
        DroppedSeats(s, k, t, now, r);
      }
    }
  }

  lemma SameIsAlive(a: Seat, b: Seat, now: nat)
    requires SameSeat(a, b)
    ensures b.inUse == a.inUse && Alive(b, now) == Alive(a, now)
  {
  }

  lemma {:induction false} ReapedMore(trail: seq<Snap>, n: nat, t: Snap, now: nat, r: Rules)
    requires n < SLOTS && |trail| == n + 1 && ReapedUpTo(trail, n, now, r) && Proper(t) && ReapedAt(trail[n], n, t, now, r)
    ensures ReapedUpTo(trail + [t], n + 1, now, r)
  {
    hide ReapedAt;
  }

  lemma HeardMore(i: nat, packets: seq<Packet>, heard: seq<Snap>, n: nat, t: Snap, now: nat, r: Rules)
    requires i < SLOTS && n < |packets| && |heard| == n + 1 && HeardUpTo(i, packets, heard, n, now, r)
    requires Proper(t) && Handled(heard[n], i, packets[n], t, now, r)
    ensures HeardUpTo(i, packets, heard + [t], n + 1, now, r)
  {
    hide Handled;
  }

  lemma HistoryMore(run: seq<Snap>, events: seq<(nat, Event)>, times: seq<nat>, t: Snap, e: (nat, Event), now: nat, r: Rules)
    requires History(run, events, times, r) && AtRest(t, r) && Happened(run[|events|], e.1, t, now, r)
    requires times != [] ==> now == times[|times| - 1] + e.0
    ensures History(run + [t], events + [e], times + [now], r)
  {
    hide Happened, AtRest;
  }
}
