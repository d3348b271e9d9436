/** What a room tells a seated client is what the client's session assumes: every run
    of a room, seen from a seat that stays taken, is a run of the server's side of
    module Session. The agreement of the maps is thereby about this room. */
module Broadcast {
  import opened Bytes
  import opened Grid
  import opened Arena
  import opened ArenaSafety
  import opened Seats
  import opened Rounds
  import opened Effects
  import Runs
  import Spawn
  import S = Session
  import MA = MapAgreement
  import Client

  /** The part of a server's state that its announcements are about. */
  datatype View = View(round: nat, phase: byte, bricks: set<Cell>)

  function PhaseByte(p: Phase): byte {
    match p
    case Playing => 0
    case Over => 1
    case Dormant => 2
  }

  function RoomView(s: Snap): View {
    View(s.epoch + 1, PhaseByte(s.life.phase), Inside(s.field.bricks))
  }

  function SessionView(s: S.Session): View {
    View(s.round, s.phase, s.bricks)
  }

  /** The steps by which the server's state changes. */
  predicate IsMove(step: S.Step) {
    step.BreakBrick? || step.EndRound? || step.NewRound?
  }

  function Moved(v: View, step: S.Step): View {
    match step
    case BreakBrick(cell) => if v.phase == Client.PLAYING then v.(bricks := v.bricks - {cell}) else v
    case EndRound => if v.phase == Client.PLAYING then v.(phase := Client.OVER) else v
    case NewRound(bricks) => View(v.round + 1, Client.PLAYING, Inside(bricks))
    case _ => v
  }

  function Played(v: View, steps: seq<S.Step>): View {
    if steps == [] then v else Moved(Played(v, steps[..|steps| - 1]), steps[|steps| - 1])
  }

  function MovesOf(steps: seq<S.Step>): seq<S.Step> {
    if steps == [] then []
    else
      var last := steps[|steps| - 1];
      MovesOf(steps[..|steps| - 1]) + (if IsMove(last) then [last] else [])
  }

  lemma {:induction false} PlayedConcat(v: View, a: seq<S.Step>, b: seq<S.Step>)
    ensures Played(v, a + b) == Played(Played(v, a), b)
    decreases |b|
  {
    hide Moved;
    if b == [] {
      assert a + b == a;
    } else {
      PlayedConcat(v, a, b[..|b| - 1]);
      assert (a + b)[..|a + b| - 1] == a + b[..|b| - 1];
    }
  }

  lemma PlayedOne(v: View, step: S.Step)
    ensures Played(v, [step]) == Moved(v, step)
  {
    assert [step][..0] == [];
    assert Played(v, []) == v;
  }

  lemma {:induction false} OnlyMovesMatter(v: View, steps: seq<S.Step>)
    ensures Played(v, MovesOf(steps)) == Played(v, steps)
    decreases |steps|
  {
    if steps != [] {
      var shorter, last := steps[..|steps| - 1], steps[|steps| - 1];
      OnlyMovesMatter(v, shorter);
      PlayedConcat(v, MovesOf(shorter), if IsMove(last) then [last] else []);
      PlayedOne(Played(v, MovesOf(shorter)), last);
    }
  }

  // --- The session's side -----------------------------------------------------------------

  lemma StepPlays(s: S.Session, step: S.Step)
    requires !S.Next(s, step).failed
    ensures SessionView(S.Next(s, step)) == Moved(SessionView(s), step)
  {
    hide S.Acknowledge, S.PacketOf, S.Applies;
    match step
    case AckArrives => AcknowledgedView(s);
    case _ =>
  }

  lemma AcknowledgedView(s: S.Session)
    ensures s.up != [] ==> SessionView(S.Acknowledge(s.(up := s.up[1..]), s.up[0])) == SessionView(s)
  {
  }

  lemma {:induction false} SessionPlays(s: S.Session, steps: seq<S.Step>)
    requires !S.Exec(s, steps).failed
    ensures SessionView(S.Exec(s, steps)) == Played(SessionView(s), steps)
    decreases |steps|
  {
    hide S.Next, Moved;
    if steps != [] {
      var before := S.Exec(s, steps[..|steps| - 1]);
      if before.failed {
        S.StaysCondemned(before, steps[|steps| - 1]);
      }
      SessionPlays(s, steps[..|steps| - 1]);
      StepPlays(before, steps[|steps| - 1]);
    }
  }

  // --- The room's side ----------------------------------------------------------------------

  function Breaks(cells: seq<Cell>): seq<S.Step> {
    seq(|cells|, i requires 0 <= i < |cells| => S.BreakBrick(cells[i]))
  }

  /** What one event announces: the bricks broken since, and the end of the round; or a
      new round. */
  function Announced(s: Snap, t: Snap, r: Rules): seq<S.Step> {
    if t.epoch != s.epoch then [S.NewRound(r.baseline)]
    else if |s.field.broken| <= |t.field.broken| then
      Breaks(t.field.broken[|s.field.broken|..]) + (if t.life.phase != s.life.phase then [S.EndRound] else [])
    else []
  }

  /** Nothing of what is announced has changed but bricks, in a round that is played. */
  predicate Steady(s: Snap, t: Snap) {
    && t.epoch == s.epoch && t.life.phase == s.life.phase && s.field.broken <= t.field.broken
    && (t.field.broken != s.field.broken ==> s.life.phase.Playing?)
  }

  lemma SteadyChain(s: Snap, t: Snap, u: Snap)
    requires Steady(s, t) && Steady(t, u)
    ensures Steady(s, u)
  {
  }

  lemma {:induction false} BreaksPlayed(v: View, cells: seq<Cell>)
    requires v.phase == Client.PLAYING || cells == []
    ensures Played(v, Breaks(cells)) == v.(bricks := v.bricks - CellsOf(cells))
    decreases |cells|
  {
    if cells == [] {
      assert v.bricks - CellsOf(cells) == v.bricks;
    } else {
      var shorter, last := cells[..|cells| - 1], cells[|cells| - 1];
      BreaksPlayed(v, shorter);
      assert Breaks(cells)[..|cells| - 1] == Breaks(shorter);
      assert cells == shorter + [last];
      assert CellsOf(cells) == CellsOf(shorter) + {last};
      assert (v.bricks - CellsOf(shorter)) - {last} == v.bricks - CellsOf(cells);
    }
  }

  /** The bricks are the configured ones without those announced as broken. */
  ghost predicate Balanced(s: Snap, r: Rules) {
    Proper(s) && Ledger(r.baseline, s.field)
  }

  lemma AtRestBalanced(s: Snap, r: Rules)
    requires AtRest(s, r)
    ensures Balanced(s, r)
  {
  }

  lemma LedgerGrows(s: Snap, t: Snap, r: Rules)
    requires Balanced(s, r) && Balanced(t, r) && s.field.broken <= t.field.broken
    ensures Inside(t.field.bricks) == Inside(s.field.bricks) - CellsOf(t.field.broken[|s.field.broken|..])
  {
    var more := t.field.broken[|s.field.broken|..];
    assert t.field.broken == s.field.broken + more;
    assert CellsOf(t.field.broken) == CellsOf(s.field.broken) + CellsOf(more);
  }

  /** What an event announces accounts for everything it changes. */
  ghost predicate Accounts(s: Snap, t: Snap, r: Rules) {
    || (t.epoch == s.epoch && s.field.broken <= t.field.broken
        && (t.life.phase == s.life.phase || (s.life.phase.Playing? && t.life.phase.Over?))
        && (t.field.broken != s.field.broken ==> s.life.phase.Playing?))
    || (t.epoch == s.epoch + 1 && t.life.phase.Playing? && t.field.bricks == r.baseline)
  }

  lemma AnnouncedIsAll(s: Snap, t: Snap, r: Rules)
    requires Balanced(s, r) && Balanced(t, r) && Accounts(s, t, r)
    ensures Played(RoomView(s), Announced(s, t, r)) == RoomView(t)
  {
    hide Balanced, Played;
    var v := RoomView(s);
    if t.epoch != s.epoch {
      PlayedOne(v, S.NewRound(r.baseline));
    } else {
      var more := t.field.broken[|s.field.broken|..];
      assert t.field.broken == s.field.broken + more;
      LedgerGrows(s, t, r);
      BreaksPlayed(v, more);
      PlayedConcat(v, Breaks(more), if t.life.phase != s.life.phase then [S.EndRound] else []);
      PlayedOne(Played(v, Breaks(more)), S.EndRound);
      assert Played(Played(v, Breaks(more)), []) == Played(v, Breaks(more)) by { PlayedNone(Played(v, Breaks(more))); }
    }
  }

  lemma PlayedNone(v: View)
    ensures Played(v, []) == v
  {
  }

  // --- Every event ----------------------------------------------------------------------------

  /** The seat is taken by a human before and after. */
  predicate Stays(k: nat, s: Snap, t: Snap)
    requires Proper(s) && Proper(t)
  {
    k in Humans(s.seats) && k in Humans(t.seats)
  }

  lemma SlotResetSteady(f: Field, i: nat)
    requires Sane(f) && i < SLOTS
    ensures SlotReset(f, i).bricks == f.bricks && SlotReset(f, i).broken == f.broken
  {
  }

  lemma AcceptedSteady(s: Snap, configured: bool, slot: Option<nat>, t: Snap, now: nat, r: Rules)
    requires Proper(s) && Accepted(s, configured, slot, t, now, r)
    ensures Steady(s, t)
  {
    hide SlotReset, IsZombie;
    if slot.Some? {
      SlotResetSteady(s.field, slot.value);
    }
  }

  lemma HandledSteady(s: Snap, i: nat, p: Packet, t: Snap, now: nat, r: Rules)
    requires Proper(s) && Proper(t) && i < SLOTS && !s.life.phase.Dormant? && Handled(s, i, p, t, now, r)
    ensures Steady(s, t)
  {
    hide Stamps, IntakeAfter, Fresh, Spread, ZombieSet;
  }

  lemma {:induction false} HeardSteady(i: nat, packets: seq<Packet>, heard: seq<Snap>, m: nat, n: nat, now: nat, r: Rules)
    requires i < SLOTS && m <= n <= |packets| && n < |heard| && HeardUpTo(i, packets, heard, n, now, r)
    requires !heard[m].life.phase.Dormant?
    ensures Steady(heard[m], heard[n])
    decreases n
  {
    hide Handled;
    if n > m {
      HeardSteady(i, packets, heard, m, n - 1, now, r);
      assert Handled(heard[n - 1], i, packets[n - 1], heard[n], now, r);
      HandledSteady(heard[n - 1], i, packets[n - 1], heard[n], now, r);
      SteadyChain(heard[m], heard[n - 1], heard[n]);
    }
  }

  /** What the packets of a read leave, and what follows from them. */
  lemma ReadEnds(i: nat, packets: seq<Packet>, failed: bool, heard: seq<Snap>, m: nat, s: Snap, t: Snap, now: nat, r: Rules, k: nat)
    requires Proper(s) && AtRest(t, r) && i < SLOTS && k in Humans(t.seats)
    requires Heard(s, i, packets, failed, heard, t, now, r) && m <= |packets| && !heard[m].life.phase.Dormant?
    ensures Steady(heard[m], t)
  {
    hide Dropped, Departed, HeardUpTo, AtRest;
    HeardSteady(i, packets, heard, m, |packets|, now, r);
    var end := heard[|packets|];
    Runs.HeardProper(i, packets, heard, |packets|, now, r);
    Runs.AtRestProper(t, r);
    if end.seats[i].leaving {
      DepartedSteady(end, i, t, r, k);
    } else if failed || end.seats[i].txFailed {
      DroppedSteady(end, i, t, now, r, k);
    }
    SteadyChain(heard[m], end, t);
  }

  /** While someone else stays, a departure or a loss is nothing but a vacated seat. */
  lemma VacatedSteady(s: Snap, i: nat)
    requires Proper(s) && i < SLOTS
    ensures Steady(s, Vacated(s, i)) && Proper(Vacated(s, i))
  {
    hide SlotReset;
    SlotResetSteady(s.field, i);
  }

  lemma DroppedSteady(s: Snap, i: nat, t: Snap, now: nat, r: Rules, k: nat)
    requires Proper(s) && Proper(t) && i < SLOTS && Dropped(s, i, t, now, r) && k in Humans(t.seats)
    ensures Steady(s, t) && k in Humans(s.seats)
  {
    hide Fresh, Spread, SlotReset, ZombieSet;
    DroppedSeats(s, i, t, now, r);
    assert SameSeat(s.seats[k], t.seats[k]);
    assert Human(s.seats, k) && k != i;
    assert k in Humans(s.seats);
    assert t == Vacated(s, i);
    VacatedSteady(s, i);
  }

  lemma DepartedSteady(s: Snap, i: nat, t: Snap, r: Rules, k: nat)
    requires Proper(s) && AtRest(t, r) && i < SLOTS && Departed(s, i, t, r) && k in Humans(t.seats)
    ensures Steady(s, t)
  {
    hide Fresh, SlotReset, ZombieSet, AtRest;
    Runs.AtRestProper(t, r);
    SeatedIsAwake(t, r, k);
    VacatedSteady(s, i);
  }

  lemma ReadSteady(s: Snap, i: nat, packets: seq<Packet>, failed: bool, heard: seq<Snap>, t: Snap, now: nat, r: Rules, k: nat)
    requires AtRest(s, r) && AtRest(t, r) && i < SLOTS && Stays(k, s, t)
    requires Heard(s, i, packets, failed, heard, t, now, r)
    ensures Steady(s, t)
  {
    hide Dropped, Departed, HeardUpTo, AtRest;
    SeatedIsAwake(s, r, k);
    Runs.AtRestProper(s, r);
    ReadEnds(i, packets, failed, heard, 0, s, t, now, r, k);
  }

  lemma SeatedIsAwake(s: Snap, r: Rules, k: nat)
    requires AtRest(s, r) && k in Humans(s.seats)
    ensures !s.life.phase.Dormant? && s.life.graceAt == 0
  {
  }

  lemma {:induction false} TrailSteady(trail: seq<Snap>, n: nat, now: nat, r: Rules, k: nat)
    requires n <= SLOTS && n < |trail| && ReapedUpTo(trail, n, now, r) && k in Humans(trail[n].seats)
    ensures k in Humans(trail[0].seats) && Steady(trail[0], trail[n])
    decreases n
  {
    hide Dropped, Alive;
    if n > 0 {
      var s, t := trail[n - 1], trail[n];
      assert ReapedAt(s, n - 1, t, now, r);
      if s.seats[n - 1].inUse && !Alive(s.seats[n - 1], now) {
        DroppedSteady(s, n - 1, t, now, r, k);
      }
      TrailSteady(trail, n - 1, now, r, k);
      SteadyChain(trail[0], s, t);
    }
  }

  lemma TimedAccounts(s: Snap, trail: seq<Snap>, t: Snap, now: nat, r: Rules, k: nat)
    requires AtRest(s, r) && AtRest(t, r) && Stays(k, s, t) && Timed(s, trail, t, now, r)
    ensures Accounts(s, t, r)
  {
    hide ReapedAt, FieldSound, Spread, ZombieSet;
    var last := trail[SLOTS];
    assert k in Humans(last.seats) by { ExpiredKeeps(last, t, now, r, k); }
    TrailSteady(trail, SLOTS, now, r, k);
  }

  /** A deadline takes nobody's seat, except that a dormant room has no one in it. */
  lemma ExpiredKeeps(s: Snap, t: Snap, now: nat, r: Rules, k: nat)
    requires Proper(s) && AtRest(t, r) && Expired(s, t, now, r) && k in Humans(t.seats)
    ensures k in Humans(s.seats) && !t.life.phase.Dormant?
  {
    hide FieldSound, Spread, Fresh, ZombieSet;
    SeatedIsAwake(t, r, k);
    SameMasks(RewoundAll(s.seats), s.seats, r.zombies);
  }

  lemma TickedAccounts(s: Snap, t: Snap, ready: Field, turn: Turn, now: nat, r: Rules)
    requires Proper(s) && Proper(t)
    ensures AtRest(s, r) && s.life.phase.Playing? && Ticked(s, t, ready, turn, now, r) ==>
      Accounts(s, t, r)
  {
    hide Combat, Steered, Silenced, Drained, ZombieSet, FieldSound, FieldInv, EndedInv, Respawned, Accounted;
    if AtRest(s, r) && s.life.phase.Playing? && Ticked(s, t, ready, turn, now, r) {
      var steered := Steered(s.field, s.seats, now);
      PlayingIsFieldInv(s.field, r.baseline, r.limit);
      SteeredKeeps(s.field, s.seats, now, r.baseline, r.limit);
      ReadiedKeeps(steered, Actors(s.seats, r.zombies), now, ready, r.baseline, r.limit);
      assert steered.broken == s.field.broken by { SteeredBroken(s.field, s.seats, now); }
      CombatKeeps(ready, turn, r.baseline);
    }
  }

  lemma SteeredBroken(f: Field, seats: seq<Seat>, now: nat)
    requires Sane(f) && Sized(seats)
    ensures Steered(f, seats, now).broken == f.broken
  {
  }

  /** Seen from a seat that stays taken, what an event announces is all that it changes. */
  lemma HappenedAccounts(s: Snap, e: Event, t: Snap, now: nat, r: Rules, k: nat)
    requires Proper(s) && Proper(t)
    ensures AtRest(s, r) && AtRest(t, r) && Stays(k, s, t) && Happened(s, e, t, now, r) ==>
      Accounts(s, t, r)
  {
    hide AtRest, Heard, Timed, Ticked, Accepted;
    if AtRest(s, r) && AtRest(t, r) && Stays(k, s, t) && Happened(s, e, t, now, r) {
      match e
      case Connect(configured) =>
        var slot: Option<nat> :| Accepted(s, configured, slot, t, now, r);
        AcceptedSteady(s, configured, slot, t, now, r);
      case Readable(i, packets, failed) =>
        if i < SLOTS && s.seats[i].inUse {
          var heard: seq<Snap> :| Heard(s, i, packets, failed, heard, t, now, r);
          ReadSteady(s, i, packets, failed, heard, t, now, r, k);
        }
      case SendFails(i) =>
      case Timers =>
        var trail: seq<Snap> :| Timed(s, trail, t, now, r);
        TimedAccounts(s, trail, t, now, r, k);
      case TickDue =>
        if s.life.phase.Playing? {
          var ready: Field, turn: Turn :| Ticked(s, t, ready, turn, now, r);
          TickedAccounts(s, t, ready, turn, now, r);
        }
    }
  }

  // --- Every run ------------------------------------------------------------------------------

  /** Everything announced between states i and j of a run. */
  function RunMoves(run: seq<Snap>, i: nat, j: nat, r: Rules): seq<S.Step>
    requires i <= j < |run|
    decreases j
  {
    if i == j then [] else RunMoves(run, i, j - 1, r) + Announced(run[j - 1], run[j], r)
  }

  /** The seat is taken by the same human from state i of a run to state j. */
  ghost predicate Seated(run: seq<Snap>, k: nat, i: nat, j: nat)
    requires i <= j < |run|
  {
    forall m :: i <= m <= j ==> Proper(run[m]) && k in Humans(run[m].seats)
  }

  lemma {:induction false} RunIsPlayed(run: seq<Snap>, events: seq<(nat, Event)>, times: seq<nat>, r: Rules, k: nat, i: nat, j: nat)
    requires History(run, events, times, r) && i <= j < |run| && Seated(run, k, i, j)
    ensures Played(RoomView(run[i]), RunMoves(run, i, j, r)) == RoomView(run[j])
    decreases j
  {
    hide AtRest, Happened, Played, Announced, Accounts, Proper;
    if i == j {
      PlayedNone(RoomView(run[i]));
    } else {
      RunIsPlayed(run, events, times, r, k, i, j - 1);
      var s, t := run[j - 1], run[j];
      assert AtRest(s, r) && AtRest(t, r);
      assert Happened(s, events[j - 1].1, t, times[j - 1], r);
      HappenedAccounts(s, events[j - 1].1, t, times[j - 1], r, k);
      AtRestBalanced(s, r);
      AtRestBalanced(t, r);
      AnnouncedIsAll(s, t, r);
      PlayedConcat(RoomView(run[i]), RunMoves(run, i, j - 1, r), Announced(s, t, r));
    }
  }

  // --- The opening of a session -----------------------------------------------------------------

  /** In the course of a read that leads from s to t, the connection in slot k says an
      accepted HELLO, which leaves the room in state o. */
  ghost predicate Greets(s: Snap, k: nat, e: Event, heard: seq<Snap>, m: nat, o: Snap, t: Snap, now: nat, r: Rules) {
    && Proper(s) && e.Readable? && e.slot == k && k < SLOTS && m < |e.packets|
    && Heard(s, k, e.packets, e.failed, heard, t, now, r)
    && !heard[m].seats[k].handshake && GoodHello(e.packets[m]) && o == heard[m + 1]
  }

  /** State o is where a session may open for the client that is seated from state i of
      the run: the state that its HELLO left, in the midst of the event before, or any
      state between two events. */
  ghost predicate OpensAt(run: seq<Snap>, events: seq<(nat, Event)>, times: seq<nat>, r: Rules, k: nat, i: nat, o: Snap)
    requires |run| == |events| + 1 && |times| == |events| && i < |run|
  {
    || o == run[i]
    || (i > 0 && HelloLeft(run[i - 1], k, events[i - 1].1, o, run[i], times[i - 1], r))
  }

  ghost predicate HelloLeft(s: Snap, k: nat, e: Event, o: Snap, t: Snap, now: nat, r: Rules) {
    exists heard: seq<Snap>, m: nat :: Greets(s, k, e, heard, m, o, t, now, r)
  }

  lemma HandledBalanced(s: Snap, i: nat, p: Packet, t: Snap, now: nat, r: Rules)
    requires Balanced(s, r) && Proper(t) && i < SLOTS && Handled(s, i, p, t, now, r)
    ensures Balanced(t, r)
  {
    hide Stamps, IntakeAfter, Spread, ZombieSet, Spawn.GoodSpawn;
  }

  lemma {:induction false} HeardBalanced(i: nat, packets: seq<Packet>, heard: seq<Snap>, n: nat, now: nat, r: Rules)
    requires i < SLOTS && n <= |packets| && n < |heard| && HeardUpTo(i, packets, heard, n, now, r)
    requires Balanced(heard[0], r)
    ensures Balanced(heard[n], r)
    decreases n
  {
    hide Handled, Balanced;
    if n > 0 {
      HeardBalanced(i, packets, heard, n - 1, now, r);
      assert Handled(heard[n - 1], i, packets[n - 1], heard[n], now, r);
      HandledBalanced(heard[n - 1], i, packets[n - 1], heard[n], now, r);
    }
  }

  lemma HelloWakes(s: Snap, i: nat, p: Packet, t: Snap, now: nat, r: Rules)
    requires Proper(s) && i < SLOTS && !s.seats[i].handshake && GoodHello(p) && Handled(s, i, p, t, now, r)
    ensures !t.life.phase.Dormant?
  {
    hide Fresh, Spread, ZombieSet;
  }

  /** From the state that an accepted HELLO leaves, whatever else the same read brings. */
  lemma GreetedAccounts(s: Snap, k: nat, e: Event, heard: seq<Snap>, m: nat, o: Snap, t: Snap, now: nat, r: Rules)
    requires AtRest(s, r) && AtRest(t, r) && Greets(s, k, e, heard, m, o, t, now, r) && k in Humans(t.seats)
    ensures Balanced(o, r) && !o.life.phase.Dormant? && Accounts(o, t, r)
  {
    hide AtRest, Handled, Ledger;
    AtRestBalanced(s, r);
    assert HeardUpTo(k, e.packets, heard, m + 1, now, r);
    HeardBalanced(k, e.packets, heard, m + 1, now, r);
    assert Handled(heard[m], k, e.packets[m], heard[m + 1], now, r);
    HelloWakes(heard[m], k, e.packets[m], o, now, r);
    ReadEnds(k, e.packets, e.failed, heard, m + 1, s, t, now, r, k);
  }

  /** From its opening on, the session is told everything. */
  lemma OpenedIsPlayed(run: seq<Snap>, events: seq<(nat, Event)>, times: seq<nat>, r: Rules, k: nat, o: Snap, i: nat, j: nat)
    requires History(run, events, times, r) && i <= j < |run| && Seated(run, k, i, j)
    requires OpensAt(run, events, times, r, k, i, o)
    ensures !o.life.phase.Dormant?
    ensures Played(RoomView(o), Announced(o, run[i], r) + RunMoves(run, i, j, r)) == RoomView(run[j])
  {
    hide AtRest, Happened, Played, Announced, Greets, Proper, Balanced;
    var t := run[i];
    assert AtRest(t, r);
    AtRestBalanced(t, r);
    SeatedIsAwake(t, r, k);
    if o != t {
      var heard: seq<Snap>, m: nat :| Greets(run[i - 1], k, events[i - 1].1, heard, m, o, t, times[i - 1], r);
      assert AtRest(run[i - 1], r);
      GreetedAccounts(run[i - 1], k, events[i - 1].1, heard, m, o, t, times[i - 1], r);
    }
    AnnouncedIsAll(o, t, r);
    RunIsPlayed(run, events, times, r, k, i, j);
    PlayedConcat(RoomView(o), Announced(o, t, r), RunMoves(run, i, j, r));
  }

  /** The session that opens in state o. */
  function OpenedIn(o: Snap, client: Client.State): S.Session {
    S.Opening(o.epoch + 1, o.life.phase.Playing?, o.field.bricks, client)
  }

  lemma OpenedView(o: Snap, client: Client.State)
    requires !o.life.phase.Dormant?
    ensures SessionView(OpenedIn(o, client)) == RoomView(o)
  {
  }

  lemma RoundOnWire(s: Snap, r: Rules)
    requires AtRest(s, r)
    ensures s.life.round == S.RoundByte(s.epoch + 1)
  {
  }

  /** Every run of a room, in which the client of slot k says HELLO and then stays seated
      from state i to state j, and every run of that client's session, with whatever
      losses and delays, in which the server announces what the room announces from the
      moment of the HELLO, other packets of the same read included. Unless the connection
      is condemned, the client's map contains the room's bricks as soon as it has a
      reliable map of the room's round; and whenever the queue has drained, round, phase
      and bricks are the room's own. */
  lemma MapsOfThisRoom(run: seq<Snap>, events: seq<(nat, Event)>, times: seq<nat>, r: Rules, k: nat, o: Snap, i: nat, j: nat,
                       client: Client.State, steps: seq<S.Step>)
    requires i <= j < |run| && S.NewClient(client)
    requires MovesOf(steps) == Announced(o, run[i], r) + RunMoves(run, i, j, r)
    ensures
      var s, room := S.Exec(OpenedIn(o, client), steps), run[j];
      History(run, events, times, r) && OpensAt(run, events, times, r, k, i, o) && Seated(run, k, i, j) && !s.failed ==>
        && SessionView(s) == RoomView(room)
        && (s.client.welcomed && s.client.mapReady && s.client.round == room.life.round ==>
              Inside(room.field.bricks) <= s.client.bricks)
        && (s.client.welcomed && MA.Drained(s) ==>
              && s.client.round == room.life.round && s.client.phase == PhaseByte(room.life.phase)
              && (s.client.mapReady ==> s.client.bricks == Inside(room.field.bricks)))
  {
    hide AtRest, Happened, Played, S.Exec, S.Opening, Proper, OpensAt, Seated, Announced;
    var start := OpenedIn(o, client);
    var s := S.Exec(start, steps);
    if History(run, events, times, r) && OpensAt(run, events, times, r, k, i, o) && Seated(run, k, i, j) && !s.failed {
      assert AtRest(run[j], r);
      OpenedIsPlayed(run, events, times, r, k, o, i, j);
      OpenedView(o, client);
      SessionPlays(start, steps);
      OnlyMovesMatter(SessionView(start), steps);
      RoundOnWire(run[j], r);
      MA.ClientMapContainsServerMap(o.epoch + 1, o.life.phase.Playing?, o.field.bricks, client, steps);
      MA.MapsEqualWhenDrained(o.epoch + 1, o.life.phase.Playing?, o.field.bricks, client, steps);
    }
  }
}
