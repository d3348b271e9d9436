/** Who sits where: connections, humans, and the slots that zombies drive. */
module Seats {
  import opened Bytes
  import opened Grid
  import opened Arena
  import opened ArenaSafety
  import IQ = InputQueue

  const CLIENT_TIMEOUT_MS := 15000
  const CLIENT_HANDSHAKE_MS := 3000

  datatype Seat = Seat(
    inUse: bool, handshake: bool, connectedAt: nat, lastSeen: nat, leaving: bool, txFailed: bool, intake: IQ.Intake)

  const FREE_SEAT := Seat(false, false, 0, 0, false, false, IQ.EMPTY)

  predicate Sized(seats: seq<Seat>) {
    |seats| == SLOTS
  }

  predicate Human(seats: seq<Seat>, i: nat)
    requires Sized(seats)
  {
    i < SLOTS && seats[i].inUse && seats[i].handshake
  }

  function Humans(seats: seq<Seat>): set<nat>
    requires Sized(seats)
  {
    set i: nat | i < SLOTS && Human(seats, i)
  }

  /** How many of the slots 1 .. n - 1 no human holds. */
  function NonHumans(seats: seq<Seat>, n: nat): nat
    requires Sized(seats) && n <= SLOTS
  {
    if n <= 1 then 0 else NonHumans(seats, n - 1) + (if Human(seats, n - 1) then 0 else 1)
  }

  /** Zombies drive the first few slots, counted from 1, that no human holds. */
  predicate IsZombie(seats: seq<Seat>, zombies: nat, i: nat)
    requires Sized(seats)
  {
    1 <= i < SLOTS && !Human(seats, i) && NonHumans(seats, i) < zombies
  }

  function ZombieSet(seats: seq<Seat>, zombies: nat): set<nat>
    requires Sized(seats)
  {
    set i: nat | i < SLOTS && IsZombie(seats, zombies, i)
  }

  /** compute_zombie_mask */
  method ComputeZombieMask(seats: seq<Seat>, zombies: nat) returns (mask: set<nat>)
    requires Sized(seats)
    ensures mask == ZombieSet(seats, zombies)
  {
    mask := {};
    if zombies <= 0 {
      return;
    }
    var remaining := zombies;
    var i := 1;
    while i < SLOTS && remaining > 0
      invariant 1 <= i <= SLOTS
      invariant NonHumans(seats, i) <= zombies && remaining == zombies - NonHumans(seats, i)
      invariant mask == set j: nat | j < i && IsZombie(seats, zombies, j)
    {
      if !Human(seats, i) {
        mask := mask + {i};
        remaining := remaining - 1;
      }
      i := i + 1;
    }
    if i < SLOTS {
      forall j: nat | i <= j < SLOTS
        ensures NonHumans(seats, j) >= zombies
      {
        NonHumansGrow(seats, i, j);
      }
    }
  }

  lemma {:induction false} NonHumansGrow(seats: seq<Seat>, m: nat, n: nat)
    requires Sized(seats) && m <= n <= SLOTS
    ensures NonHumans(seats, m) <= NonHumans(seats, n)
    decreases n
  {
    if m < n {
      NonHumansGrow(seats, m, n - 1);
    }
  }

  method HumanCount(seats: seq<Seat>) returns (count: nat)
    requires Sized(seats)
    ensures count == |Humans(seats)|
  {
    count := 0;
    ghost var seen: set<nat> := {};
    var i := 0;
    while i < SLOTS
      invariant 0 <= i <= SLOTS && count == |seen|
      invariant seen == set j: nat | j < i && Human(seats, j)
    {
      if seats[i].inUse && seats[i].handshake {
        count := count + 1;
        seen := seen + {i};
      }
      i := i + 1;
    }
    assert seen == Humans(seats);
  }

  // --- Accepting a connection ---------------------------------------------------------

  predicate FreeHumanSeat(seats: seq<Seat>, zombies: nat, i: nat)
    requires Sized(seats)
  {
    i < SLOTS && !seats[i].inUse && !IsZombie(seats, zombies, i)
  }

  predicate PendingHumanSeat(seats: seq<Seat>, zombies: nat, i: nat)
    requires Sized(seats)
  {
    i < SLOTS && seats[i].inUse && !seats[i].handshake && !IsZombie(seats, zombies, i)
  }

  /** The first free human seat; failing that, the first human seat whose holder has not
      said HELLO; failing that, the first free seat at all, which a zombie drives. */
  ghost predicate Preferred(seats: seq<Seat>, zombies: nat, i: nat)
    requires Sized(seats)
  {
    && i < SLOTS
    && if exists j: nat :: FreeHumanSeat(seats, zombies, j) then
         FreeHumanSeat(seats, zombies, i) && forall j: nat :: j < i ==> !FreeHumanSeat(seats, zombies, j)
       else if exists j: nat :: PendingHumanSeat(seats, zombies, j) then
         PendingHumanSeat(seats, zombies, i) && forall j: nat :: j < i ==> !PendingHumanSeat(seats, zombies, j)
       else !seats[i].inUse && forall j: nat :: j < i ==> seats[j].inUse
  }

  /** A connection gets the preferred seat: a pending one is taken over, and a human's
      seat never is. */
  method AllocClientSlot(seats: seq<Seat>, zombies: nat) returns (slot: Option<nat>, replacePending: bool)
    requires Sized(seats)
    ensures slot.Some? ==> Preferred(seats, zombies, slot.value) && slot.value !in Humans(seats)
    ensures slot.None? <==> forall i :: 0 <= i < SLOTS ==> seats[i].inUse && (IsZombie(seats, zombies, i) || seats[i].handshake)
    ensures replacePending ==>
      (slot.Some? && PendingHumanSeat(seats, zombies, slot.value) && forall i: nat :: !FreeHumanSeat(seats, zombies, i))
    ensures slot.Some? && !replacePending ==> !seats[slot.value].inUse
    ensures forall i: nat :: FreeHumanSeat(seats, zombies, i) ==>
      slot.Some? && slot.value <= i && FreeHumanSeat(seats, zombies, slot.value)
    ensures forall i: nat :: PendingHumanSeat(seats, zombies, i) && !replacePending ==>
      slot.Some? && FreeHumanSeat(seats, zombies, slot.value)
  {
    hide IsZombie;
    replacePending := false;
    var mask := ComputeZombieMask(seats, zombies);
    MaskMembers(seats, zombies);
    var i := 0;
    while i < SLOTS
      invariant 0 <= i <= SLOTS && forall j: nat :: j < i ==> !FreeHumanSeat(seats, zombies, j)
    {
      if !seats[i].inUse && i !in mask {
        assert FreeHumanSeat(seats, zombies, i);
        return Some(i), false;
      }
      i := i + 1;
    }
    assert forall j: nat :: !FreeHumanSeat(seats, zombies, j);
    i := 0;
    while i < SLOTS
      invariant 0 <= i <= SLOTS && forall j: nat :: j < i ==> !PendingHumanSeat(seats, zombies, j)
    {
      if i !in mask && seats[i].inUse && !seats[i].handshake {
        assert PendingHumanSeat(seats, zombies, i);
        return Some(i), true;
      }
      i := i + 1;
    }
    assert forall j: nat :: !PendingHumanSeat(seats, zombies, j);
    i := 0;
    while i < SLOTS
      invariant 0 <= i <= SLOTS && forall j: nat :: j < i ==> seats[j].inUse
    {
      if !seats[i].inUse {
        return Some(i), false;
      }
      i := i + 1;
    }
    forall k | 0 <= k < SLOTS
      ensures IsZombie(seats, zombies, k) || seats[k].handshake
    {
      assert !PendingHumanSeat(seats, zombies, k);
    }
    return None, false;
  }

  lemma MaskMembers(seats: seq<Seat>, zombies: nat)
    requires Sized(seats)
    ensures forall i: nat :: i < SLOTS ==> (i in ZombieSet(seats, zombies) <==> IsZombie(seats, zombies, i))
  {
  }

  // --- How the zombies' slots move --------------------------------------------------------

  function Min(a: nat, b: nat): nat {
    if a < b then a else b
  }

  /** As many zombies as configured while slots last; never slot 0, never a human's
      slot; and no free slot is passed over for a later one. */
  lemma ZombiesFillFromBelow(seats: seq<Seat>, zombies: nat)
    requires Sized(seats)
    ensures ZombieSet(seats, zombies) !! Humans(seats) && 0 !in ZombieSet(seats, zombies)
    ensures |ZombieSet(seats, zombies)| == Min(zombies, |{1, 2, 3} - Humans(seats)|)
    ensures forall i: nat, j: nat :: 1 <= i < j && j in ZombieSet(seats, zombies) ==> i in ZombieSet(seats, zombies) || i in Humans(seats)
  {
    forall i: nat, j: nat | 1 <= i < j && j in ZombieSet(seats, zombies)
      ensures i in ZombieSet(seats, zombies) || i in Humans(seats)
    {
      NonHumansGrow(seats, i, j);
    }
    CountZombies(seats, zombies, SLOTS);
    CountNonHumans(seats, SLOTS);
    assert ZombiesBelow(seats, zombies, SLOTS) == ZombieSet(seats, zombies);
    assert NonHumansBelow(seats, SLOTS) == {1, 2, 3} - Humans(seats);
  }

  ghost function ZombiesBelow(seats: seq<Seat>, zombies: nat, n: nat): set<nat>
    requires Sized(seats)
  {
    set i: nat | i < n && IsZombie(seats, zombies, i)
  }

  ghost function NonHumansBelow(seats: seq<Seat>, n: nat): set<nat>
    requires Sized(seats)
  {
    set i: nat | 1 <= i < n && !Human(seats, i)
  }

  lemma {:induction false} CountZombies(seats: seq<Seat>, zombies: nat, n: nat)
    requires Sized(seats) && n <= SLOTS
    ensures |ZombiesBelow(seats, zombies, n)| == Min(zombies, NonHumans(seats, n))
  {
    if n > 0 {
      CountZombies(seats, zombies, n - 1);
      assert ZombiesBelow(seats, zombies, n)
          == ZombiesBelow(seats, zombies, n - 1) + (if IsZombie(seats, zombies, n - 1) then {n - 1} else {});
    }
  }

  lemma {:induction false} CountNonHumans(seats: seq<Seat>, n: nat)
    requires Sized(seats) && n <= SLOTS
    ensures |NonHumansBelow(seats, n)| == NonHumans(seats, n)
  {
    if n > 0 {
      CountNonHumans(seats, n - 1);
      assert NonHumansBelow(seats, n)
          == NonHumansBelow(seats, n - 1) + (if n > 1 && !Human(seats, n - 1) then {n - 1} else {});
    }
  }

  /** A human sits down in a zombie's seat while a later slot has neither: the
      zombie moves on to that slot. */
  predicate ShiftsIn(seats: seq<Seat>, zombies: nat, k: nat)
    requires Sized(seats)
  {
    IsZombie(seats, zombies, k) && exists j: nat :: k < j < SLOTS && !Human(seats, j) && !IsZombie(seats, zombies, j)
  }

  /** Seating a human lowers the rank of every slot behind it by one. */
  lemma {:induction false} RankDrops(seats: seq<Seat>, k: nat, s: Seat, i: nat)
    requires Sized(seats) && k < SLOTS && i <= SLOTS && !Human(seats, k) && s.inUse && s.handshake
    ensures NonHumans(seats[k := s], i) == NonHumans(seats, i) - One(1 <= k < i)
  {
    if i > 1 {
      RankDrops(seats, k, s, i - 1);
    }
  }

  /** A HELLO brings a zombie into a slot that had none exactly when it shifts one. */
  lemma HelloShifts(seats: seq<Seat>, zombies: nat, k: nat, s: Seat)
    requires Sized(seats) && k < SLOTS && !Human(seats, k) && s.inUse && s.handshake
    ensures Humans(seats[k := s]) == Humans(seats) + {k}
    ensures ZombieSet(seats[k := s], zombies) <= ZombieSet(seats, zombies) <==> !ShiftsIn(seats, zombies, k)
  {
    hide NonHumans;
    var after := seats[k := s];
    forall i: nat | i < SLOTS
      ensures NonHumans(after, i) == NonHumans(seats, i) - One(1 <= k < i)
    {
      RankDrops(seats, k, s, i);
    }
    forall i: nat | 1 <= k < i < SLOTS
      ensures NonHumans(seats, k) < NonHumans(seats, i)
    {
      RankGrows(seats, k, i);
    }
    if ShiftsIn(seats, zombies, k) {
      var i := NextSeat(seats, zombies, k);
      assert i in ZombieSet(after, zombies) && i !in ZombieSet(seats, zombies);
    }
  }

  lemma RankGrows(seats: seq<Seat>, k: nat, i: nat)
    requires Sized(seats) && 1 <= k < i <= SLOTS && !Human(seats, k)
    ensures NonHumans(seats, k) < NonHumans(seats, i)
  {
    NonHumansGrow(seats, k + 1, i);
  }

  /** The slot a shifted zombie goes to: the first free one, whose rank is just too high. */
  lemma NextSeat(seats: seq<Seat>, zombies: nat, k: nat) returns (i: nat)
    requires Sized(seats) && k < SLOTS && ShiftsIn(seats, zombies, k)
    ensures k < i < SLOTS && !Human(seats, i) && !IsZombie(seats, zombies, i) && NonHumans(seats, i) == zombies
  {
    i := k + 1;
    while Human(seats, i) || IsZombie(seats, zombies, i)
      invariant k < i < SLOTS && NonHumans(seats, i) <= zombies
      invariant exists j: nat :: i <= j < SLOTS && !Human(seats, j) && !IsZombie(seats, zombies, j)
      decreases SLOTS - i
    {
      i := i + 1;
    }
  }

  lemma Unrolled(seats: seq<Seat>)
    requires Sized(seats)
    ensures NonHumans(seats, 0) == 0 && NonHumans(seats, 1) == 0
    ensures NonHumans(seats, 2) == One(!Human(seats, 1))
    ensures NonHumans(seats, 3) == One(!Human(seats, 1)) + One(!Human(seats, 2))
  {
    assert NonHumans(seats, 2) == NonHumans(seats, 1) + One(!Human(seats, 1));
  }

  /** A departure brings a zombie into no slot but the one just left. */
  lemma DepartureShifts(seats: seq<Seat>, zombies: nat, k: nat, s: Seat)
    requires Sized(seats) && k < SLOTS && !(s.inUse && s.handshake)
    ensures Humans(seats[k := s]) == Humans(seats) - {k}
    ensures ZombieSet(seats[k := s], zombies) <= ZombieSet(seats, zombies) + {k}
    ensures !Human(seats, k) ==> ZombieSet(seats[k := s], zombies) == ZombieSet(seats, zombies)
  {
    var after := seats[k := s];
    assert forall j: nat :: j < SLOTS && j != k ==> Human(after, j) == Human(seats, j);
    Unrolled(seats);
    Unrolled(after);
  }

  /** Only who is human matters to the masks. */
  lemma SameMasks(a: seq<Seat>, b: seq<Seat>, zombies: nat)
    requires Sized(a) && Sized(b) && forall i: nat :: i < SLOTS ==> Human(a, i) == Human(b, i)
    ensures Humans(a) == Humans(b) && ZombieSet(a, zombies) == ZombieSet(b, zombies)
  {
    Unrolled(a);
    Unrolled(b);
    assert forall i: nat :: i < SLOTS ==> IsZombie(a, zombies, i) == IsZombie(b, zombies, i);
  }

  // --- The board's occupancy, recomputed ----------------------------------------------------

  ghost function Actors(seats: seq<Seat>, zombies: nat): set<nat>
    requires Sized(seats)
  {
    Humans(seats) + ZombieSet(seats, zombies)
  }

  /** Everyone who will be on the board at the next tick already occupies it. */
  ghost predicate Covered(f: Field, seats: seq<Seat>, zombies: nat)
    requires Sized(seats)
  {
    Actors(seats, zombies) <= f.occupied
  }

  function Occupying(f: Field, occupied: set<nat>): (g: Field)
    requires Sane(f)
    ensures Sane(g)
  {
    f.(occupied := occupied)
  }

  /** The slots that come onto the board where they once stood find their cells
      open and their neighbours elsewhere. */
  ghost predicate NewcomersFit(f: Field, occupied: set<nat>)
    requires Sane(f)
  {
    forall i: nat :: i < SLOTS && i in occupied - f.occupied && f.players[i].respawnAt == 0 ==>
      !IsBrick(f.bricks, f.players[i].at) && !PlayerAt(Occupying(f, occupied), f.players[i].at, i)
  }

  /** Recomputing the occupancy leaves the actors on distinct open cells exactly
      when those who come onto the board by it fit. */
  lemma RebuildIsPlaced(f: Field, occupied: set<nat>)
    requires Sane(f) && Placed(f)
    ensures Placed(Occupying(f, occupied)) <==> NewcomersFit(f, occupied)
  {
    var g := Occupying(f, occupied);
    if NewcomersFit(f, occupied) {
      forall i: nat, j: nat | i != j && OnBoard(g, i) && OnBoard(g, j)
        ensures g.players[i].at != g.players[j].at
      {
        assert Stands(g, i, g.players[i].at) && Stands(g, j, g.players[j].at);
        assert i in f.occupied ==> OnBoard(f, i);
        assert j in f.occupied ==> OnBoard(f, j);
      }
      forall i: nat | OnBoard(g, i)
        ensures !IsBrick(g.bricks, g.players[i].at)
      {
        assert i in f.occupied ==> OnBoard(f, i);
      }
    } else {
      var i: nat :| i < SLOTS && i in occupied - f.occupied && f.players[i].respawnAt == 0
        && (IsBrick(f.bricks, f.players[i].at) || PlayerAt(g, f.players[i].at, i));
      assert OnBoard(g, i);
    }
  }

  function Standing(at: Cell): Player {
    Player(at, NEUTRAL, 0, 0, NO_PLAN)
  }
}
