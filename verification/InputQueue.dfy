/** One client's joystick inputs between their arrival and the tick that applies
    them: a ring of six entries, with duplicate filtering and folding of idle repeats. */
module InputQueue {
  import opened Bytes

  const QUEUE_MAX := 6
  const IDLE_JOY := 0x0F

  datatype Input = Input(seqno: byte, joy: byte, readyAt: nat)

  /** The queue as a plain sequence, with the two sequence numbers beside it. */
  datatype Intake = Intake(haveSeq: bool, lastSeq: byte, haveApplied: bool, applied: byte, entries: seq<Input>)

  const EMPTY := Intake(false, 0, false, 0, [])

  datatype Verdict = Stale | Folded | Queued | Dropped

  /** (uint8_t)(a - b) */
  function Gap(a: byte, b: byte): byte {
    (a - b) % 256
  }

  predicate Newer(q: Intake, seqno: byte) {
    !q.haveSeq || 0 < Gap(seqno, q.lastSeq) < 0x80
  }

  predicate Idle(joy: byte) {
    joy % 32 == IDLE_JOY
  }

  /** An idle repeat of the entry that waits last. */
  predicate Foldable(q: Intake, joy: byte) {
    q.entries != [] && q.entries[|q.entries| - 1].joy == joy && Idle(joy)
  }

  function VerdictOn(q: Intake, seqno: byte, joy: byte): Verdict {
    if !Newer(q, seqno) then Stale
    else if Foldable(q, joy) then Folded
    else if |q.entries| < QUEUE_MAX then Queued
    else Dropped
  }

  function Accepted(q: Intake, seqno: byte, joy: byte, readyAt: nat): Intake {
    var seen := q.(haveSeq := true, lastSeq := seqno);
    match VerdictOn(q, seqno, joy)
    case Stale => q
    case Folded =>
      var last := |q.entries| - 1;
      seen.(entries := q.entries[last := q.entries[last].(seqno := seqno)])
    case Queued => seen.(entries := q.entries + [Input(seqno, joy, readyAt)])
    case Dropped => seen
  }

  lemma StaleIsIgnored(q: Intake, seqno: byte, joy: byte, readyAt: nat)
    ensures VerdictOn(q, seqno, joy).Stale? ==> Accepted(q, seqno, joy, readyAt) == q
  {
  }

  predicate Due(q: Intake, now: nat) {
    q.entries != [] && now >= q.entries[0].readyAt
  }

  /** One tick: the oldest entry, if it is due, becomes the applied input. */
  function Ticked(q: Intake, now: nat): Intake {
    if Due(q, now) then
      q.(haveApplied := true, applied := q.entries[0].seqno, entries := q.entries[1..])
    else q
  }

  /** The joystick the tick leaves: a missing input stands still. */
  function TickedJoy(q: Intake, now: nat): byte {
    if Due(q, now) then q.entries[0].joy else IDLE_JOY
  }

  // --- The ring ----------------------------------------------------------------------

  function Place(head: nat, k: nat): (i: nat)
    ensures i < QUEUE_MAX
  {
    (head + k) % QUEUE_MAX
  }

  lemma PlaceFacts(head: nat, j: nat, k: nat)
    requires head < QUEUE_MAX && j < QUEUE_MAX && k < QUEUE_MAX
    ensures Place(head, 0) == head
    ensures Place(Place(head, 1), k) == Place(head, k + 1)
    ensures j != k ==> Place(head, j) != Place(head, k)
    ensures k > 0 ==> Place(head + k, QUEUE_MAX - 1) == Place(head, k - 1)
  {
  }

  class Ring {
    var haveSeq: bool
    var lastSeq: byte
    var haveApplied: bool
    var applied: byte
    const slots: array<Input>
    var head: nat
    var count: nat

    ghost predicate Valid()
      reads this
    {
      slots.Length == QUEUE_MAX && head < QUEUE_MAX && count <= QUEUE_MAX
    }

    ghost function Entries(): seq<Input>
      reads this, slots
      requires Valid()
    {
      seq(count, k requires 0 <= k < count && Valid() reads this, slots => slots[Place(head, k)])
    }

    ghost function View(): Intake
      reads this, slots
      requires Valid()
    {
      Intake(haveSeq, lastSeq, haveApplied, applied, Entries())
    }

    constructor ()
      ensures Valid() && fresh(slots) && View() == EMPTY
    {
      haveSeq, lastSeq, haveApplied, applied := false, 0, false, 0;
      slots := new Input[QUEUE_MAX](_ => Input(0, 0, 0));
      head, count := 0, 0;
    }

    /** The duplicate filter; it remembers what it lets through. */
    method SeqIsFresh(seqno: byte) returns (b: bool)
      modifies this`haveSeq, this`lastSeq
      ensures b == (!old(haveSeq) || 0 < Gap(seqno, old(lastSeq)) < 0x80)
      ensures b ==> haveSeq && lastSeq == seqno
      ensures !b ==> haveSeq == old(haveSeq) && lastSeq == old(lastSeq)
    {
      if !haveSeq {
        haveSeq := true;
        lastSeq := seqno;
        return true;
      }
      var diff := Gap(seqno, lastSeq);
      if diff == 0 || diff >= 0x80 {
        return false;
      }
      lastSeq := seqno;
      return true;
    }

    /** The place of the last waiting entry, as the code computes it. */
    method LastPlace() returns (last: nat)
      requires Valid()
      ensures last < QUEUE_MAX && (count > 0 ==> last == Place(head, count - 1))
    {
      last := Place(head + count, QUEUE_MAX - 1);
      if count > 0 && count < QUEUE_MAX {
        PlaceFacts(head, 0, count);
      } else if count > 0 {
        LastOfFull(head);
      }
    }

    method Store(k: nat, input: Input)
      requires Valid() && k < QUEUE_MAX && k <= count
      modifies slots
      ensures forall j: nat :: j < count && j != k ==> slots[Place(head, j)] == old(slots[Place(head, j)])
      ensures slots[Place(head, k)] == input
    {
      hide Place;
      forall j: nat | j < count && j != k
        ensures Place(head, j) != Place(head, k)
      {
        PlaceFacts(head, j, k);
      }
      slots[Place(head, k)] := input;
    }

    method Delta(seqno: byte, joy: byte, readyAt: nat) returns (verdict: Verdict)
      requires Valid()
      modifies this, slots
      ensures Valid()
      ensures verdict == VerdictOn(old(View()), seqno, joy)
      ensures View() == Accepted(old(View()), seqno, joy, readyAt)
    {
      hide Place;
      ghost var before := Entries();
      var isFresh := SeqIsFresh(seqno);
      assert Entries() == before;
      if !isFresh {
        return Stale;
      }
      var last := LastPlace();
      if count > 0 && slots[last].joy == joy && Idle(joy) {
        Store(count - 1, slots[last].(seqno := seqno));
        assert Entries() == before[count - 1 := before[count - 1].(seqno := seqno)];
        return Folded;
      }
      if count < QUEUE_MAX {
        Store(count, Input(seqno, joy, readyAt));
        count := count + 1;
        assert Entries() == before + [Input(seqno, joy, readyAt)];
        return Queued;
      }
      return Dropped;
    }

    /** apply_queued_input for this client. */
    method ApplyNext(now: nat) returns (joy: byte)
      requires Valid()
      modifies this`head, this`count, this`applied, this`haveApplied
      ensures Valid()
      ensures joy == TickedJoy(old(View()), now) && View() == Ticked(old(View()), now)
    {
      hide Place;
      ghost var before := Entries();
      PlaceFacts(head, 0, 0);
      if count > 0 && now >= slots[head].readyAt {
        assert slots[head] == before[0];
        joy := slots[head].joy;
        applied := slots[head].seqno;
        haveApplied := true;
        forall k: nat | k < count - 1
          ensures Place(Place(head, 1), k) == Place(head, k + 1)
        {
          PlaceFacts(head, 0, k);
        }
        head := Place(head, 1);
        count := count - 1;
        assert Entries() == before[1..];
        return;
      }
      assert count > 0 ==> slots[head] == before[0];
      joy := 0x0F;
    }
  }

  lemma LastOfFull(head: nat)
    requires head < QUEUE_MAX
    ensures Place(head + QUEUE_MAX, QUEUE_MAX - 1) == Place(head, QUEUE_MAX - 1)
  {
  }

  // --- A round of inputs, counted without bound ------------------------------------------

  datatype Step = Arrival(seqno: byte, joy: byte, readyAt: nat) | Tick(now: nat)

  /** A queue with its history: unbounded numbers for what the wire counts modulo
      256, the joysticks queued, and the joysticks applied, one per tick at most. */
  datatype History = History(
    q: Intake, numbers: seq<nat>, newest: nat, ack: nat, queued: seq<byte>, appliedJoys: seq<byte>, ticks: nat)

  const START := History(EMPTY, [], 0, 0, [], [], 0)

  /** The unbounded number of an accepted sequence byte: the first above the newest
      that has this byte. */
  function NumberOf(h: History, seqno: byte): nat {
    if h.q.haveSeq then h.newest + Gap(seqno, h.q.lastSeq) else 256 + seqno
  }

  function Recorded(h: History, s: Step): History {
    match s
    case Arrival(seqno, joy, readyAt) =>
      var q := Accepted(h.q, seqno, joy, readyAt);
      var n := NumberOf(h, seqno);
      (match VerdictOn(h.q, seqno, joy)
       case Stale => h.(q := q)
       case Folded =>
         h.(q := q, newest := n, numbers := if h.numbers == [] then [] else h.numbers[|h.numbers| - 1 := n])
       case Queued => h.(q := q, newest := n, numbers := h.numbers + [n], queued := h.queued + [joy])
       case Dropped => h.(q := q, newest := n))
    case Tick(now) =>
      var q := Ticked(h.q, now);
      if Due(h.q, now) && h.numbers != [] then
        h.(q := q, ack := h.numbers[0], numbers := h.numbers[1..],
           appliedJoys := h.appliedJoys + [TickedJoy(h.q, now)], ticks := h.ticks + 1)
      else h.(q := q, ticks := h.ticks + 1)
  }

  function Play(steps: seq<Step>): History {
    if steps == [] then START else Recorded(Play(steps[..|steps| - 1]), steps[|steps| - 1])
  }

  function Joys(entries: seq<Input>): seq<byte> {
    seq(|entries|, i requires 0 <= i < |entries| => entries[i].joy)
  }

  ghost predicate Faithful(h: History) {
    && |h.numbers| == |h.q.entries| <= QUEUE_MAX
    && (h.q.haveSeq ==> h.q.lastSeq == h.newest % 256)
    && (!h.q.haveSeq ==> h.numbers == [] && h.newest == 0 && h.ack == 0)
    && (forall i :: 0 <= i < |h.numbers| ==>
          h.q.entries[i].seqno == h.numbers[i] % 256 && h.ack < h.numbers[i] <= h.newest)
    && (forall i, j :: 0 <= i < j < |h.numbers| ==> h.numbers[i] < h.numbers[j])
    && h.ack <= h.newest
    && (h.q.haveApplied ==> h.q.applied == h.ack % 256)
    && h.queued == h.appliedJoys + Joys(h.q.entries)
    && |h.appliedJoys| <= h.ticks
  }

  lemma NumberIsNew(h: History, seqno: byte)
    requires Faithful(h) && Newer(h.q, seqno)
    ensures NumberOf(h, seqno) > h.newest && NumberOf(h, seqno) % 256 == seqno
  {
    if h.q.haveSeq {
      GapAdds(h.newest, seqno);
    }
  }

  lemma Remainder(x: int, q: int, r: int)
    requires x == 256 * q + r && 0 <= r < 256
    ensures x % 256 == r
  {
  }

  lemma GapAdds(n: nat, b: byte)
    ensures (n + Gap(b, n % 256)) % 256 == b
  {
    var a, r := n / 256, n % 256;
    assert n == 256 * a + r;
    if b >= r {
      Remainder(n + (b - r), a, b);
    } else {
      Remainder(n + (256 + b - r), a + 1, b);
    }
  }

  lemma ArrivalFaithful(h: History, s: Step)
    requires Faithful(h) && s.Arrival?
    ensures Faithful(Recorded(h, s)) && Recorded(h, s).ack == h.ack
  {
    hide NumberOf, Newer, Foldable;
    var entries := Recorded(h, s).q.entries;
    if Newer(h.q, s.seqno) {
      NumberIsNew(h, s.seqno);
    }
    match VerdictOn(h.q, s.seqno, s.joy)
    case Stale =>
    case Folded =>
      FoldableMeans(h.q, s.joy);
      assert Joys(entries) == Joys(h.q.entries);
    case Queued =>
      assert Joys(entries) == Joys(h.q.entries) + [s.joy];
      assert h.appliedJoys + (Joys(h.q.entries) + [s.joy]) == h.appliedJoys + Joys(h.q.entries) + [s.joy];
    case Dropped =>
  }

  lemma FoldableMeans(q: Intake, joy: byte)
    ensures Foldable(q, joy) ==> q.entries != [] && q.entries[|q.entries| - 1].joy == joy
  {
  }

  lemma RecordedFaithful(h: History, s: Step)
    requires Faithful(h)
    ensures Faithful(Recorded(h, s))
    ensures h.ack <= Recorded(h, s).ack
    ensures s.Tick? && Due(h.q, s.now) ==> Recorded(h, s).ack > h.ack && Recorded(h, s).q.applied == Recorded(h, s).ack % 256
  {
    if s.Arrival? {
      ArrivalFaithful(h, s);
    } else if Due(h.q, s.now) {
      var first := h.q.entries[0];
      assert Joys(h.q.entries) == [first.joy] + Joys(h.q.entries[1..]);
      assert h.appliedJoys + ([first.joy] + Joys(h.q.entries[1..])) == h.appliedJoys + [first.joy] + Joys(h.q.entries[1..]);
    }
  }

  lemma {:induction false} PlayFaithful(steps: seq<Step>)
    ensures Faithful(Play(steps))
    decreases |steps|
  {
    hide Recorded, Faithful;
    if steps != [] {
      PlayFaithful(steps[..|steps| - 1]);
      RecordedFaithful(Play(steps[..|steps| - 1]), steps[|steps| - 1]);
    } else {
      StartFaithful();
    }
  }

  lemma StartFaithful()
    ensures Faithful(START)
  {
    assert [] + Joys([]) == [];
  }

  /** Over every run of arrivals and ticks within a round: what has been applied is
      exactly what was queued, in arrival order, up to what still waits; at most one
      per tick; and the published acknowledgement is the number of the last entry
      applied, which only the application of a later entry moves. */
  lemma AppliedInOrder(steps: seq<Step>)
    ensures var h := Play(steps);
      && h.appliedJoys <= h.queued
      && h.queued[|h.appliedJoys|..] == Joys(h.q.entries)
      && |h.appliedJoys| <= h.ticks
      && (h.q.haveApplied ==> h.q.applied == h.ack % 256)
      && (forall i :: 0 <= i < |h.numbers| ==> h.ack < h.numbers[i])
  {
    PlayFaithful(steps);
  }

  // --- Dropped inputs --------------------------------------------------------------------

  /** Step k of a run is an arrival that the full queue drops. */
  predicate DroppedAt(steps: seq<Step>, k: nat)
    requires k < |steps|
  {
    steps[k].Arrival? && VerdictOn(Play(steps[..k]).q, steps[k].seqno, steps[k].joy) == Dropped
  }

  /** Its number, counted without bound. */
  function DroppedNumber(steps: seq<Step>, k: nat): nat
    requires k < |steps| && DroppedAt(steps, k)
  {
    NumberOf(Play(steps[..k]), steps[k].seqno)
  }

  /** The newest number never goes back, and once there is one there stays one. */
  lemma {:induction false} NewestGrows(steps: seq<Step>, k: nat)
    requires k <= |steps|
    ensures Play(steps[..k]).newest <= Play(steps).newest
    ensures Play(steps[..k]).q.haveSeq ==> Play(steps).q.haveSeq
    decreases |steps|
  {
    hide Recorded, Faithful;
    if k < |steps| {
      var shorter := steps[..|steps| - 1];
      NewestGrows(shorter, k);
      assert shorter[..k] == steps[..k];
      PlayFaithful(shorter);
      RecordedGrows(Play(shorter), steps[|steps| - 1]);
    } else {
      assert steps[..k] == steps;
    }
  }

  lemma RecordedGrows(h: History, s: Step)
    requires Faithful(h)
    ensures h.newest <= Recorded(h, s).newest && (h.q.haveSeq ==> Recorded(h, s).q.haveSeq)
  {
    hide NumberOf, Newer, Foldable;
    if s.Arrival? && Newer(h.q, s.seqno) {
      NumberIsNew(h, s.seqno);
    }
  }

  /** A number repeated when a later one is the newest: the duplicate filter sees only
      their distance modulo 256. */
  lemma RepeatedNumber(n: nat, newest: nat, q: Intake, joy: byte)
    requires n <= newest && q.haveSeq && q.lastSeq == newest % 256
    ensures VerdictOn(q, n % 256, joy) == Stale <==> (newest - n) % 256 <= 128
  {
    var d := (newest - n) % 256;
    assert Gap(n % 256, newest % 256) == (256 - d) % 256 by { Opposite(n, newest); }
  }

  lemma Opposite(n: nat, m: nat)
    requires n <= m
    ensures Gap(n % 256, m % 256) == (256 - (m - n) % 256) % 256
  {
    var a, r, b, s := n / 256, n % 256, m / 256, m % 256;
    assert n == 256 * a + r && m == 256 * b + s;
    if s >= r {
      Remainder(m - n, b - a, s - r);
    } else {
      Remainder(m - n, b - a - 1, 256 + s - r);
    }
  }

  /** An input dropped because the queue was full, at any point of any run and at any
      time later in the round: a repetition of it is refused if and only if the newest
      number is at most 128 ahead of it, counted modulo 256. In particular it is refused
      at once, and until more than 128 later numbers have been seen. */
  lemma DroppedAndRepeated(steps: seq<Step>, k: nat, joy: byte)
    requires k < |steps| && DroppedAt(steps, k)
    ensures var n, h := DroppedNumber(steps, k), Play(steps);
      && n % 256 == steps[k].seqno && n <= h.newest
      && (VerdictOn(h.q, steps[k].seqno, joy) == Stale <==> (h.newest - n) % 256 <= 128)
  {
    hide Faithful, Play, Recorded, VerdictOn, NumberOf;
    var h := Play(steps[..k]);
    PlayFaithful(steps[..k]);
    DropRecorded(h, steps[k]);
    PlayedOn(steps, k);
    NewestGrows(steps, k + 1);
    PlayFaithful(steps);
    LastIsNewest(Play(steps));
    RepeatedNumber(DroppedNumber(steps, k), Play(steps).newest, Play(steps).q, joy);
  }

  /** Right and left by turns. */
  function Stick(i: nat): byte {
    if i % 2 == 0 then 0x07 else 0x0B
  }

  /** The first n numbers, with the stick going to and fro and no tick between them. */
  function Burst(n: nat): (steps: seq<Step>)
    ensures |steps| == n
  {
    seq(n, i requires 0 <= i < n => Arrival((i + 1) % 256, Stick(i), 0))
  }

  /** The queue after n arrivals of the burst. */
  predicate HoldsBurst(q: Intake, n: nat) {
    && |q.entries| == n
    && (n > 0 ==> q.haveSeq && q.lastSeq == n && q.entries[n - 1].joy == Stick(n - 1))
  }

  lemma BurstGoesOn(q: Intake, n: nat)
    requires n <= QUEUE_MAX && HoldsBurst(q, n) && (n == 0 ==> q == EMPTY)
    ensures VerdictOn(q, n + 1, Stick(n)) == if n < QUEUE_MAX then Queued else Dropped
    ensures var after := Accepted(q, n + 1, Stick(n), 0);
      if n < QUEUE_MAX then HoldsBurst(after, n + 1) else after == q.(lastSeq := n + 1) && q.haveSeq && |q.entries| == n
  {
    assert n > 0 ==> Gap(n + 1, n) == 1;
  }

  lemma NoBurst()
    ensures HoldsBurst(EMPTY, 0)
  {
  }

  lemma {:induction false} BurstQueued(n: nat)
    requires n <= QUEUE_MAX
    ensures HoldsBurst(Play(Burst(n)).q, n) && (n == 0 ==> Play(Burst(n)).q == EMPTY)
  {
    hide HoldsBurst, Accepted, VerdictOn, NumberOf, Burst;
    if n > 0 {
      BurstQueued(n - 1);
      BurstGrows(n - 1);
      BurstGoesOn(Play(Burst(n - 1)).q, n - 1);
    } else {
      NoBurst();
    }
  }

  /** Inputs are dropped: the last of such a burst. */
  lemma BurstOverflows()
    ensures DroppedAt(Burst(QUEUE_MAX + 1), QUEUE_MAX)
    ensures var q := Play(Burst(QUEUE_MAX + 1)).q; |q.entries| == QUEUE_MAX && q.haveSeq && q.lastSeq == QUEUE_MAX + 1
  {
    hide HoldsBurst, Stick, Play, NumberOf, Accepted, VerdictOn, Burst;
    var steps := Burst(QUEUE_MAX + 1);
    BurstGrows(QUEUE_MAX);
    BurstQueued(QUEUE_MAX);
    BurstGoesOn(Play(Burst(QUEUE_MAX)).q, QUEUE_MAX);
    PlayLast(steps);
  }

  lemma BurstGrows(n: nat)
    requires n < 255
    ensures Burst(n + 1)[..n] == Burst(n) && Burst(n + 1)[n] == Arrival(n + 1, Stick(n), 0)
  {
  }

  lemma PlayLast(steps: seq<Step>)
    requires steps != []
    ensures Play(steps) == Recorded(Play(steps[..|steps| - 1]), steps[|steps| - 1])
  {
  }

  /** And a dropped input can be taken after all: once two later numbers have carried
      the counter on by more than 128, its repetition passes for a new one. */
  lemma DroppedThenTaken() returns (steps: seq<Step>)
    ensures |steps| > QUEUE_MAX && DroppedAt(steps, QUEUE_MAX)
    ensures VerdictOn(Play(steps).q, steps[QUEUE_MAX].seqno, steps[QUEUE_MAX].joy) == Queued
  {
    hide Play, NumberOf, Foldable, Burst, Stick;
    var burst := Burst(QUEUE_MAX + 1);
    var on := burst + [Arrival(134, Stick(0), 0)];
    var further := on + [Arrival(136, Stick(0), 0)];
    NotIdle(0);
    NotIdle(QUEUE_MAX);
    BurstGrows(QUEUE_MAX);
    BurstOverflows();
    PlayLast(on);
    PlayLast(further);
    assert on[..|on| - 1] == burst && further[..|further| - 1] == on;
    steps := further + [Tick(Play(further).q.entries[0].readyAt)];
    assert steps[..|steps| - 1] == further;
    PlayLast(steps);
    assert steps[..QUEUE_MAX] == burst[..QUEUE_MAX] && steps[QUEUE_MAX] == burst[QUEUE_MAX];
  }

  lemma NotIdle(i: nat)
    ensures forall q: Intake :: !Foldable(q, Stick(i))
  {
  }

  lemma DropRecorded(h: History, s: Step)
    requires Faithful(h) && s.Arrival? && VerdictOn(h.q, s.seqno, s.joy) == Dropped
    ensures NumberOf(h, s.seqno) % 256 == s.seqno
    ensures Recorded(h, s).newest == NumberOf(h, s.seqno) && Recorded(h, s).q.haveSeq
  {
    hide NumberOf;
    NumberIsNew(h, s.seqno);
  }

  lemma PlayedOn(steps: seq<Step>, k: nat)
    requires k < |steps|
    ensures Play(steps[..k + 1]) == Recorded(Play(steps[..k]), steps[k])
  {
    hide Recorded;
    var upTo := steps[..k + 1];
    assert upTo[..|upTo| - 1] == steps[..k];
  }

  lemma LastIsNewest(h: History)
    requires Faithful(h)
    ensures h.q.haveSeq ==> h.q.lastSeq == h.newest % 256
  {
  }

  /** A new round forgets the numbers it has seen, and takes any input. */
  lemma ForgottenByReset(q: Intake, seqno: byte, joy: byte)
    ensures VerdictOn(q.(haveSeq := false, haveApplied := false, entries := []), seqno, joy) == Queued
  {
  }
}
