/** What becomes of a joystick input, in plain terms: over every run of arrivals and ticks
    within a round, and without the verdicts of module InputQueue. */
module Inputs {
  import opened Bytes
  import opened InputQueue

  /** A number that the round has not seen: its first, or one less than half the circle
      ahead of the newest. */
  predicate Unseen(q: Intake, seqno: byte) {
    !q.haveSeq || 0 < (seqno - q.lastSeq) % 256 < 128
  }

  /** A repetition of the entry that waits last, with the stick at rest and no trigger. */
  predicate Repeats(q: Intake, joy: byte) {
    q.entries != [] && q.entries[|q.entries| - 1].joy == joy && joy % 32 == 0x0F
  }

  lemma PlayedStep(steps: seq<Step>, s: Step)
    ensures Play(steps + [s]) == Recorded(Play(steps), s)
  {
    assert (steps + [s])[..|steps + [s]| - 1] == steps;
  }

  lemma PlainVerdict(q: Intake, seqno: byte, joy: byte)
    ensures VerdictOn(q, seqno, joy) ==
      if !Unseen(q, seqno) then Stale else if Repeats(q, joy) then Folded else if |q.entries| < 6 then Queued else Dropped
  {
  }

  lemma AsManyNumbers(steps: seq<Step>)
    ensures |Play(steps).numbers| == |Play(steps).q.entries|
  {
    hide Play;
    PlayFaithful(steps);
  }

  /** Every arrival, after any run. A seen number changes nothing. An unseen one merges into
      the last entry, which takes its number, exactly when it repeats a stick at rest;
      otherwise it becomes one more entry, while fewer than six wait. */
  lemma ArrivalExactly(steps: seq<Step>, seqno: byte, joy: byte, readyAt: nat)
    ensures
      var before, after := Play(steps), Play(steps + [Arrival(seqno, joy, readyAt)]);
      var q := before.q;
      var last := |q.entries| - 1;
      if !Unseen(q, seqno) then after == before
      else
        && after.q.haveSeq && after.q.lastSeq == seqno
        && after.q.haveApplied == q.haveApplied && after.q.applied == q.applied && after.appliedJoys == before.appliedJoys
        && after.q.entries ==
             (if Repeats(q, joy) then q.entries[last := Input(seqno, joy, q.entries[last].readyAt)]
              else if |q.entries| < 6 then q.entries + [Input(seqno, joy, readyAt)]
              else q.entries)
        && after.queued == before.queued + (if !Repeats(q, joy) && |q.entries| < 6 then [joy] else [])
  {
    hide NumberOf, Play;
    var h := Play(steps);
    PlayedStep(steps, Arrival(seqno, joy, readyAt));
    PlainVerdict(h.q, seqno, joy);
    assert h.queued + [] == h.queued;
  }

  /** Every tick, after any run: the oldest entry is applied and published exactly when its
      time has come, and the stick it leaves is that entry's, or at rest. */
  lemma TickExactly(steps: seq<Step>, now: nat)
    ensures
      var before, after := Play(steps), Play(steps + [Tick(now)]);
      var q := before.q;
      var due := q.entries != [] && q.entries[0].readyAt <= now;
      && after.queued == before.queued && after.q.haveSeq == q.haveSeq && after.q.lastSeq == q.lastSeq
      && after.q.entries == (if due then q.entries[1..] else q.entries)
      && after.appliedJoys == before.appliedJoys + (if due then [q.entries[0].joy] else [])
      && after.q.haveApplied == (due || q.haveApplied)
      && after.q.applied == (if due then q.entries[0].seqno else q.applied)
      && TickedJoy(q, now) == (if due then q.entries[0].joy else 0x0F)
  {
    hide NumberOf, Play;
    var h := Play(steps);
    PlayedStep(steps, Tick(now));
    AsManyNumbers(steps);
    assert h.appliedJoys + [] == h.appliedJoys;
  }

  /** An input that moves or fires, has an unseen number and finds room. */
  predicate Taken(steps: seq<Step>, a: Step) {
    a.Arrival? && a.joy % 32 != 0x0F && Unseen(Play(steps).q, a.seqno) && |Play(steps).q.entries| < 6
  }

  function TicksIn(steps: seq<Step>): nat {
    if steps == [] then 0 else TicksIn(steps[..|steps| - 1]) + (if steps[|steps| - 1].Tick? then 1 else 0)
  }

  /** No tick of these comes before the time of any entry that waits. */
  ghost predicate Late(q: Intake, more: seq<Step>) {
    forall i, k :: 0 <= i < |more| && more[i].Tick? && 0 <= k < |q.entries| ==> q.entries[k].readyAt <= more[i].now
  }

  /** What a stretch of a run leaves of the entries that waited at its start: k of them are
      applied, and the others still wait at the front, for the same times. */
  ghost predicate Remaining(start: History, h: History, ticks: nat) {
    var n, k := |start.q.entries|, |h.appliedJoys| - |start.appliedJoys|;
    && start.queued <= h.queued && 0 <= k <= ticks
    && (k < n ==> |h.q.entries| >= n - k && forall j :: k <= j < n ==> h.q.entries[j - k].readyAt == start.q.entries[j].readyAt)
  }

  lemma RemainingArrival(start: History, steps: seq<Step>, a: Step, ticks: nat)
    requires a.Arrival? && Remaining(start, Play(steps), ticks)
    ensures Remaining(start, Play(steps + [a]), ticks) && |Play(steps + [a]).appliedJoys| == |Play(steps).appliedJoys|
  {
    hide Play;
    ArrivalExactly(steps, a.seqno, a.joy, a.readyAt);
  }

  lemma RemainingTick(start: History, steps: seq<Step>, now: nat, ticks: nat)
    requires Remaining(start, Play(steps), ticks)
    ensures Remaining(start, Play(steps + [Tick(now)]), ticks + 1)
    ensures var k := |Play(steps).appliedJoys| - |start.appliedJoys|;
      k < |start.q.entries| && start.q.entries[k].readyAt <= now ==>
        |Play(steps + [Tick(now)]).appliedJoys| == |Play(steps).appliedJoys| + 1
    ensures |Play(steps).appliedJoys| <= |Play(steps + [Tick(now)]).appliedJoys|
  {
    hide Play;
    TickExactly(steps, now);
    var h, g, k := Play(steps), Play(steps + [Tick(now)]), |Play(steps).appliedJoys| - |start.appliedJoys|;
    if k < |start.q.entries| {
      assert h.q.entries[k - k].readyAt == start.q.entries[k].readyAt;
    }
  }

  lemma {:induction false} RemainingLater(steps: seq<Step>, more: seq<Step>)
    ensures Remaining(Play(steps), Play(steps + more), TicksIn(more))
    ensures Late(Play(steps).q, more) ==>
      |Play(steps + more).appliedJoys| - |Play(steps).appliedJoys| >=
        if TicksIn(more) < |Play(steps).q.entries| then TicksIn(more) else |Play(steps).q.entries|
    decreases |more|
  {
    hide Play, Remaining, Late;
    if more == [] {
      assert steps + more == steps;
      NothingHappens(Play(steps));
    } else {
      var shorter, last := more[..|more| - 1], more[|more| - 1];
      assert steps + more == (steps + shorter) + [last];
      RemainingLater(steps, shorter);
      LateSoFar(Play(steps).q, more);
      match last
      case Arrival(_, _, _) => RemainingArrival(Play(steps), steps + shorter, last, TicksIn(shorter));
      case Tick(now) => RemainingTick(Play(steps), steps + shorter, now, TicksIn(shorter));
    }
  }

  lemma NothingHappens(h: History)
    ensures Remaining(h, h, 0)
  {
  }

  lemma LateSoFar(q: Intake, more: seq<Step>)
    requires more != []
    ensures Late(q, more) ==> Late(q, more[..|more| - 1])
    ensures Late(q, more) && more[|more| - 1].Tick? ==>
      forall k :: 0 <= k < |q.entries| ==> q.entries[k].readyAt <= more[|more| - 1].now
  {
  }

  lemma InOrder(steps: seq<Step>)
    ensures var h := Play(steps); h.appliedJoys <= h.queued && |h.queued| == |h.appliedJoys| + |h.q.entries|
  {
    hide Play;
    AppliedInOrder(steps);
    assert |Joys(Play(steps).q.entries)| == |Play(steps).q.entries|;
  }

  /** Every input that moves or fires and finds room has one place in the order of what is
      queued, for good, and is applied there and nowhere else: not before it came, and, once
      ticks come no sooner than what waits with it is due, at the very tick when those
      before it have been applied. */
  lemma AppliedOnce(steps: seq<Step>, a: Step, more: seq<Step>)
    requires Taken(steps, a)
    ensures
      var h, g := Play(steps), Play(steps + [a] + more);
      var place := |h.queued|;
      && |h.appliedJoys| <= place < |g.queued| && g.queued[place] == a.joy
      && (place < |g.appliedJoys| ==> g.appliedJoys[place] == a.joy)
      && (Late(Play(steps + [a]).q, more) ==> (place < |g.appliedJoys| <==> TicksIn(more) > |h.q.entries|))
  {
    hide Play, Late;
    ArrivalExactly(steps, a.seqno, a.joy, a.readyAt);
    RemainingLater(steps + [a], more);
    InOrder(steps);
    InOrder(steps + [a] + more);
  }
}
