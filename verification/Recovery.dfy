/** The reliable stream cannot get stuck: from every state a run can reach, one
    timeout followed by loss-free delivery of what is in flight retires the head. */
module Recovery {
  import opened Bytes
  import opened Client
  import opened Grid
  import opened Session
  import RQ = ReliableQueue

  function Repeat(step: Step, n: nat): (r: seq<Step>)
    ensures |r| == n
  {
    seq(n, _ => step)
  }

  lemma {:induction false} ExecConcat(s: Session, a: seq<Step>, b: seq<Step>)
    ensures Exec(s, a + b) == Exec(Exec(s, a), b)
    decreases |b|
  {
    hide Next;
    if b == [] {
      assert a + b == a;
    } else {
      ExecConcat(s, a, b[..|b| - 1]);
      assert (a + b)[..|a + b| - 1] == a + b[..|b| - 1];
    }
  }

  lemma ExecFirst(s: Session, step: Step, n: nat)
    requires n > 0
    ensures Exec(s, Repeat(step, n)) == Exec(Next(s, step), Repeat(step, n - 1))
  {
    hide Next;
    assert Repeat(step, n) == [step] + Repeat(step, n - 1);
    ExecConcat(s, [step], Repeat(step, n - 1));
    assert [step][..0] == [];
    assert Exec(s, [step]) == Next(Exec(s, []), step);
  }

  /** Loss-free delivery and the retransmission timer, and nothing else. */
  predicate Delivers(schedule: seq<Step>) {
    forall i :: 0 <= i < |schedule| ==> schedule[i] == Timeout || schedule[i] == FrameArrives || schedule[i] == AckArrives
  }

  /** The schedule acknowledges the head of the queue and nothing more. */
  ghost predicate Retires(s: Session, schedule: seq<Step>) {
    var t := Exec(s, schedule);
    Delivers(schedule) && t.acked == s.acked + 1 && t.log == s.log && !t.failed
  }

  /** The server waits for the acknowledgement of its head. */
  ghost predicate Waiting(s: Session) {
    StreamInv(s) && !s.failed && s.client.welcomed && s.acked < |s.log|
  }

  /** The client has the head and has said so last. */
  ghost predicate Answered(s: Session) {
    Waiting(s) && |s.trace| == s.acked + 1 && s.up != [] && s.up[|s.up| - 1] == RQ.Revision(s.acked + 1)
  }

  /** The frames of a stream once acknowledged are answered with what the client has applied. */
  lemma FrameAnswered(s: Session)
    requires Waiting(s) && s.down != []
    ensures var t := Next(s, FrameArrives);
      && Waiting(t) && t.acked == s.acked && t.log == s.log && t.down == s.down[1..]
      && (s.down == [Stored(s.acked + 1)] ==> Answered(t))
  {
    hide RQ.Revision, StreamInv, Inner, Wire, Applied;
    NextStream(s, FrameArrives);
    ArrivalStream(s);
    var f := s.down[0];
    FrameWelcome(s, f);
    if s.down == [Stored(s.acked + 1)] {
      HeadAnswered(s);
    }
  }

  lemma FrameWelcome(s: Session, f: Frame)
    requires s.client.welcomed
    ensures Received(s.client, PacketOf(s.log, f)).0.welcomed
  {
    hide Inner;
    match f
    case Sent(d) => DirectKeepsStream(s.client, d);
    case Stored(n) =>
      if 1 <= n <= |s.log| {
        AppliedKeepsStream(s.client.(applied := RQ.Revision(n)), Inner(s.log[n - 1]));
      }
  }

  lemma HeadAnswered(s: Session)
    requires Waiting(s) && s.down == [Stored(s.acked + 1)]
    ensures var t := Deliver(s.(down := s.down[1..]), s.down[0]);
      |t.trace| == s.acked + 1 && t.up != [] && t.up[|t.up| - 1] == RQ.Revision(s.acked + 1)
  {
    hide Inner, Applied;
    RQ.NextRevision(s.acked);
    RQ.NextRevision(|s.trace|);
  }

  lemma {:induction false} FramesAnswered(s: Session)
    requires Waiting(s) && s.down != [] && s.down[|s.down| - 1] == Stored(s.acked + 1)
    ensures var t := Exec(s, Repeat(FrameArrives, |s.down|)); Answered(t) && t.acked == s.acked && t.log == s.log
    decreases |s.down|
  {
    hide Next, Answered;
    FrameAnswered(s);
    ExecFirst(s, FrameArrives, |s.down|);
    var t := Next(s, FrameArrives);
    if |s.down| > 1 {
      FramesAnswered(t);
    } else {
      assert s.down == [Stored(s.acked + 1)];
      assert Exec(t, Repeat(FrameArrives, 0)) == t;
    }
  }

  /** Each acknowledgement is either old news or retires the head. */
  lemma AckHeard(s: Session)
    requires Answered(s)
    ensures var t := Next(s, AckArrives);
      && StreamInv(t) && !t.failed && t.log == s.log && t.up == s.up[1..]
      && if s.up[0] == RQ.Revision(s.acked + 1) then t.acked == s.acked + 1
         else |s.up| > 1 && t.acked == s.acked && Answered(t)
  {
    hide StreamInv;
    NextStream(s, AckArrives);
    RQ.NextRevision(s.acked);
  }

  lemma {:induction false} AcksHeard(s: Session) returns (n: nat)
    requires Answered(s)
    ensures n <= |s.up|
    ensures var t := Exec(s, Repeat(AckArrives, n)); t.acked == s.acked + 1 && t.log == s.log
    decreases |s.up|
  {
    hide Next, StreamInv, RQ.Revision;
    AckHeard(s);
    var t := Next(s, AckArrives);
    if s.up[0] == RQ.Revision(s.acked + 1) {
      n := 1;
      assert Exec(t, Repeat(AckArrives, 0)) == t;
    } else {
      n := AcksHeard(t);
      n := n + 1;
    }
    ExecFirst(s, AckArrives, n);
  }

  /** From a state that waits, one timeout, the arrival of every frame in flight and
      then of some of the acknowledgements retire exactly the head. */
  lemma RetireHead(s: Session) returns (schedule: seq<Step>)
    requires Waiting(s)
    ensures Retires(s, schedule)
  {
    hide StreamInv, Next, Answered;
    NextStream(s, Timeout);
    var t := Next(s, Timeout);
    assert t == s.(down := s.down + [Stored(s.acked + 1)]) by { TimeoutResends(s); }
    var frames := |t.down|;
    FramesAnswered(t);
    var u := Exec(t, Repeat(FrameArrives, frames));
    AnsweredWaits(u);
    var acks := AcksHeard(u);
    assert [Timeout][..0] == [];
    assert Exec(s, [Timeout]) == Next(Exec(s, []), Timeout);
    ExecConcat(s, [Timeout], Repeat(FrameArrives, frames));
    ExecConcat(s, [Timeout] + Repeat(FrameArrives, frames), Repeat(AckArrives, acks));
    StaysOpen(u, acks);
    schedule := [Timeout] + Repeat(FrameArrives, frames) + Repeat(AckArrives, acks);
  }

  lemma TimeoutResends(s: Session)
    requires !s.failed && s.acked < |s.log|
    ensures Next(s, Timeout) == s.(down := s.down + [Stored(s.acked + 1)])
  {
  }

  lemma AnsweredWaits(s: Session)
    requires Answered(s)
    ensures !s.failed
  {
  }

  /** Acknowledgements never condemn a connection. */
  lemma {:induction false} StaysOpen(s: Session, n: nat)
    requires !s.failed
    ensures !Exec(s, Repeat(AckArrives, n)).failed
    decreases n
  {
    if n > 0 {
      StaysOpen(s, n - 1);
      assert Repeat(AckArrives, n)[..n - 1] == Repeat(AckArrives, n - 1);
    }
  }

  // --- The one frame that is not recovered ------------------------------------------------

  predicate Greeting(f: Frame) {
    f.Sent? && f.d.WelcomeMsg?
  }

  /** The client has been welcomed, or its welcome is on the way. */
  predicate Promised(s: Session) {
    s.client.welcomed || exists f :: f in s.down && Greeting(f)
  }

  /** A client that has not been welcomed has applied nothing and said nothing. */
  ghost predicate Mute(s: Session) {
    !s.client.welcomed ==> s.up == [] && s.trace == [] && s.acked == 0
  }

  lemma WelcomeOnly(s: Session, f: Frame)
    requires !s.client.welcomed
    ensures var (client, acks) := Received(s.client, PacketOf(s.log, f));
      acks == [] && (client.welcomed <==> Greeting(f)) && !Applies(s, f)
  {
    hide Inner, RQ.Revision, Applied;
    assert PacketOf(s.log, f).Welcome? <==> Greeting(f) by {
      match f
      case Sent(d) =>
      case Stored(n) => if 1 <= n <= |s.log| { assert PacketOf(s.log, f).Reliable?; }
    }
  }

  lemma NoNewGreeting(s: Session, step: Step)
    ensures forall f :: f in Next(s, step).down ==> f in s.down || !Greeting(f)
  {
    hide Received, RQ.Revision, RQ.Resends, RQ.Retired, Applies;
  }

  /** A client stays mute until its welcome arrives, and no step but the server's
      greeting, which is sent once, puts a welcome on the way. */
  lemma NextMute(s: Session, step: Step)
    requires Mute(s)
    ensures Mute(Next(s, step))
    ensures !Promised(s) ==> !Promised(Next(s, step))
  {
    hide Inner, RQ.Revision, Applied, Received, Applies;
    NoNewGreeting(s, step);
    if step.FrameArrives? && s.down != [] {
      assert s.down[0] in s.down;
      if !s.client.welcomed {
        WelcomeOnly(s.(down := s.down[1..]), s.down[0]);
      } else {
        FrameWelcome(s, s.down[0]);
      }
    }
  }

  lemma {:induction false} ExecMute(s: Session, steps: seq<Step>)
    requires Mute(s)
    ensures Mute(Exec(s, steps))
    ensures !Promised(s) ==> !Promised(Exec(s, steps))
    decreases |steps|
  {
    hide Next, Mute, Promised;
    if steps != [] {
      ExecMute(s, steps[..|steps| - 1]);
      NextMute(Exec(s, steps[..|steps| - 1]), steps[|steps| - 1]);
    }
  }

  /** The welcome is sent once, outside the stream. In whatever state of whatever run it
      is neither received nor on the way any more, the client applies nothing and the
      server hears nothing for the rest of the session, whatever follows. */
  lemma LostWelcome(round: nat, playing: bool, bricks: set<Cell>, client: State, steps: seq<Step>, more: seq<Step>)
    requires NewClient(client)
    ensures
      var s := Exec(Opening(round, playing, bricks, client), steps);
      !Promised(s) ==>
        var t := Exec(s, more);
        !t.client.welcomed && t.trace == [] && t.up == [] && t.acked == 0
  {
    hide Exec;
    var o := Opening(round, playing, bricks, client);
    ExecMute(o, steps);
    ExecMute(Exec(o, steps), more);
  }

  /** The welcome can be lost: it is the first frame of every session. In that run the
      head stays outstanding for ever. */
  lemma WelcomeCanBeLost(round: nat, playing: bool, bricks: set<Cell>, client: State)
    requires NewClient(client)
    ensures var s := Exec(Opening(round, playing, bricks, client), [FrameLost(0)]);
      && !s.failed && s.acked < |s.log| && !Promised(s)
      && forall more: seq<Step> :: Exec(s, more).acked == s.acked
  {
    var o := Opening(round, playing, bricks, client);
    var s := Exec(o, [FrameLost(0)]);
    assert s == Next(o, FrameLost(0)) by {
      assert [FrameLost(0)][..0] == [];
      NoSteps(o);
    }
    HeadIsRecovered(round, playing, bricks, client, [FrameLost(0)]);
  }

  /** Everything in flight arrives: a promised client is welcomed, and nothing is acknowledged. */
  lemma {:induction false} Emptied(s: Session)
    requires StreamInv(s) && !s.failed
    ensures var t := Exec(s, Repeat(FrameArrives, |s.down|));
      && StreamInv(t) && !t.failed && t.acked == s.acked && t.log == s.log
      && (Promised(s) ==> t.client.welcomed)
    decreases |s.down|
  {
    hide Next, StreamInv;
    if s.down == [] {
      assert Repeat(FrameArrives, |s.down|) == [];
      NoSteps(s);
    } else {
      NextStream(s, FrameArrives);
      var t := Next(s, FrameArrives);
      ArrivalEffect(s);
      ExecFirst(s, FrameArrives, |s.down|);
      Emptied(t);
    }
  }

  lemma ArrivalEffect(s: Session)
    requires !s.failed && s.down != []
    ensures var t := Next(s, FrameArrives);
      && t.down == s.down[1..] && t.acked == s.acked && t.log == s.log && !t.failed
      && (Promised(s) ==> Promised(t))
  {
    hide Inner, RQ.Revision, Applied, Received, Applies;
    var t := Next(s, FrameArrives);
    if !s.client.welcomed {
      WelcomeOnly(s, s.down[0]);
    } else {
      FrameWelcome(s, s.down[0]);
    }
    if Promised(s) && !t.client.welcomed {
      var f :| f in s.down && Greeting(f);
      assert f in t.down;
    }
  }

  /** In every reachable state with an event outstanding: some schedule of timeouts and
      loss-free arrivals retires the head of the queue if and only if the client has been
      welcomed or its welcome is still on the way; and if it has not and is not, no
      continuation of the run at all retires anything. */
  lemma HeadIsRecovered(round: nat, playing: bool, bricks: set<Cell>, client: State, steps: seq<Step>)
    requires NewClient(client)
    ensures
      var s := Exec(Opening(round, playing, bricks, client), steps);
      !s.failed && s.acked < |s.log| ==>
        && (Promised(s) <==> exists schedule: seq<Step> :: Retires(s, schedule))
        && (!Promised(s) ==> forall more: seq<Step> :: Exec(s, more).acked == s.acked)
  {
    hide StreamInv, Exec, Mute, Promised, Retires;
    var o := Opening(round, playing, bricks, client);
    OpeningStream(round, playing, bricks, client);
    ExecStream(o, steps);
    var s := Exec(o, steps);
    if !s.failed && s.acked < |s.log| {
      if Promised(s) {
        Emptied(s);
        var first := Repeat(FrameArrives, |s.down|);
        var second := RetireHead(Exec(s, first));
        TwoParts(s, first, second);
      } else {
        forall more: seq<Step>
          ensures Exec(s, more).acked == s.acked
        {
          LostWelcome(round, playing, bricks, client, steps, more);
          LostWelcome(round, playing, bricks, client, steps, []);
          NoSteps(s);
        }
        forall schedule: seq<Step>
          ensures !Retires(s, schedule)
        {
          assert Exec(s, schedule).acked == s.acked;
          NotRetired(s, schedule);
        }
      }
    }
  }

  lemma NoSteps(s: Session)
    ensures Exec(s, []) == s
  {
  }

  lemma NotRetired(s: Session, schedule: seq<Step>)
    requires Exec(s, schedule).acked == s.acked
    ensures !Retires(s, schedule)
  {
  }

  lemma TwoParts(s: Session, first: seq<Step>, second: seq<Step>)
    requires Delivers(first) && Retires(Exec(s, first), second)
    requires Exec(s, first).acked == s.acked && Exec(s, first).log == s.log
    ensures Retires(s, first + second)
  {
    ExecConcat(s, first, second);
  }
}
