/** The server's end of one client's reliable event stream: a ring of wrapped
    events with 16-bit revisions that wrap around. */
module ReliableQueue {
  import opened Bytes

  const RING := 24
  const EVENT_MAX := 52
  const RESEND_MS := 300
  const FAST_MS := 75
  const PKT_RELIABLE_EVENT: byte := 0x53

  /** (uint16_t)(a - b): how far `a` is ahead of `b` on the circle of revisions. */
  function Ahead(a: word, b: word): word {
    (a - b) % 65536
  }

  function Revision(n: nat): word {
    n % 65536
  }

  /** The wrapper packet: type, sequence byte, revision (low byte first), event. */
  function Wrapped(stamp: byte, revision: word, event: seq<byte>): seq<byte> {
    [PKT_RELIABLE_EVENT, stamp, revision % 256, revision / 256] + event
  }

  /** Is this a wrapping of some event as the n-th of the stream? */
  predicate CarriesRevision(pkt: seq<byte>, n: nat) {
    |pkt| > 4 && pkt[0] == PKT_RELIABLE_EVENT && pkt[2] == Revision(n) % 256 && pkt[3] == Revision(n) / 256
  }

  // --- The stream in unbounded numbers ----------------------------------------------

  /** The highest revision sent when `acked` of `total` events are acknowledged. */
  function SentUpTo(acked: nat, total: nat): nat {
    if acked < total then acked + 1 else acked
  }

  /** An acknowledgement of something never sent, which is dropped unread. */
  predicate Unsent(acked: nat, total: nat, ack: word) {
    0 < Ahead(ack, Revision(SentUpTo(acked, total))) < 0x8000
  }

  /** How many events are acknowledged once `ack` has been processed: any 16-bit
      value retires nothing or exactly the head. */
  function Retired(acked: nat, total: nat, ack: word): nat {
    if acked < total && ack == Revision(acked + 1) then acked + 1 else acked
  }

  /** Whether processing `ack` sends the (new) head again. */
  predicate Resends(acked: nat, total: nat, ack: word) {
    !Unsent(acked, total, ack) && Retired(acked, total, ack) < total
  }

  lemma NextRevision(n: nat)
    ensures Revision(n + 1) == (Revision(n) + 1) % 65536
    ensures Revision(n + 1) != Revision(n)
    ensures Ahead(Revision(n), Revision(n + 1)) == 65535
    ensures Ahead(Revision(n + 1), Revision(n)) == 1
  {
  }

  lemma AheadZero(a: word, b: word)
    ensures Ahead(a, b) == 0 <==> a == b
  {
  }

  /** The protocol text asks for a rate-limited retransmission on a duplicate
      acknowledgement. The code sends the head again on every one of them: the
      outcome of `Queue.Ack` does not mention the clock, and it is this. */
  lemma DuplicateAckAlwaysResends(acked: nat, total: nat)
    requires acked < total
    ensures Retired(acked, total, Revision(acked)) == acked && Resends(acked, total, Revision(acked))
  {
    NextRevision(acked);
  }

  /** What each of the 65536 values does, by its distance from what is acknowledged. With
      nothing outstanding, nothing. Otherwise one ahead retires the head, and the next event
      is sent if there is one; two to half the circle ahead is dropped unread; and none
      ahead, or one of the past, sends the head again. */
  lemma AckExactly(acked: nat, total: nat, ack: word)
    requires acked <= total
    ensures var d := (ack - acked) % 65536;
      var next, again := Retired(acked, total, ack), Resends(acked, total, ack);
      if acked == total then next == acked && !again
      else if d == 1 then next == acked + 1 && (again <==> acked + 1 < total)
      else if 2 <= d <= 32768 then next == acked && !again
      else next == acked && again
  {
    var d := (ack - acked) % 65536;
    Modulo(ack, acked);
    Modulo(ack, acked + 1);
    assert (ack - (acked + 1)) % 65536 == if d == 0 then 65535 else d - 1;
    AheadZero(ack, Revision(acked + 1));
  }

  lemma Modulo(a: word, n: nat)
    ensures Ahead(a, Revision(n)) == (a - n) % 65536
  {
  }

  // --- The ring ------------------------------------------------------------------------

  datatype Slot = Free | Held(rev: word, pkt: seq<byte>)

  /** The place of the k-th queued event, counted from the head. */
  function Index(head: nat, k: nat): (i: nat)
    ensures i < RING
  {
    (head + k) % RING
  }

  lemma IndexFacts(head: nat, k: nat)
    requires head < RING && k < RING
    ensures Index(head, 0) == head
    ensures Index(Index(head, 1), k) == Index(head, k + 1)
  {
  }

  lemma IndexInjective(head: nat, j: nat, k: nat)
    requires head < RING && j < RING && k < RING && j != k
    ensures Index(head, j) != Index(head, k)
  {
  }

  /** What the k-th queued event looks like in the ring. */
  ghost function Entry(log: seq<seq<byte>>, acked: nat, k: nat): Slot
    requires acked + k < |log|
  {
    Held(Revision(acked + k + 1), log[acked + k])
  }

  /** The ring holds exactly the unacknowledged part of the stream, contiguously. */
  ghost predicate Holds(ring: seq<Slot>, head: nat, log: seq<seq<byte>>, acked: nat)
  {
    && |ring| == RING && head < RING && acked <= |log| <= acked + RING
    && forall k :: 0 <= k < |log| - acked ==> ring[Index(head, k)] == Entry(log, acked, k)
  }

  lemma HeadOfRing(ring: seq<Slot>, head: nat, log: seq<seq<byte>>, acked: nat)
    requires Holds(ring, head, log, acked) && acked < |log|
    ensures |ring| == RING && head < RING
    ensures ring[head] == Held(Revision(acked + 1), log[acked])
  {
    IndexFacts(head, 0);
    assert ring[Index(head, 0)] == Entry(log, acked, 0);
  }

  lemma PopRing(ring: seq<Slot>, head: nat, log: seq<seq<byte>>, acked: nat)
    requires Holds(ring, head, log, acked) && acked < |log|
    ensures Holds(ring, Index(head, 1), log, acked + 1)
  {
    forall k | 0 <= k < |log| - (acked + 1)
      ensures ring[Index(Index(head, 1), k)] == Entry(log, acked + 1, k)
    {
      IndexFacts(head, k);
      assert ring[Index(head, k + 1)] == Entry(log, acked, k + 1);
    }
  }

  lemma PushRing(ring: seq<Slot>, head: nat, log: seq<seq<byte>>, acked: nat, pkt: seq<byte>)
    requires Holds(ring, head, log, acked) && |log| - acked < RING
    ensures Holds(ring[Index(head, |log| - acked) := Held(Revision(|log| + 1), pkt)], head, log + [pkt], acked)
  {
    var at := |log| - acked;
    var after := ring[Index(head, at) := Held(Revision(|log| + 1), pkt)];
    forall k | 0 <= k < at + 1
      ensures after[Index(head, k)] == Entry(log + [pkt], acked, k)
    {
      if k < at {
        IndexInjective(head, k, at);
        assert ring[Index(head, k)] == Entry(log, acked, k);
      }
    }
  }

  lemma WrappedCarries(stamp: byte, n: nat, event: seq<byte>)
    requires event != []
    ensures CarriesRevision(Wrapped(stamp, Revision(n), event), n)
  {
  }

  class Queue {
    var nextRev: word
    var ackedRev: word
    var sentRev: word
    var lastSendMs: nat
    var lastFastMs: nat
    const ring: array<Slot>
    var head: nat
    var count: nat
    /** The connection's transmit failure flag, and what was handed to it to send. */
    var failed: bool
    var out: seq<seq<byte>>
    /** Every wrapper ever queued, and how many of them are acknowledged. */
    ghost var log: seq<seq<byte>>
    ghost var acked: nat

    ghost predicate Valid()
      reads this, ring
    {
      && ring.Length == RING && Holds(ring[..], head, log, acked)
      && count == |log| - acked
      && nextRev == Revision(|log| + 1)
      && ackedRev == Revision(acked)
      && sentRev == Revision(SentUpTo(acked, |log|))
      && (forall n :: 0 <= n < |log| ==> CarriesRevision(log[n], n + 1))
    }

    constructor ()
      ensures Valid() && fresh(ring) && log == [] && acked == 0 && out == [] && !failed
    {
      nextRev, ackedRev, sentRev := 1, 0, 0;
      lastSendMs, lastFastMs := 0, 0;
      ring := new Slot[RING](_ => Free);
      head, count := 0, 0;
      failed := false;
      out := [];
      log := [];
      acked := 0;
    }

    /** Sends the head of the queue, if there is one. */
    method SendFrom(now: nat)
      requires ring.Length == RING && Holds(ring[..], head, log, acked) && count == |log| - acked
      modifies this`out, this`sentRev, this`lastSendMs
      ensures count == 0 ==> out == old(out) && sentRev == old(sentRev) && lastSendMs == old(lastSendMs)
      ensures count > 0 ==>
        out == old(out) + [log[acked]] && sentRev == Revision(acked + 1) && lastSendMs == now
    {
      if count == 0 {
        return;
      }
      HeadOfRing(ring[..], head, log, acked);
      out := out + [ring[head].pkt];
      sentRev := ring[head].rev;
      lastSendMs := now;
    }

    /** The retransmission timer. */
    method Tick(now: nat)
      requires Valid()
      modifies this`out, this`sentRev, this`lastSendMs
      ensures Valid()
      ensures var due := count > 0 && now - old(lastSendMs) >= 300;
        out == old(out) + (if due then [log[acked]] else []) && lastSendMs == if due then now else old(lastSendMs)
    {
      hide Holds, Revision;
      if count == 0 || now - lastSendMs < RESEND_MS {
        assert out == out + [];
        return;
      }
      SendFrom(now);
    }

    /** Queues an event for a seated client; a full queue or an oversized event
        condemns the connection. The first event of an empty queue is sent at once. */
    method Enqueue(seated: bool, event: seq<byte>, stamp: byte, now: nat) returns (result: int)
      requires Valid()
      modifies this, ring
      ensures Valid() && acked == old(acked)
      ensures !seated ==> result == 0 && log == old(log) && out == old(out) && failed == old(failed)
      ensures seated && (event == [] || |event| > 52 || old(count) >= 24) ==>
        result == -1 && failed && log == old(log) && out == old(out)
      ensures seated && 1 <= |event| <= 52 && old(count) < 24 ==>
        && result == 0 && failed == old(failed)
        && log == old(log) + [Wrapped(stamp, Revision(|old(log)| + 1), event)]
        && out == old(out) + (if old(count) == 0 then [Wrapped(stamp, Revision(|old(log)| + 1), event)] else [])
      ensures lastSendMs == if |out| > |old(out)| then now else old(lastSendMs)
    {
      if !seated {
        return 0;
      }
      if event == [] || |event| > EVENT_MAX || count >= RING {
        failed := true;
        return -1;
      }
      hide Holds, Revision, Wrapped, CarriesRevision;
      var pkt := Store(event, stamp);
      if count == 1 {
        out := out + [pkt];
        sentRev := ring[head].rev;
        lastSendMs := now;
      } else {
        assert out == out + [];
      }
      return 0;
    }

    /** Wraps an event under the next revision and puts it at the tail. */
    method Store(event: seq<byte>, stamp: byte) returns (pkt: seq<byte>)
      requires Valid() && 1 <= |event| <= EVENT_MAX && count < RING
      modifies this`nextRev, this`log, this`count, ring
      ensures pkt == Wrapped(stamp, Revision(|old(log)| + 1), event)
      ensures log == old(log) + [pkt] && count == old(count) + 1
      ensures Holds(ring[..], head, log, acked) && nextRev == Revision(|log| + 1)
      ensures forall n :: 0 <= n < |log| ==> CarriesRevision(log[n], n + 1)
      ensures count == 1 ==> head < RING && ring[head] == Held(Revision(acked + 1), pkt)
    {
      hide Holds, Revision, Wrapped, CarriesRevision;
      pkt := Wrapped(stamp, nextRev, event);
      PushRing(ring[..], head, log, acked, pkt);
      WrappedCarries(stamp, |log| + 1, event);
      NextRevision(|log| + 1);
      ring[Index(head, count)] := Held(nextRev, pkt);
      nextRev := (nextRev + 1) % 65536;
      log := log + [pkt];
      count := count + 1;
      HeadOfRing(ring[..], head, log, acked);
    }

    /** Processes one acknowledgement. Whatever the clock says, a value that is
        not dropped sends the head again when anything is left in the queue. */
    method Ack(ack: word, now: nat)
      requires Valid()
      modifies this
      ensures Valid() && log == old(log) && failed == old(failed)
      ensures acked == Retired(old(acked), |log|, ack)
      ensures out == old(out) + (if Resends(old(acked), |log|, ack) then [log[acked]] else [])
      ensures lastSendMs == if |out| > |old(out)| then now else old(lastSendMs)
    {
      hide Holds, Revision, Ahead;
      AheadZero(ack, sentRev);
      if Ahead(ack, sentRev) < 0x8000 && ack != sentRev {
        NextRevision(acked);
        assert out == out + [];
        return;
      }
      if ack == ackedRev && count > 0 && now - lastFastMs >= FAST_MS {
        NextRevision(acked);
        lastFastMs := now;
        SendFrom(now);
        return;
      }
      RetireAcknowledged(ack);
      if count > 0 {
        SendFrom(now);
      } else {
        assert out == out + [];
      }
    }

    /** The loop that pops every event at or below `ack`: it never pops two. */
    method RetireAcknowledged(ack: word)
      requires Valid() && !Unsent(acked, |log|, ack)
      modifies this`head, this`count, this`ackedRev, this`acked
      ensures acked == Retired(old(acked), |log|, ack)
      ensures acked == old(acked) || (acked == old(acked) + 1 && old(acked) < |log| && ack == Revision(acked))
      ensures Holds(ring[..], head, log, acked) && count == |log| - acked && ackedRev == Revision(acked)
      ensures count == 0 ==> sentRev == Revision(acked)
    {
      hide Holds, Revision, Ahead;
      ghost var start := acked;
      NextRevision(start);
      AheadZero(ack, sentRev);
      while count > 0
        invariant Holds(ring[..], head, log, acked) && count == |log| - acked && ackedRev == Revision(acked)
        invariant acked == start || (acked == start + 1 && start < |log| && ack == Revision(acked))
        decreases count
      {
        HeadOfRing(ring[..], head, log, acked);
        var rev := ring[head].rev;
        NextRevision(acked);
        AheadZero(ack, rev);
        if Ahead(ack, rev) >= 0x8000 {
          break;
        }
        PopRing(ring[..], head, log, acked);
        head := Index(head, 1);
        count := count - 1;
        ackedRev := rev;
        acked := acked + 1;
      }
    }
  }
}
