/** The bounded send queue in front of a non-blocking socket. */
module SendQueue {
  import opened Bytes
  import Cobs
  import Crc16
  import Framing

  const CAPACITY := 4096

  /** What one send() call may do. */
  datatype SendResult = Took(n: nat) | Interrupted | WouldBlock | Broken

  /** The sending side of a socket. The script holds every future answer of the
      operating system, so a proof for all scripts covers all its behaviours. */
  class Outlet {
    var script: seq<SendResult>
    var sent: seq<byte>
    /** The answer to the latest call, and how many calls there have been. */
    var latest: SendResult
    var calls: nat

    constructor (script: seq<SendResult>)
      ensures this.script == script && sent == []
    {
      this.script := script;
      sent := [];
      latest := WouldBlock;
      calls := 0;
    }

    /** Offers data[from..to], at least one byte. */
    method Send(data: array<byte>, from: nat, to: nat) returns (r: SendResult)
      requires from < to <= data.Length
      modifies this
      ensures r.Took? ==> from + r.n <= to && sent == old(sent) + data[from..from + r.n]
      ensures !r.Took? ==> sent == old(sent)
      ensures |script| < |old(script)| || (script == [] && r == WouldBlock)
      ensures latest == r && calls == old(calls) + 1
    {
      r := WouldBlock;
      if script != [] {
        r := script[0];
        script := script[1..];
      }
      if r.Took? {
        if r.n > to - from {
          r := Took(to - from);
        }
        sent := sent + data[from..from + r.n];
      }
      latest := r;
      calls := calls + 1;
    }
  }

  class TxQueue {
    const outlet: Outlet
    const data: array<byte>
    var len: nat
    var failed: bool
    /** Every byte ever taken into the queue, and those of them not sent yet. */
    ghost var accepted: seq<byte>
    ghost var unsent: seq<byte>

    /** Nothing is lost, repeated or reordered: what was sent is a prefix of what
        was accepted, and a healthy queue holds exactly the rest. */
    ghost predicate Valid()
      reads this, outlet, data
    {
      && data.Length == CAPACITY && len <= CAPACITY
      && accepted == outlet.sent + unsent
      && (!failed ==> data[..len] == unsent)
    }

    constructor (outlet: Outlet)
      requires outlet.sent == []
      ensures Valid() && fresh(data) && this.outlet == outlet
      ensures !failed && len == 0 && accepted == []
    {
      this.outlet := outlet;
      data := new byte[CAPACITY];
      len := 0;
      failed := false;
      accepted := [];
      unsent := [];
    }

    /** memmove(data, data + offset, len - offset): overlapping, lowest index first. */
    method MoveDown(offset: nat)
      requires data.Length == CAPACITY && offset <= len <= CAPACITY
      modifies data
      ensures data[..len - offset] == old(data[offset..len])
    {
      ghost var was := data[..];
      var i := 0;
      while i < len - offset
        invariant 0 <= i <= len - offset
        invariant data[..i] == was[offset..offset + i]
        invariant forall j :: i <= j < data.Length ==> data[j] == was[j]
      {
        data[i] := data[i + offset];
        i := i + 1;
        assert data[..i] == data[..i - 1] + [was[offset + i - 1]];
      }
    }

    method Flush() returns (ok: bool)
      requires Valid()
      modifies this, outlet, data
      ensures Valid() && accepted == old(accepted)
      ensures ok == !failed
      ensures old(failed) ==> failed && outlet.sent == old(outlet.sent)
      ensures ok ==> len <= old(len)
      ensures outlet.calls >= old(outlet.calls)
      // It stops with bytes left only because the socket would block, and fails only because it broke.
      ensures ok && len > 0 ==> outlet.calls > old(outlet.calls) && outlet.latest == WouldBlock
      ensures !ok && !old(failed) ==>
        outlet.calls > old(outlet.calls) && (outlet.latest == Broken || outlet.latest == Took(0))
    {
      if failed {
        return false;
      }
      if len == 0 {
        return true;
      }
      var offset := 0;
      while offset < len
        invariant offset <= len == old(len) && !failed
        invariant data[offset..len] == unsent
        invariant accepted == old(accepted) == outlet.sent + unsent
        invariant outlet.calls >= old(outlet.calls)
        decreases |outlet.script|, len - offset
      {
        var n := outlet.Send(data, offset, len);
        match n
        case Interrupted =>
          continue;
        case WouldBlock =>
          MoveDown(offset);
          len := len - offset;
          return true;
        case Broken =>
          failed := true;
          return false;
        case Took(count) =>
          Taken(data[..], offset, len, count, unsent);
          unsent := unsent[count..];
          if count == 0 {
            failed := true;
            return false;
          }
          offset := offset + count;
      }
      len := 0;
      return true;
    }

    lemma Taken(data: seq<byte>, offset: nat, len: nat, count: nat, unsent: seq<byte>)
      requires offset + count <= len <= |data| && data[offset..len] == unsent
      ensures data[offset + count..len] == unsent[count..]
      ensures data[offset..offset + count] + unsent[count..] == unsent
      ensures forall sent: seq<byte> :: sent + data[offset..offset + count] + unsent[count..] == sent + unsent
    {
      assert data[offset..offset + count] == unsent[..count];
      forall sent: seq<byte>
        ensures sent + data[offset..offset + count] + unsent[count..] == sent + unsent
      {
        assert sent + data[offset..offset + count] + unsent[count..] == sent + (unsent[..count] + unsent[count..]);
      }
    }

    /** memcpy(data + len, bytes, n). */
    method Append(bytes: array<byte>, n: nat)
      requires data.Length == CAPACITY && len + n <= CAPACITY && n <= bytes.Length && bytes != data
      modifies data
      ensures data[..len + n] == old(data[..len]) + bytes[..n]
    {
      ghost var head := data[..len];
      var i := 0;
      while i < n
        invariant 0 <= i <= n
        invariant data[..len + i] == head + bytes[..i]
      {
        data[len + i] := bytes[i];
        i := i + 1;
        assert data[..len + i] == data[..len + i - 1] + [bytes[i - 1]];
        assert bytes[..i] == bytes[..i - 1] + [bytes[i - 1]];
      }
    }

    /** Takes all of `bytes[..n]` or fails for good; never part of it. */
    method Queue(bytes: array<byte>, n: nat) returns (ok: bool)
      requires Valid() && n <= bytes.Length && bytes != data
      modifies this, outlet, data
      ensures Valid()
      ensures ok == !failed
      ensures ok ==> accepted == old(accepted) + bytes[..n]
      ensures !ok ==> accepted == old(accepted) || accepted == old(accepted) + bytes[..n]
      ensures old(failed) ==> failed && accepted == old(accepted) && outlet.sent == old(outlet.sent)
      ensures n > CAPACITY ==> !ok
      // Apart from a broken socket, only a full queue refuses.
      ensures !ok && !old(failed) ==>
        n > CAPACITY - len ||
        (outlet.calls > old(outlet.calls) && (outlet.latest == Broken || outlet.latest == Took(0)))
    {
      if failed {
        return false;
      }
      ok := Flush();
      if !ok {
        return false;
      }
      if n > CAPACITY - len {
        failed := true;
        return false;
      }
      Append(bytes, n);
      accepted := accepted + bytes[..n];
      unsent := unsent + bytes[..n];
      len := len + n;
      ok := Flush();
    }
  }
}
