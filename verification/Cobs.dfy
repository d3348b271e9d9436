/** Consistent Overhead Byte Stuffing: an encoding without zero bytes, so that a
    zero can delimit frames, and the decoder that works in its input's place. */
module Cobs {
  import opened Bytes

  datatype Decoded = Valid(raw: seq<byte>) | Invalid

  /** The encoding of `run + rest`, where `run` is the zero-free block being
      collected: its code byte (one more than its length) comes first. A block
      of 254 bytes is closed at once and stands for no zero. */
  function EncodeFrom(run: seq<byte>, rest: seq<byte>): seq<byte>
    requires |run| < 254
    decreases |rest|
  {
    if rest == [] then [|run| + 1] + run
    else if rest[0] == 0 then [|run| + 1] + run + EncodeFrom([], rest[1..])
    else if |run| == 253 then [255] + (run + [rest[0]]) + EncodeFrom([], rest[1..])
    else EncodeFrom(run + [rest[0]], rest[1..])
  }

  function Encode(raw: seq<byte>): seq<byte> {
    EncodeFrom([], raw)
  }

  /** What a receiver makes of a frame body: blocks, with a zero between two of
      them unless the first is full. */
  function Decode(body: seq<byte>): Decoded
    decreases |body|
  {
    if body == [] then Valid([])
    else
      var code := body[0];
      if code == 0 || code - 1 > |body| - 1 then Invalid
      else
        var rest := body[code..];
        match Decode(rest)
        case Invalid => Invalid
        case Valid(raw) =>
          Valid(body[1..code] + (if code != 255 && rest != [] then [0] else []) + raw)
  }

  // --- The round trip ----------------------------------------------------------

  lemma {:induction false} DecodeBlock(block: seq<byte>, rest: seq<byte>)
    requires |block| <= 254
    ensures Decode(rest).Valid? ==>
      Decode([|block| + 1] + block + rest) ==
        Valid(block + (if |block| != 254 && rest != [] then [0] else []) + Decode(rest).raw)
  {
    var body := [|block| + 1] + block + rest;
    assert body[|block| + 1..] == rest && body[1..|block| + 1] == block;
  }

  lemma {:induction false} EncodeFromHasNoZero(run: seq<byte>, rest: seq<byte>)
    requires |run| < 254 && 0 !in run
    ensures EncodeFrom(run, rest) != [] && 0 !in EncodeFrom(run, rest)
    decreases |rest|
  {
    if rest != [] {
      if rest[0] == 0 || |run| == 253 {
        EncodeFromHasNoZero([], rest[1..]);
      } else {
        EncodeFromHasNoZero(run + [rest[0]], rest[1..]);
      }
    }
  }

  lemma {:induction false} EncodeFromSound(run: seq<byte>, rest: seq<byte>)
    requires |run| < 254
    ensures EncodeFrom(run, rest) != []
    ensures Decode(EncodeFrom(run, rest)) == Valid(run + rest)
    decreases |rest|
  {
    hide Decode;
    if rest == [] {
      DecodeBlock(run, []);
      DecodeEmpty();
      assert [|run| + 1] + run + [] == [|run| + 1] + run;
      assert run + [] + [] == run + rest;
    } else {
      var first, tail := rest[0], rest[1..];
      var longer := run + [first];
      assert [] + tail == tail;
      if first == 0 {
        EncodeFromSound([], tail);
        DecodeBlock(run, EncodeFrom([], tail));
        assert run + [0] + tail == run + rest;
      } else if |run| == 253 {
        EncodeFromSound([], tail);
        DecodeBlock(longer, EncodeFrom([], tail));
        assert longer + [] + tail == run + rest;
      } else {
        EncodeFromSound(longer, tail);
        assert longer + tail == run + rest;
      }
    }
  }

  lemma DecodeEmpty()
    ensures Decode([]) == Valid([])
  {
  }

  /** Every byte sequence of any length survives encoding and decoding, and its
      encoding contains no delimiter. */
  lemma RoundTrip(raw: seq<byte>)
    ensures Encode(raw) != [] && 0 !in Encode(raw)
    ensures Decode(Encode(raw)) == Valid(raw)
  {
    EncodeFromSound([], raw);
    EncodeFromHasNoZero([], raw);
    assert [] + raw == raw;
  }

  lemma EncodeInjective(a: seq<byte>, b: seq<byte>)
    requires Encode(a) == Encode(b)
    ensures a == b
  {
    RoundTrip(a);
    RoundTrip(b);
  }

  lemma {:induction false} EncodedLength(run: seq<byte>, rest: seq<byte>)
    requires |run| < 254
    ensures |run| + |rest| + 1 <= |EncodeFrom(run, rest)| <= |run| + |rest| + 1 + (|run| + |rest|) / 254
    decreases |rest|
  {
    if rest != [] {
      if rest[0] == 0 || |run| == 253 {
        EncodedLength([], rest[1..]);
      } else {
        EncodedLength(run + [rest[0]], rest[1..]);
      }
    }
  }

  /** Below 254 bytes the overhead is exactly one byte. */
  lemma ShortOverhead(raw: seq<byte>)
    ensures |raw| < 254 ==> |Encode(raw)| == |raw| + 1
    ensures |Encode(raw)| <= |raw| + 1 + |raw| / 254
  {
    EncodedLength([], raw);
  }

  lemma {:induction false} DecodedLength(body: seq<byte>)
    requires Decode(body).Valid?
    ensures |Decode(body).raw| <= |body|
    ensures body != [] ==> |Decode(body).raw| < |body|
    decreases |body|
  {
    if body != [] {
      DecodedLength(body[body[0]..]);
    }
  }

  // --- The encoder's loop --------------------------------------------------------

  /** Closing the current block moves it, behind its code byte, to the finished part. */
  lemma {:induction false} CloseBlock(closed: seq<byte>, run: seq<byte>, rest: seq<byte>)
    requires rest != [] && |run| < 254
    ensures rest[0] == 0 ==>
      closed + EncodeFrom(run, rest) == (closed + [|run| + 1] + run) + EncodeFrom([], rest[1..])
    ensures rest[0] != 0 && |run| == 253 ==>
      closed + EncodeFrom(run, rest) == (closed + [255] + (run + [rest[0]])) + EncodeFrom([], rest[1..])
    ensures rest[0] != 0 && |run| < 253 ==>
      EncodeFrom(run, rest) == EncodeFrom(run + [rest[0]], rest[1..])
  {
    hide *;
    EncodeFromUnfold(run, rest);
  }

  lemma {:induction false} EncodeFromUnfold(run: seq<byte>, rest: seq<byte>)
    requires rest != [] && |run| < 254
    ensures rest[0] == 0 ==> EncodeFrom(run, rest) == [|run| + 1] + run + EncodeFrom([], rest[1..])
    ensures rest[0] != 0 && |run| == 253 ==>
      EncodeFrom(run, rest) == [255] + (run + [rest[0]]) + EncodeFrom([], rest[1..])
    ensures rest[0] != 0 && |run| < 253 ==>
      EncodeFrom(run, rest) == EncodeFrom(run + [rest[0]], rest[1..])
  {
  }

  lemma {:induction false} RoomLeft(raw: seq<byte>, closed: seq<byte>, run: seq<byte>, rest: seq<byte>)
    requires |run| < 254 && closed + EncodeFrom(run, rest) == Encode(raw)
    ensures |closed| + 1 + |run| + |rest| <= |raw| + 1 + |raw| / 254
  {
    EncodedLength(run, rest);
    ShortOverhead(raw);
    assert |closed + EncodeFrom(run, rest)| == |closed| + |EncodeFrom(run, rest)|;
  }

  /** Writes the code byte of the block that ends at `wr`. */
  method WriteCode(out: array<byte>, codeAt: nat, code: byte, wr: nat, ghost closed: seq<byte>, ghost run: seq<byte>)
    requires codeAt < wr <= out.Length
    requires out[..codeAt] == closed && out[codeAt + 1..wr] == run
    modifies out
    ensures out[..wr] == closed + [code as int] + run
  {
    out[codeAt] := code;
    assert out[..wr] == out[..codeAt] + [out[codeAt]] + out[codeAt + 1..wr];
  }

  /** Adds a byte to the block being collected. */
  method WriteByte(out: array<byte>, codeAt: nat, wr: nat, b: byte, ghost closed: seq<byte>, ghost run: seq<byte>)
    requires codeAt < wr < out.Length
    requires out[..codeAt] == closed && out[codeAt + 1..wr] == run
    modifies out
    ensures out[..codeAt] == closed && out[codeAt + 1..wr + 1] == run + [b]
  {
    out[wr] := b;
    assert out[codeAt + 1..wr + 1] == out[codeAt + 1..wr] + [out[wr]];
  }

  method EncodeInto(input: array<byte>, n: nat, out: array<byte>) returns (wr: nat)
    requires n <= input.Length && input != out
    requires n + 1 + n / 254 <= out.Length
    modifies out
    ensures wr <= out.Length && out[..wr] == Encode(old(input[..n]))
  {
    hide EncodeFrom, Encode;
    var rd := 0;
    var codeAt := 0;
    var code: byte := 1;
    wr := 1;
    ghost var raw := input[..n];
    ghost var closed: seq<byte>, run: seq<byte> := [], [];
    assert raw[0..] == raw && closed + EncodeFrom(run, raw) == Encode(raw) by { EncodeStart(raw); }
    while rd < n
      invariant rd <= n && input[..n] == raw
      invariant |run| < 254 && code == |run| + 1 && wr == codeAt + code
      invariant closed + EncodeFrom(run, raw[rd..]) == Encode(raw)
      invariant wr + (n - rd) <= out.Length
      invariant out[..codeAt] == closed && out[codeAt + 1..wr] == run
    {
      ghost var rest := raw[rd..];
      assert rest[0] == input[rd] && rest[1..] == raw[rd + 1..];
      CloseBlock(closed, run, rest);
      if input[rd] == 0 {
        WriteCode(out, codeAt, code, wr, closed, run);
        closed := closed + [|run| + 1] + run;
        run := [];
        codeAt := wr;
        wr := wr + 1;
        code := 1;
        rd := rd + 1;
      } else {
        WriteByte(out, codeAt, wr, input[rd], closed, run);
        wr := wr + 1;
        rd := rd + 1;
        run := run + [rest[0]];
        code := code + 1;
        if code == 0xff {
          WriteCode(out, codeAt, code, wr, closed, run);
          closed := closed + [255] + run;
          run := [];
          codeAt := wr;
          wr := wr + 1;
          code := 1;
        }
      }
      RoomLeft(raw, closed, run, raw[rd..]);
    }
    WriteCode(out, codeAt, code, wr, closed, run);
    LastBlock(run);
    assert raw[rd..] == [];
    assert closed + [code as int] + run == closed + ([code as int] + run);
  }

  lemma EncodeStart(raw: seq<byte>)
    ensures [] + EncodeFrom([], raw) == Encode(raw)
  {
  }

  lemma LastBlock(run: seq<byte>)
    requires |run| < 254
    ensures EncodeFrom(run, []) == [|run| + 1] + run
  {
  }

  // --- The in-place decoder --------------------------------------------------------

  /** A decoded prefix put back in front of what the remaining body decodes to. */
  function Behind(prefix: seq<byte>, rest: Decoded): Decoded {
    match rest
    case Invalid => Invalid
    case Valid(raw) => Valid(prefix + raw)
  }

  lemma {:induction false} DecodeStep(prefix: seq<byte>, body: seq<byte>)
    requires body != []
    ensures body[0] == 0 || body[0] - 1 > |body| - 1 ==> Decode(body) == Invalid
    ensures 0 < body[0] <= |body| ==>
      var rest := body[body[0]..];
      Behind(prefix, Decode(body)) ==
        Behind(prefix + body[1..body[0]] + (if body[0] != 255 && rest != [] then [0] else []), Decode(rest))
  {
    if 0 < body[0] <= |body| {
      var rest := body[body[0]..];
      if Decode(rest).Valid? {
        var sep := if body[0] != 255 && rest != [] then [0] else [];
        assert prefix + (body[1..body[0]] + sep + Decode(rest).raw) == prefix + body[1..body[0]] + sep + Decode(rest).raw;
      }
    }
  }

  /** Copies one block down over bytes that have already been read. */
  method CopyBlock(buf: array<byte>, rd0: nat, wr0: nat, count: nat, ghost was: seq<byte>) returns (rd: nat, wr: nat)
    requires wr0 < rd0 && rd0 + count <= buf.Length == |was|
    requires forall j :: rd0 <= j < buf.Length ==> buf[j] == was[j]
    modifies buf
    ensures rd == rd0 + count && wr == wr0 + count
    ensures buf[..wr] == old(buf[..wr0]) + was[rd0..rd]
    ensures forall j :: rd <= j < buf.Length ==> buf[j] == was[j]
  {
    rd, wr := rd0, wr0;
    ghost var prefix := buf[..wr0];
    var i := 0;
    while i < count
      invariant 0 <= i <= count && rd == rd0 + i && wr == wr0 + i
      invariant buf[..wr] == prefix + was[rd0..rd]
      invariant forall j :: rd <= j < buf.Length ==> buf[j] == was[j]
    {
      buf[wr] := buf[rd];
      wr := wr + 1;
      rd := rd + 1;
      i := i + 1;
      assert buf[..wr] == buf[..wr - 1] + [was[rd - 1]];
    }
  }

  /** Moves one block into place. Every write lands strictly below the next
      byte to be read, so what has not been read is never overwritten. */
  method DecodeBlockInPlace(buf: array<byte>, rd0: nat, wr0: nat, len: nat, ghost was: seq<byte>)
    returns (valid: bool, rd: nat, wr: nat)
    requires wr0 <= rd0 < len <= buf.Length == |was|
    requires forall j :: rd0 <= j < buf.Length ==> buf[j] == was[j]
    modifies buf
    ensures !valid ==> Behind(old(buf[..wr0]), Decode(was[rd0..len])) == Invalid
    ensures valid ==> rd0 < rd <= len && wr <= rd
    ensures valid ==> Behind(buf[..wr], Decode(was[rd..len])) == Behind(old(buf[..wr0]), Decode(was[rd0..len]))
    ensures forall j :: len <= j < buf.Length || (valid && rd <= j < buf.Length) ==> buf[j] == was[j]
  {
    hide Decode, Behind;
    ghost var out := buf[..wr0];
    var code := buf[rd0];
    OneBlock(out, was, rd0, len);
    rd, wr := rd0 + 1, wr0;
    if code == 0 || code - 1 > len - rd {
      valid := false;
      return;
    }
    valid := true;
    rd, wr := CopyBlock(buf, rd, wr, code - 1, was);
    assert buf[..wr] == out + was[rd0 + 1..rd];
    if code != 0xff && rd < len {
      buf[wr] := 0;
      wr := wr + 1;
      assert buf[..wr] == out + was[rd0 + 1..rd] + [0];
    }
  }

  /** Decodes a frame body over itself. */
  method DecodeInPlace(buf: array<byte>, len: nat) returns (valid: bool, wr: nat)
    requires len <= buf.Length
    modifies buf
    ensures valid <==> Decode(old(buf[..len])).Valid?
    ensures valid ==> wr <= len && buf[..wr] == Decode(old(buf[..len])).raw
    ensures forall j :: len <= j < buf.Length ==> buf[j] == old(buf[j])
  {
    hide Decode;
    ghost var was := buf[..];
    var rd := 0;
    valid := true;
    wr := 0;
    BehindNothing(Decode(was[0..len]));
    assert was[0..len] == was[..len] == buf[..len];
    while valid && rd < len
      invariant valid ==> wr <= rd <= len
      invariant forall j :: len <= j < buf.Length || (valid && rd <= j < buf.Length) ==> buf[j] == was[j]
      invariant valid ==> Behind(buf[..wr], Decode(was[rd..len])) == Decode(was[..len])
      invariant !valid ==> Decode(was[..len]) == Invalid
      decreases valid, len - rd
    {
      valid, rd, wr := DecodeBlockInPlace(buf, rd, wr, len, was);
    }
    if valid {
      assert was[rd..len] == [];
      DecodeEmpty();
      assert buf[..wr] + [] == buf[..wr];
    }
  }

  /** One block of the body at `rd`, in terms of the positions the loop uses. */
  lemma {:induction false} OneBlock(out: seq<byte>, was: seq<byte>, rd: nat, len: nat)
    requires rd < len <= |was|
    ensures was[rd] == 0 || was[rd] - 1 > len - (rd + 1) ==> Behind(out, Decode(was[rd..len])) == Invalid
    ensures 0 < was[rd] <= len - rd ==>
      var at, next := rd + 1, rd + was[rd];
      var copied := out + was[at..next];
      && (was[rd] != 255 && next < len ==>
            Behind(out, Decode(was[rd..len])) == Behind(copied + [0], Decode(was[next..len])))
      && (!(was[rd] != 255 && next < len) ==>
            Behind(out, Decode(was[rd..len])) == Behind(copied, Decode(was[next..len])))
  {
    hide Decode, Behind;
    var body := was[rd..len];
    DecodeStep(out, body);
    BehindInvalid(out);
    if 0 < was[rd] <= len - rd {
      var next := rd + was[rd];
      SliceOfSlice(was, rd, len, was[rd]);
      assert out + was[rd + 1..next] + [] == out + was[rd + 1..next];
    }
  }

  lemma SliceOfSlice(s: seq<byte>, from: nat, to: nat, k: nat)
    requires from < to <= |s| && 0 < k <= to - from
    ensures s[from..to][k..] == s[from + k..to]
    ensures s[from..to][1..k] == s[from + 1..from + k]
  {
    var a, b := s[from..to][1..k], s[from + 1..from + k];
    assert |a| == |b|;
    assert forall i :: 0 <= i < |a| ==> a[i] == b[i];
  }

  lemma BehindInvalid(prefix: seq<byte>)
    ensures Behind(prefix, Invalid) == Invalid
  {
  }

  lemma BehindNothing(d: Decoded)
    ensures Behind([], d) == d
  {
    if d.Valid? {
      assert [] + d.raw == d.raw;
    }
  }

  /** A known encoding: each code byte counts to the next zero, and the last to the end. */
  lemma KnownEncoding()
    ensures Encode([0x11, 0x22, 0, 0x33]) == [3, 0x11, 0x22, 2, 0x33]
    ensures Encode([0, 0]) == [1, 1, 1] && Encode([]) == [1]
  {
    assert EncodeFrom([], []) == [1];
    assert [0, 0][1..] == [0] && [0][1..] == [];
    var raw := [0x11, 0x22, 0, 0x33];
    assert raw[1..] == [0x22, 0, 0x33] && [0x22, 0, 0x33][1..] == [0, 0x33] && [0, 0x33][1..] == [0x33] && [0x33][1..] == [];
    assert EncodeFrom([0x33], []) == [2, 0x33] && EncodeFrom([], [0x33]) == EncodeFrom([0x33], []) by { assert [] + [0x33] == [0x33]; }
    assert [] + [0x11] == [0x11] && [0x11] + [0x22] == [0x11, 0x22];
    assert EncodeFrom([0x11, 0x22], [0, 0x33]) == [3, 0x11, 0x22, 2, 0x33];
  }
}
