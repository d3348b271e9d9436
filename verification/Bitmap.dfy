/** The brick map as both ends store it and as BRICK_FULL carries it: 48 bytes, one
    bit a cell, row by row, low bit first. Proved to be the set of cells that the
    other modules reason about. */
module Bitmap {
  import opened Bytes
  import opened Grid

  const MAP_BYTES := 48
  const CELLS := WIDTH * HEIGHT

  /** (b >> k) & 1 */
  function Bit(b: nat, k: nat): (d: nat)
    ensures d < 2
  {
    if k == 0 then b % 2 else Bit(b / 2, k - 1)
  }

  /** b & ~(1 << k), binary digit by binary digit. */
  function Cleared(b: nat, k: nat): (r: nat)
    ensures r <= b
  {
    if k == 0 then b / 2 * 2 else 2 * Cleared(b / 2, k - 1) + b % 2
  }

  lemma {:induction false} ClearedBits(b: nat, k: nat, j: nat)
    ensures Bit(Cleared(b, k), j) == if j == k then 0 else Bit(b, j)
  {
    var c := if k == 0 then b / 2 else Cleared(b / 2, k - 1);
    var d := if k == 0 then 0 else b % 2;
    Halves(c, d);
    if k > 0 && j > 0 {
      ClearedBits(b / 2, k - 1, j - 1);
    }
  }

  function IndexOf(c: Cell): nat
    requires InBounds(c)
  {
    c.y * WIDTH + c.x
  }

  function CellAt(i: nat): Cell {
    Cell(i % WIDTH, i / WIDTH)
  }

  lemma IndexInverse(c: Cell, i: nat)
    ensures InBounds(c) ==> IndexOf(c) < CELLS && CellAt(IndexOf(c)) == c
    ensures i < CELLS ==> InBounds(CellAt(i)) && IndexOf(CellAt(i)) == i
  {
  }

  function BitAt(bits: seq<byte>, i: nat): nat
    requires |bits| == MAP_BYTES && i < CELLS
  {
    Bit(bits[i / 8], i % 8)
  }

  /** The bricks that a map shows. */
  function Shown(bits: seq<byte>): set<Cell>
    requires |bits| == MAP_BYTES
  {
    set x: int, y: int | 0 <= x < WIDTH && 0 <= y < HEIGHT && BitAt(bits, y * WIDTH + x) == 1 :: Cell(x, y)
  }

  lemma ShownAt(bits: seq<byte>, c: Cell)
    requires |bits| == MAP_BYTES && InBounds(c)
    ensures c in Shown(bits) <==> BitAt(bits, IndexOf(c)) == 1
  {
  }

  /** is_brick */
  method IsBrickAt(bits: array<byte>, c: Cell) returns (b: bool)
    requires bits.Length == MAP_BYTES
    ensures b == IsBrick(Shown(bits[..]), c)
  {
    if c.x < 0 || c.x >= 20 || c.y < 0 || c.y >= 19 {
      return true;
    }
    var i := c.y * 20 + c.x;
    b := Bit(bits[i / 8], i % 8) == 1;
    ShownAt(bits[..], c);
  }

  /** clear_brick: this cell's brick goes, in bounds or not, and no other. */
  method ClearBrick(bits: array<byte>, c: Cell)
    requires bits.Length == MAP_BYTES
    modifies bits
    ensures Shown(bits[..]) == old(Shown(bits[..])) - {c}
    ensures InBounds(c) ==> bits[..] == old(bits[..])[IndexOf(c) / 8 := Cleared(old(bits[IndexOf(c) / 8]), IndexOf(c) % 8)]
  {
    if c.x < 0 || c.x >= 20 || c.y < 0 || c.y >= 19 {
      return;
    }
    ghost var was := bits[..];
    var i := c.y * 20 + c.x;
    bits[i / 8] := Cleared(bits[i / 8], i % 8);
    ClearedShows(was, c);
  }

  lemma ClearedShows(bits: seq<byte>, c: Cell)
    requires |bits| == MAP_BYTES && InBounds(c)
    ensures Shown(bits[IndexOf(c) / 8 := Cleared(bits[IndexOf(c) / 8], IndexOf(c) % 8)]) == Shown(bits) - {c}
  {
    hide Bit, Cleared;
    var i := IndexOf(c);
    var after := bits[i / 8 := Cleared(bits[i / 8], i % 8)];
    forall d: Cell | InBounds(d)
      ensures d in Shown(after) <==> d in Shown(bits) && d != c
    {
      var j := IndexOf(d);
      IndexInverse(c, i);
      IndexInverse(d, j);
      ShownAt(after, d);
      ShownAt(bits, d);
      if j / 8 == i / 8 {
        ClearedBits(bits[i / 8], i % 8, j % 8);
      }
    }
  }

  // --- The client's two copies ------------------------------------------------------------

  class ClientMap {
    const brickBits: array<byte>
    const bricks: array<byte>

    /** One byte a cell says what the bits say. */
    ghost predicate Valid()
      reads this, brickBits, bricks
    {
      && brickBits.Length == MAP_BYTES && bricks.Length == CELLS
      && forall i :: 0 <= i < CELLS ==> bricks[i] == BitAt(brickBits[..], i)
    }

    constructor ()
      ensures Valid() && fresh(brickBits) && fresh(bricks) && Shown(brickBits[..]) == {}
    {
      brickBits := new byte[MAP_BYTES](_ => 0);
      bricks := new byte[CELLS](_ => 0);
      new;
      forall i | 0 <= i < CELLS
        ensures BitAt(brickBits[..], i) == 0
      {
        ZeroBits(i % 8);
      }
    }

    /** decode_brick_full */
    method DecodeBrickFull(bits: seq<byte>)
      requires Valid() && |bits| == MAP_BYTES
      modifies brickBits, bricks
      ensures Valid() && brickBits[..] == bits
    {
      forall k | 0 <= k < MAP_BYTES {
        brickBits[k] := bits[k];
      }
      assert brickBits[..] == bits;
      var i := 0;
      while i < CELLS
        invariant 0 <= i <= CELLS && brickBits[..] == bits
        invariant forall j :: 0 <= j < i ==> bricks[j] == BitAt(bits, j)
      {
        bricks[i] := Bit(bits[i / 8], i % 8);
        i := i + 1;
      }
    }

    /** clear_brick_cell: both copies lose the brick. */
    method ClearBrickCell(c: Cell)
      requires Valid()
      modifies brickBits, bricks
      ensures Valid() && Shown(brickBits[..]) == old(Shown(brickBits[..])) - {c}
    {
      hide Bit, Cleared, Shown;
      if c.x < 0 || c.x >= 20 || c.y < 0 || c.y >= 19 {
        NothingOutside(brickBits[..], c);
        return;
      }
      ghost var was := brickBits[..];
      var i := c.y * 20 + c.x;
      bricks[i] := 0;
      brickBits[i / 8] := Cleared(brickBits[i / 8], i % 8);
      ClearedShows(was, c);
      assert brickBits[..] == was[i / 8 := Cleared(was[i / 8], i % 8)];
      forall j | 0 <= j < CELLS
        ensures bricks[j] == BitAt(brickBits[..], j)
      {
        if j / 8 == i / 8 {
          ClearedBits(was[i / 8], i % 8, j % 8);
        }
      }
    }
  }

  lemma {:induction false} ZeroBits(k: nat)
    ensures Bit(0, k) == 0
  {
    if k > 0 {
      ZeroBits(k - 1);
    }
  }

  lemma NothingOutside(bits: seq<byte>, c: Cell)
    requires |bits| == MAP_BYTES && !InBounds(c)
    ensures Shown(bits) - {c} == Shown(bits)
  {
  }

  // --- Every map has its bytes ----------------------------------------------------------------

  function Digit(cells: set<Cell>, i: nat): (d: nat)
    ensures d < 2
  {
    if i < CELLS && CellAt(i) in cells then 1 else 0
  }

  /** The n bits from position i on, low bit first. */
  function Packed(cells: set<Cell>, i: nat, n: nat): (b: nat)
    ensures b < Pow2(n)
    decreases n
  {
    if n == 0 then 0 else Digit(cells, i) + 2 * Packed(cells, i + 1, n - 1)
  }

  function BytesOf(cells: set<Cell>): seq<byte> {
    assert Pow2(8) == 256;
    seq(MAP_BYTES, j requires 0 <= j < MAP_BYTES => Packed(cells, 8 * j, 8))
  }

  lemma {:induction false} PackedBit(cells: set<Cell>, i: nat, n: nat, k: nat)
    requires k < n
    ensures Bit(Packed(cells, i, n), k) == Digit(cells, i + k)
    decreases n
  {
    Halves(Packed(cells, i + 1, n - 1), Digit(cells, i));
    if k > 0 {
      PackedBit(cells, i + 1, n - 1, k - 1);
    }
  }

  /** A map survives the wire: the 48 bytes of a set of cells show exactly the cells
      of that set that lie in the grid, and no byte sequence shows anything else. */
  lemma MapRoundTrip(cells: set<Cell>, bits: seq<byte>)
    requires |bits| == MAP_BYTES
    ensures |BytesOf(cells)| == MAP_BYTES && Shown(BytesOf(cells)) == Inside(cells)
    ensures Shown(BytesOf(Shown(bits))) == Shown(bits)
  {
    hide Bit, Packed;
    PackedShows(cells);
    PackedShows(Shown(bits));
  }

  lemma PackedShows(cells: set<Cell>)
    ensures |BytesOf(cells)| == MAP_BYTES && Shown(BytesOf(cells)) == Inside(cells)
  {
    hide Bit, Packed;
    forall c: Cell | InBounds(c)
      ensures c in Shown(BytesOf(cells)) <==> c in cells
    {
      var i := IndexOf(c);
      IndexInverse(c, i);
      ShownAt(BytesOf(cells), c);
      PackedBit(cells, 8 * (i / 8), 8, i % 8);
    }
  }
}
