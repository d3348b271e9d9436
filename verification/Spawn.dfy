/** Where an actor is put back on the board. */
module Spawn {
  import opened Bytes
  import opened Grid
  import opened Arena

  const TRIES := 200
  const MIN_DISTANCE := 8
  /** INT_MAX: the distance to the nearest actor on an empty board. */
  const FAR: nat := 0x7fffffff

  predicate Free(f: Field, c: Cell)
    requires Sane(f)
  {
    !IsBrick(f.bricks, c) && !PlayerAt(f, c, -1)
  }

  /** The distance from c to the nearest actor on the board among slots below n. */
  function NearestActor(f: Field, c: Cell, n: nat): (d: nat)
    requires Sane(f) && n <= SLOTS
    ensures forall i: nat :: i < n && OnBoard(f, i) ==> d <= Distance(c, f.players[i].at)
    ensures d == FAR || exists i: nat :: i < n && OnBoard(f, i) && d == Distance(c, f.players[i].at)
  {
    if n == 0 then FAR
    else
      var d := NearestActor(f, c, n - 1);
      if OnBoard(f, n - 1) && Distance(c, f.players[n - 1].at) < d then Distance(c, f.players[n - 1].at) else d
  }

  predicate Comfortable(f: Field, c: Cell)
    requires Sane(f)
  {
    Free(f, c) && NearestActor(f, c, SLOTS) >= MIN_DISTANCE
  }

  /** What the chooser promises: a comfortable cell, or one as far from the nearest
      actor as any legal cell is; the corner when no cell is legal. */
  ghost predicate GoodSpawn(f: Field, c: Cell)
    requires Sane(f)
  {
    if exists d :: Free(f, d) then
      Free(f, c) &&
      (Comfortable(f, c) || forall d :: Free(f, d) ==> NearestActor(f, d, SLOTS) <= NearestActor(f, c, SLOTS))
    else c == Cell(0, 0)
  }

  function CellOf(k: nat): Cell {
    Cell(k % WIDTH, k / WIDTH)
  }

  lemma CellOfCovers(c: Cell)
    requires InBounds(c)
    ensures 0 <= c.y * WIDTH + c.x < WIDTH * HEIGHT && CellOf(c.y * WIDTH + c.x) == c
  {
  }

  function Rolled(roll: (nat, nat)): Cell {
    Cell(roll.0 % WIDTH, roll.1 % HEIGHT)
  }

  /** Is there somebody on the cell other than `ignore`? */
  method IsPlayerAt(f: Field, c: Cell, ignore: int) returns (b: bool)
    requires Sane(f)
    ensures b == PlayerAt(f, c, ignore)
  {
    var i := 0;
    while i < SLOTS
      invariant 0 <= i <= SLOTS
      invariant forall j: nat :: j < i && j != ignore ==> !Stands(f, j, c)
    {
      if i != ignore && OnBoard(f, i) && f.players[i].at == c {
        assert Stands(f, i, c);
        return true;
      }
      i := i + 1;
    }
    return false;
  }

  method NearestActorDistance(f: Field, c: Cell) returns (nearest: nat)
    requires Sane(f)
    ensures nearest == NearestActor(f, c, SLOTS)
  {
    nearest := FAR;
    var i := 0;
    while i < SLOTS
      invariant 0 <= i <= SLOTS && nearest == NearestActor(f, c, i)
    {
      if OnBoard(f, i) {
        var distance := Distance(c, f.players[i].at);
        if distance < nearest {
          nearest := distance;
        }
      }
      i := i + 1;
    }
  }

  method IsComfortable(f: Field, c: Cell) returns (b: bool)
    requires Sane(f)
    ensures b == Comfortable(f, c)
  {
    var taken := IsPlayerAt(f, c, -1);
    var distance := NearestActorDistance(f, c);
    b := !IsBrick(f.bricks, c) && !taken && distance >= MIN_DISTANCE;
  }

  lemma ComfortableIsGood(f: Field, c: Cell)
    requires Sane(f) && Comfortable(f, c)
    ensures GoodSpawn(f, c) && InBounds(c)
  {
  }

  /** For every sequence of dice, the first comfortable roll wins; after 200
      failures the whole board is searched. */
  method PickSpawn(f: Field, dice: seq<(nat, nat)>) returns (c: Cell)
    requires Sane(f) && |dice| == TRIES
    ensures GoodSpawn(f, c) && InBounds(c)
    ensures forall t :: 0 <= t < TRIES && Comfortable(f, Rolled(dice[t])) ==>
      exists u :: 0 <= u <= t && c == Rolled(dice[u]) && Comfortable(f, c)
  {
    hide Comfortable, Free;
    var tries := 0;
    while tries < TRIES
      invariant 0 <= tries <= TRIES
      invariant forall t :: 0 <= t < tries ==> !Comfortable(f, Rolled(dice[t]))
    {
      c := Rolled(dice[tries]);
      var comfortable := IsComfortable(f, c);
      if comfortable {
        ComfortableIsGood(f, c);
        return;
      }
      tries := tries + 1;
    }
    c := Farthest(f);
  }

  /** Is best (or nothing, when distance is -1) the farthest legal cell among the first k? */
  ghost predicate FarthestOf(f: Field, k: nat, best: Cell, distance: int)
    requires Sane(f)
  {
    && (distance == -1 ==> best == Cell(0, 0) && forall j: nat :: j < k ==> !Free(f, CellOf(j)))
    && (distance != -1 ==> Free(f, best) && distance == NearestActor(f, best, SLOTS))
    && (forall j: nat :: j < k && Free(f, CellOf(j)) ==> NearestActor(f, CellOf(j), SLOTS) <= distance)
    && distance >= -1 && InBounds(best)
  }

  method Farthest(f: Field) returns (best: Cell)
    requires Sane(f)
    ensures GoodSpawn(f, best) && InBounds(best)
  {
    var bestDistance := -1;
    best := Cell(0, 0);
    var y := 0;
    while y < HEIGHT
      invariant 0 <= y <= HEIGHT
      invariant FarthestOf(f, y * WIDTH, best, bestDistance)
    {
      var x := 0;
      while x < WIDTH
        invariant 0 <= x <= WIDTH
        invariant FarthestOf(f, y * WIDTH + x, best, bestDistance)
      {
        best, bestDistance := Consider(f, Cell(x, y), best, bestDistance);
        x := x + 1;
      }
      y := y + 1;
    }
    SearchedEverything(f, best, bestDistance);
  }

  method Consider(f: Field, c: Cell, best0: Cell, distance0: int) returns (best: Cell, distance: int)
    requires Sane(f) && InBounds(c) && FarthestOf(f, c.y * WIDTH + c.x, best0, distance0)
    ensures FarthestOf(f, c.y * WIDTH + c.x + 1, best, distance)
  {
    hide Free, NearestActor;
    CellOfCovers(c);
    best, distance := best0, distance0;
    var free := IsFree(f, c);
    if free {
      var d := NearestActorDistance(f, c);
      if d > distance0 {
        best, distance := c, d;
      }
    }
    assert forall j: nat :: j < c.y * WIDTH + c.x + 1 ==> j < c.y * WIDTH + c.x || CellOf(j) == c;
  }

  method IsFree(f: Field, c: Cell) returns (b: bool)
    requires Sane(f)
    ensures b == Free(f, c)
  {
    var taken := IsPlayerAt(f, c, -1);
    b := !IsBrick(f.bricks, c) && !taken;
  }

  lemma SearchedEverything(f: Field, best: Cell, distance: int)
    requires Sane(f) && FarthestOf(f, HEIGHT * WIDTH, best, distance)
    ensures GoodSpawn(f, best)
  {
    hide NearestActor, PlayerAt;
    forall d | Free(f, d)
      ensures distance != -1 && NearestActor(f, d, SLOTS) <= distance
    {
      CellOfCovers(d);
      assert Free(f, CellOf(d.y * WIDTH + d.x));
    }
  }

  // --- When a legal cell exists -------------------------------------------------------

  /** Enough open cells for every slot and one more. */
  ghost predicate Spacious(bricks: set<Cell>) {
    exists open: set<Cell> :: |open| == SLOTS + 1 && AllOpen(open, bricks)
  }

  ghost predicate AllOpen(open: set<Cell>, bricks: set<Cell>) {
    forall c :: c in open ==> !IsBrick(bricks, c)
  }

  function Corners(f: Field, n: nat): set<Cell>
    requires Sane(f) && n <= SLOTS
  {
    if n == 0 then {} else Corners(f, n - 1) + {f.players[n - 1].at}
  }

  lemma {:induction false} CornersBound(f: Field, n: nat)
    requires Sane(f) && n <= SLOTS
    ensures |Corners(f, n)| <= n
    ensures forall i: nat :: i < n ==> f.players[i].at in Corners(f, n)
  {
    if n > 0 {
      CornersBound(f, n - 1);
    }
  }

  /** Four actors cannot cover five open cells: a legal cell always exists. */
  lemma SpaciousHasSpawn(f: Field)
    requires Sane(f) && Spacious(f.bricks)
    ensures exists c :: Free(f, c)
  {
    var open: set<Cell> :| |open| == SLOTS + 1 && AllOpen(open, f.bricks);
    CornersBound(f, SLOTS);
    var taken := Corners(f, SLOTS);
    if open <= taken {
      SubsetSize(open, taken);
      assert false;
    }
    var c :| c in open && c !in taken;
    assert Free(f, c);
  }

  lemma {:induction false} SubsetSize<T>(a: set<T>, b: set<T>)
    requires a <= b
    ensures |a| <= |b|
    decreases a
  {
    if a != {} {
      var x :| x in a;
      SubsetSize(a - {x}, b - {x});
    }
  }

  /** Bricks only ever disappear, so an open board stays open. */
  lemma StaysSpacious(before: set<Cell>, after: set<Cell>)
    requires Spacious(before) && after <= before
    ensures Spacious(after)
  {
    var open: set<Cell> :| |open| == SLOTS + 1 && AllOpen(open, before);
    assert AllOpen(open, after);
  }

  // --- What the choice depends on -------------------------------------------------------

  ghost predicate SameBoard(f: Field, g: Field)
    requires Sane(f) && Sane(g)
  {
    f.bricks == g.bricks
    && forall i: nat :: i < SLOTS ==> OnBoard(f, i) == OnBoard(g, i) && (OnBoard(f, i) ==> f.players[i].at == g.players[i].at)
  }

  lemma {:induction false} SameNearest(f: Field, g: Field, c: Cell, n: nat)
    requires Sane(f) && Sane(g) && n <= SLOTS && SameBoard(f, g)
    ensures NearestActor(f, c, n) == NearestActor(g, c, n)
  {
    if n > 0 {
      SameNearest(f, g, c, n - 1);
      assert OnBoard(f, n - 1) == OnBoard(g, n - 1);
    }
  }

  lemma SameFree(f: Field, g: Field, c: Cell)
    requires Sane(f) && Sane(g) && SameBoard(f, g) && Free(f, c)
    ensures Free(g, c)
  {
    forall i: nat | i < SLOTS
      ensures !Stands(g, i, c)
    {
      assert OnBoard(f, i) == OnBoard(g, i);
      assert !Stands(f, i, c);
    }
  }

  /** The chooser sees the bricks and the actors on the board, and nothing else. */
  lemma SameSpawn(f: Field, g: Field, c: Cell)
    requires Sane(f) && Sane(g) && SameBoard(f, g) && GoodSpawn(f, c)
    ensures GoodSpawn(g, c)
  {
    hide Free, NearestActor;
    forall d: Cell
      ensures Free(f, d) <==> Free(g, d)
      ensures NearestActor(f, d, SLOTS) == NearestActor(g, d, SLOTS)
    {
      if Free(f, d) {
        SameFree(f, g, d);
      }
      if Free(g, d) {
        SameFree(g, f, d);
      }
      SameNearest(f, g, d, SLOTS);
    }
  }
}
