/** The maze: a grid of cells, some of them bricks, with an indestructible border. */
module Grid {
  const WIDTH := 20
  const HEIGHT := 19

  datatype Cell = Cell(x: int, y: int)

  datatype Option<T> = None | Some(value: T)

  predicate InBounds(c: Cell) {
    0 <= c.x < WIDTH && 0 <= c.y < HEIGHT
  }

  predicate OuterWall(c: Cell) {
    c.x == 0 || c.x == WIDTH - 1 || c.y == 0 || c.y == HEIGHT - 1
  }

  /** Everything outside the grid counts as brick. */
  predicate IsBrick(bricks: set<Cell>, c: Cell) {
    !InBounds(c) || c in bricks
  }

  /** The part of a set of cells that a brick map can hold. */
  function Inside(cells: set<Cell>): set<Cell> {
    set c | c in cells && InBounds(c)
  }

  predicate InGrid(cells: set<Cell>) {
    forall c :: c in cells ==> InBounds(c)
  }

  function Abs(a: int): nat {
    if a < 0 then -a else a
  }

  function Distance(a: Cell, b: Cell): nat {
    Abs(a.x - b.x) + Abs(a.y - b.y)
  }

  function Beside(c: Cell, dx: int, dy: int): Cell {
    Cell(c.x + dx, c.y + dy)
  }
}
