/** The colour matrix of the shared canvas, as a value: its shape, the tolerant
    reading of a snapshot payload, and the single-cell write that both the
    delta handler and the local edit perform. */
module Grid {

  /** The canvas is always SIZE rows of SIZE cells. */
  const SIZE: nat := 100

  /** The colour of a cell nobody has painted, and of every unusable snapshot entry. */
  const BLANK: string := "#FFFFFF"

  /** Row-major colour matrix: `g[x][y]` is the cell in row x, column y. */
  type Matrix = seq<seq<string>>

  /** A snapshot payload as delivered by the channel. A key that is absent stands
      for an `undefined` or `null` row or cell; the empty string is the one falsy
      string. */
  type Payload = map<int, map<int, string>>

  /** A `canvasData` event: `null` or `undefined`, on which indexing throws, or
      an indexable payload. */
  datatype Snapshot = NoData | Rows(data: Payload)

  predicate InRange(x: int, y: int) {
    0 <= x < SIZE && 0 <= y < SIZE
  }

  /** The shape invariant: exactly SIZE rows of exactly SIZE cells. */
  predicate IsGrid(g: Matrix) {
    |g| == SIZE && forall x :: 0 <= x < |g| ==> |g[x]| == SIZE
  }

  /** `firebaseData[x]?.[y] || '#FFFFFF'`: the entry if present and truthy, else blank. */
  function EntryOr(data: Payload, x: int, y: int): (c: string)
    ensures c != ""
    ensures c == BLANK || (x in data && y in data[x] && c == data[x][y])
  {
    if x in data && y in data[x] && data[x][y] != "" then data[x][y] else BLANK
  }

  /** The grid every session starts from. */
  function BlankGrid(): (g: Matrix)
    ensures IsGrid(g)
    ensures forall x, y :: InRange(x, y) ==> g[x][y] == BLANK
  {
    seq(SIZE, _ => seq(SIZE, _ => BLANK))
  }

  /** Snapshot validation: whatever the payload's shape, the result is a full grid
      and each cell is the payload's entry when that is present and truthy. */
  function Validate(data: Payload): (g: Matrix)
    ensures IsGrid(g)
    ensures forall x, y :: InRange(x, y) ==>
      (g[x][y] == data[x][y] <== x in data && y in data[x] && data[x][y] != "")
    ensures forall x, y :: InRange(x, y) ==>
      (g[x][y] == BLANK <== !(x in data && y in data[x]) || data[x][y] == "")
  {
    seq(SIZE, x => seq(SIZE, y => EntryOr(data, x, y)))
  }

  /** Copy-then-assign point write: cell (x, y) becomes `c`, every other cell keeps
      its colour and the shape is preserved. */
  function SetCell(g: Matrix, x: int, y: int, c: string): (r: Matrix)
    requires IsGrid(g) && InRange(x, y)
    ensures IsGrid(r)
    ensures r[x][y] == c
    ensures forall i, j :: InRange(i, j) && (i != x || j != y) ==> r[i][j] == g[i][j]
    ensures forall i :: 0 <= i < SIZE && i != x ==> r[i] == g[i]
  {
    g[x := g[x][y := c]]
  }

  /** Two grids of the right shape that agree on every cell are equal. */
  lemma {:induction false} GridExt(g: Matrix, h: Matrix)
    requires IsGrid(g) && IsGrid(h)
    requires forall x, y :: InRange(x, y) ==> g[x][y] == h[x][y]
    ensures g == h
  {
    forall x | 0 <= x < SIZE
      ensures g[x] == h[x]
    {
      assert forall y :: 0 <= y < SIZE ==> g[x][y] == h[x][y];
    }
  }

  /** Delivering the same delta twice leaves the grid as delivering it once. */
  lemma SetCellIdempotent(g: Matrix, x: int, y: int, c: string)
    requires IsGrid(g) && InRange(x, y)
    ensures SetCell(SetCell(g, x, y, c), x, y, c) == SetCell(g, x, y, c)
  {
    GridExt(SetCell(SetCell(g, x, y, c), x, y, c), SetCell(g, x, y, c));
  }

  /** Last delta wins: of two writes to one cell, only the later colour survives. */
  lemma SetCellLastWins(g: Matrix, x: int, y: int, a: string, b: string)
    requires IsGrid(g) && InRange(x, y)
    ensures SetCell(SetCell(g, x, y, a), x, y, b) == SetCell(g, x, y, b)
  {
    GridExt(SetCell(SetCell(g, x, y, a), x, y, b), SetCell(g, x, y, b));
  }

  /** Writes to different cells commute, so concurrent edits of distinct cells
      converge whatever order the authority relays them in. */
  lemma SetCellCommutes(g: Matrix, x1: int, y1: int, a: string, x2: int, y2: int, b: string)
    requires IsGrid(g) && InRange(x1, y1) && InRange(x2, y2)
    requires x1 != x2 || y1 != y2
    ensures SetCell(SetCell(g, x1, y1, a), x2, y2, b) == SetCell(SetCell(g, x2, y2, b), x1, y1, a)
  {
    GridExt(SetCell(SetCell(g, x1, y1, a), x2, y2, b), SetCell(SetCell(g, x2, y2, b), x1, y1, a));
  }

  /** Echo of an optimistic write: re-writing the colour a cell already holds is a no-op. */
  lemma SetCellEcho(g: Matrix, x: int, y: int, c: string)
    requires IsGrid(g) && InRange(x, y) && g[x][y] == c
    ensures SetCell(g, x, y, c) == g
  {
    GridExt(SetCell(g, x, y, c), g);
  }

  /** A snapshot's result depends on the payload alone: two payloads that agree on
      what every cell reads as give the same grid. */
  lemma {:induction false} ValidateOnlyReadsEntries(d1: Payload, d2: Payload)
    requires forall x, y :: InRange(x, y) ==> EntryOr(d1, x, y) == EntryOr(d2, x, y)
    ensures Validate(d1) == Validate(d2)
  {
    GridExt(Validate(d1), Validate(d2));
  }

  /** An empty payload reads as the blank grid. */
  lemma EmptySnapshotIsBlank()
    ensures Validate(map[]) == BlankGrid()
  {
    GridExt(Validate(map[]), BlankGrid());
  }
}
