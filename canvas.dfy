/** The canvas component's state engine: the grid it owns, the `loading` flag,
    and the three handlers that change them (snapshot, delta, local press). */
module CanvasEngine {
  import opened Grid
  import opened Channel

  /** Notice shown when a press arrives before a nickname is chosen. */
  const NEED_NICKNAME: string := "Ingresa tu nickname antes de pintar"

  /** The decimal digit for `d`. */
  function DigitChar(d: nat): (c: char)
    requires d < 10
    ensures '0' <= c <= '9' && c as int - '0' as int == d
  {
    "0123456789"[d]
  }

  /** The decimal numeral of `n`, as a template literal renders a non-negative integer. */
  function NatToString(n: nat): (s: string)
    ensures |s| >= 1
    ensures forall i :: 0 <= i < |s| ==> '0' <= s[i] <= '9'
    ensures n == 0 <==> s == "0"
    ensures |s| > 1 ==> s[0] != '0'
    decreases n
  {
    if n < 10 then [DigitChar(n)] else NatToString(n / 10) + [DigitChar(n % 10)]
  }

  /** The value of a string of decimal digits. */
  function ParseDigits(s: string): nat
    requires forall i :: 0 <= i < |s| ==> '0' <= s[i] <= '9'
  {
    if s == [] then 0 else ParseDigits(s[..|s| - 1]) * 10 + (s[|s| - 1] as int - '0' as int)
  }

  /** The numeral in a notice names the number it was made from. */
  lemma {:induction false} ParseNatToString(n: nat)
    ensures ParseDigits(NatToString(n)) == n
  {
    if n >= 10 {
      var s := NatToString(n);
      ParseNatToString(n / 10);
      assert s[..|s| - 1] == NatToString(n / 10);
    }
  }

  /** Indexing into a concatenation, at and before the join. */
  lemma ConcatAt(a: string, r: string, k: int)
    ensures 0 <= k < |a| ==> (a + r)[k] == a[k]
    ensures k == |a| && r != [] ==> (a + r)[k] == r[0]
  {
  }

  /** A run of digits followed by a non-digit splits in one way only. */
  lemma {:induction false} NumeralSplit(a: string, r1: string, b: string, r2: string)
    requires forall i :: 0 <= i < |a| ==> '0' <= a[i] <= '9'
    requires forall i :: 0 <= i < |b| ==> '0' <= b[i] <= '9'
    requires r1 != [] && !('0' <= r1[0] <= '9')
    requires r2 != [] && !('0' <= r2[0] <= '9')
    requires a + r1 == b + r2
    ensures a == b && r1 == r2
  {
    var m := a + r1;
    ConcatAt(a, r1, |a|);
    ConcatAt(b, r2, |a|);
    ConcatAt(a, r1, |b|);
    ConcatAt(b, r2, |b|);
    assert a == m[..|a|] == b;
    assert r1 == m[|a|..] == r2;
  }

  /** Notice shown after a successful local edit. */
  function PaintedMessage(x: nat, y: nat, color: string): string
  {
    "Píxel (" + (NatToString(x) + (", " + (NatToString(y) + (") pintado con " + color))))
  }

  /** The painted notice opens with `Píxel (` and closes with the colour. */
  lemma PaintedMessageShape(x: nat, y: nat, color: string)
    ensures var r := PaintedMessage(x, y, color);
      |r| >= 7 + |color| && r[..7] == "Píxel (" && r[|r| - |color|..] == color
  {
  }

  /** Equal strings with a common prefix agree on the rest. */
  lemma PrefixCancel(p: string, u: string, v: string)
    requires p + u == p + v
    ensures u == v
  {
    assert u == (p + u)[|p|..];
    assert v == (p + v)[|p|..];
  }

  /** The notice names the cell and the colour: different presses give
      different notices. */
  lemma {:induction false} PaintedMessageNamesPress(x1: nat, y1: nat, c1: string, x2: nat, y2: nat, c2: string)
    requires PaintedMessage(x1, y1, c1) == PaintedMessage(x2, y2, c2)
    ensures x1 == x2 && y1 == y2 && c1 == c2
  {
    var n1, n2 := NatToString(x1), NatToString(x2);
    var m1, m2 := NatToString(y1), NatToString(y2);
    var t := ") pintado con ";
    PrefixCancel("Píxel (", n1 + (", " + (m1 + (t + c1))), n2 + (", " + (m2 + (t + c2))));
    NumeralSplit(n1, ", " + (m1 + (t + c1)), n2, ", " + (m2 + (t + c2)));
    PrefixCancel(", ", m1 + (t + c1), m2 + (t + c2));
    NumeralSplit(m1, t + c1, m2, t + c2);
    PrefixCancel(t, c1, c2);
    ParseNatToString(x1);
    ParseNatToString(x2);
    ParseNatToString(y1);
    ParseNatToString(y2);
  }

  /** Allocates a fresh grid of fresh rows holding the cells of `g`. */
  method Allocate(g: Matrix) returns (a: array<array<string>>)
    requires IsGrid(g)
    ensures fresh(a) && a.Length == SIZE
    ensures forall x :: 0 <= x < SIZE ==> fresh(a[x]) && a[x][..] == g[x]
    ensures forall i, j :: 0 <= i < j < SIZE ==> a[i] != a[j]
  {
    var filler := new string[0];
    a := new array<string>[SIZE](_ => filler);
    var x := 0;
    while x < SIZE
      invariant 0 <= x <= SIZE
      invariant forall i :: 0 <= i < x ==> fresh(a[i]) && a[i][..] == g[i]
      invariant forall i, j :: 0 <= i < j < x ==> a[i] != a[j]
    {
      var row := new string[SIZE](j requires 0 <= j < SIZE => g[x][j]);
      a[x] := row;
      x := x + 1;
    }
  }

  class Canvas {
    /** `canvas`: the outer array of row references. */
    var grid: array<array<string>>
    /** `loading`: true until the first snapshot arrives. */
    var loading: bool
    const socket: Socket

    /** The shape invariant on the arrays themselves. */
    ghost predicate Valid()
      reads this, grid
    {
      grid.Length == SIZE && forall x :: 0 <= x < SIZE ==> grid[x].Length == SIZE
    }

    /** The colours the canvas currently shows. */
    function Cells(): (g: Matrix)
      reads this, grid, grid[..]
      requires Valid()
      ensures IsGrid(g)
      ensures forall x :: 0 <= x < SIZE ==> g[x] == grid[x][..]
    {
      seq(grid.Length, x requires 0 <= x < grid.Length reads this, grid, grid[..] => grid[x][..])
    }

    /** Mounting: a blank 100 x 100 grid, a distinct fresh array per row, still loading. */
    constructor (socket: Socket)
      ensures this.socket == socket
      ensures Valid() && Cells() == BlankGrid() && loading
      ensures fresh(grid) && forall x :: 0 <= x < SIZE ==> fresh(grid[x])
      ensures forall i, j :: 0 <= i < j < SIZE ==> grid[i] != grid[j]
    {
      this.socket := socket;
      var a := Allocate(BlankGrid());
      grid := a;
      loading := true;
      new;
      assert Cells() == BlankGrid();
    }

    /** The mount effect asks the authority for the full grid. */
    method RequestSnapshot()
      modifies socket
      ensures socket.sent == old(socket.sent) + [RequestCanvasData]
    {
      socket.Emit(RequestCanvasData);
    }

    /** `canvasData`: the grid is replaced wholesale by the validated payload,
        whatever was shown before, in distinct fresh rows, and loading ends.
        Nothing is emitted. On a
        `null` or `undefined` event the handler throws before any update, so
        nothing changes. */
    method OnCanvasData(event: Snapshot)
      requires Valid()
      modifies this
      ensures Valid()
      ensures event.NoData? ==> grid == old(grid) && Cells() == old(Cells()) && loading == old(loading)
      ensures event.Rows? ==>
        Cells() == Validate(event.data) && !loading &&
        fresh(grid) && (forall x :: 0 <= x < SIZE ==> fresh(grid[x])) &&
        (forall i, j :: 0 <= i < j < SIZE ==> grid[i] != grid[j])
    {
      if event.NoData? {
        return;
      }
      var a := Allocate(Validate(event.data));
      grid := a;
      loading := false;
      assert Cells() == Validate(event.data);
    }

    /** `pixelChange` received: cell (x, y) becomes `color`. The outer array and row
        x are fresh copies; every other row is the same array as before. */
    method OnPixelChange(x: int, y: int, color: string)
      requires Valid() && InRange(x, y)
      modifies this
      ensures Valid() && Cells() == SetCell(old(Cells()), x, y, color)
      ensures fresh(grid) && fresh(grid[x])
      ensures forall i :: 0 <= i < SIZE && i != x ==> grid[i] == old(grid[i])
      ensures loading == old(loading)
    {
      var prev := grid;
      var newCanvas := new array<string>[prev.Length](i requires 0 <= i < prev.Length reads prev => prev[i]);
      var prevRow := prev[x];
      var row := new string[prevRow.Length](j requires 0 <= j < prevRow.Length reads prevRow => prevRow[j]);
      row[y] := color;
      newCanvas[x] := row;
      grid := newCanvas;
      assert row[..] == old(Cells())[x][y := color];
      assert forall i :: 0 <= i < SIZE && i != x ==> grid[i][..] == old(Cells())[i];
      assert Cells() == SetCell(old(Cells()), x, y, color);
    }

    /** A press on cell (x, y). Without a nickname only the notice is returned:
        the grid stays the same arrays and nothing is emitted. With one, the
        selected colour is written optimistically exactly as a delta would write
        it, one `pixelChange` carrying {x, y, color} is emitted, and the notice
        names the cell and the colour. `loading` is not consulted. */
    method HandlePixelPress(x: int, y: int, nickname: string, selectedColor: string) returns (info: string)
      requires Valid() && InRange(x, y)
      modifies this, socket
      ensures Valid() && loading == old(loading)
      ensures nickname == "" ==>
        grid == old(grid) && Cells() == old(Cells()) &&
        socket.sent == old(socket.sent) && info == NEED_NICKNAME
      ensures nickname != "" ==>
        Cells() == SetCell(old(Cells()), x, y, selectedColor) &&
        fresh(grid) && fresh(grid[x]) &&
        (forall i :: 0 <= i < SIZE && i != x ==> grid[i] == old(grid[i])) &&
        socket.sent == old(socket.sent) + [PixelChange(x, y, selectedColor)] &&
        info == PaintedMessage(x, y, selectedColor)
    {
      if nickname == "" {
        info := NEED_NICKNAME;
        return;
      }
      OnPixelChange(x, y, selectedColor);
      socket.Emit(PixelChange(x, y, selectedColor));
      info := PaintedMessage(x, y, selectedColor);
    }
  }
}
