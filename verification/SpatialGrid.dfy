/** Bytecode laid out on a grid along the Hilbert curve. */
module SpatialGrid {
  import opened Bytes
  import opened Hilbert

  // A square of side `size`, 2^order.
  datatype Mapper = Mapper(order: nat, size: nat) {
    predicate Valid() {
      order >= 1 && size == Pow2(order)
    }
  }

  // An empty cell has offset -1.
  datatype GridCell = GridCell(offset: int, opcode: Byte, isCode: bool)

  const EMPTY_CELL := GridCell(-1, 0, false)

  datatype Grid = Grid(width: nat, height: nat, cells: seq<GridCell>) {
    predicate Valid() {
      width == height && |cells| == width * height
    }

    function CellAt(x: int, y: int): GridCell
      requires Valid()
    {
      if x < 0 || x >= width || y < 0 || y >= height then EMPTY_CELL
      else
        CellIndexInside(width, Point(x, y));
        cells[CellIndex(width, Point(x, y))]
    }
  }

  // Row by row.
  function CellIndex(size: nat, p: Point): int {
    p.y * size + p.x
  }

  lemma CellIndexInside(size: nat, p: Point)
    requires Inside(p, size)
    ensures 0 <= CellIndex(size, p) < size * size
  {
    TimesAtMost(p.y, size - 1, size);
    TimesAtMost(0, p.y, size);
    assert (size - 1) * size == size * size - size;
  }

  lemma TimesAtMost(a: int, b: int, n: nat)
    requires a <= b
    ensures a * n <= b * n
  {
    assert (b - a) * n >= 0;
  }

  lemma CellIndexInjective(size: nat, p: Point, q: Point)
    requires Inside(p, size) && Inside(q, size) && CellIndex(size, p) == CellIndex(size, q)
    ensures p == q
  {
    Multiple(p.y - q.y, size, q.x - p.x);
  }

  // The least order, at least 1, whose grid holds all the bytecode.
  method NewHilbertMapper(bytecodeLen: nat) returns (m: Mapper)
    ensures m.Valid() && bytecodeLen <= Pow4(m.order)
    ensures m.order == 1 || Pow4(m.order - 1) < bytecodeLen
  {
    var order := 1;
    var cells, size := 4, 2;
    while cells < bytecodeLen
      invariant order >= 1 && cells == Pow4(order) && size == Pow2(order)
      invariant order == 1 || Pow4(order - 1) < bytecodeLen
      decreases bytecodeLen - cells
    {
      order, cells, size := order + 1, 4 * cells, 2 * size;
    }
    m := Mapper(order, size);
  }

  // A larger grid than any other that holds the bytecode is never chosen.
  lemma LeastOrder(len: nat, m: Mapper, k: nat)
    requires m.Valid() && (m.order == 1 || Pow4(m.order - 1) < len)
    requires k >= 1 && len <= Pow4(k)
    ensures m.order <= k
  {
    if m.order > k {
      Pow4Ordered(k, m.order - 1);
    }
  }

  lemma {:induction false} Pow4Ordered(j: nat, k: nat)
    requires j <= k
    ensures Pow4(j) <= Pow4(k)
    decreases k
  {
    if j < k {
      Pow4Ordered(j, k - 1);
    }
  }

  method MapIndex(m: Mapper, index: nat) returns (p: Point)
    requires m.Valid()
    ensures p == At(m.order, index % Pow4(m.order)) && Inside(p, m.size)
    ensures index < Pow4(m.order) ==> p == At(m.order, index)
  {
    hide At, Distance, Pow2, Pow4;
    var x, y := DistanceToPoint(m.size, index, m.order);
    p := Point(x, y);
    DistanceOfAt(m.order, index % Pow4(m.order));
    if index < Pow4(m.order) {
      SmallMod(index, Pow4(m.order));
    }
  }

  method Unmap(m: Mapper, p: Point) returns (d: nat)
    requires m.Valid()
    ensures Inside(p, m.size) ==> d == Distance(m.order, p)
  {
    d := PointToDistance(m.size, p.x, p.y, m.order);
  }

  method MapAll(m: Mapper, length: nat) returns (points: seq<Point>)
    requires m.Valid() && length <= Pow4(m.order)
    ensures |points| == length && forall i | 0 <= i < length :: points[i] == At(m.order, i)
  {
    points := [];
    var i := 0;
    while i < length
      invariant i == |points| <= length && forall j | 0 <= j < i :: points[j] == At(m.order, j)
    {
      var p := MapIndex(m, i);
      points := points + [p];
      i := i + 1;
    }
  }

  // The whole curve, all points different and each next to the one before.
  lemma CurveFills(k: nat, i: nat, j: nat)
    requires i < j < Pow4(k)
    ensures At(k, i) != At(k, j) && (j == i + 1 ==> Adjacent(At(k, i), At(k, j)))
  {
    DistanceOfAt(k, i);
    DistanceOfAt(k, j);
    if j == i + 1 {
      Locality(k, i);
    }
  }

  // What the grid shows of code: offset i, and nothing else, where the curve's i-th point is.
  ghost predicate Shows(g: Grid, order: nat, code: seq<Byte>) {
    && g.width == g.height == Pow2(order) && |g.cells| == g.width * g.height
    && |code| <= Pow4(order)
    && forall p | Inside(p, g.width) ::
         var d := Distance(order, p);
         g.CellAt(p.x, p.y) == if d < |code| then GridCell(d, code[d], true) else EMPTY_CELL
  }

  // The cells, once the first n offsets are placed.
  ghost predicate Filled(cells: seq<GridCell>, order: nat, code: seq<Byte>, n: nat) {
    && |cells| == Pow2(order) * Pow2(order) && n <= |code|
    && forall p | Inside(p, Pow2(order)) :: FilledAt(cells, order, code, n, p)
  }

  ghost predicate FilledAt(cells: seq<GridCell>, order: nat, code: seq<Byte>, n: nat, p: Point)
    requires |cells| == Pow2(order) * Pow2(order) && n <= |code| && Inside(p, Pow2(order))
  {
    var d := Distance(order, p);
    CellIndexInside(Pow2(order), p);
    cells[CellIndex(Pow2(order), p)] == if d < n then GridCell(d, code[d], true) else EMPTY_CELL
  }

  lemma FilledNone(cells: seq<GridCell>, order: nat, code: seq<Byte>)
    requires |cells| == Pow2(order) * Pow2(order) && forall j | 0 <= j < |cells| :: cells[j] == EMPTY_CELL
    ensures Filled(cells, order, code, 0)
  {
    hide Distance, Pow2, CellIndex;
    forall p | Inside(p, Pow2(order)) ensures FilledAt(cells, order, code, 0, p) {
      CellIndexInside(Pow2(order), p);
    }
  }

  lemma FilledNext(cells: seq<GridCell>, order: nat, code: seq<Byte>, n: nat)
    requires Filled(cells, order, code, n) && n < |code| && n < Pow4(order)
    ensures var p := At(order, n);
            && Inside(p, Pow2(order)) && 0 <= CellIndex(Pow2(order), p) < |cells|
            && Filled(cells[CellIndex(Pow2(order), p) := GridCell(n, code[n], true)], order, code, n + 1)
  {
    hide At, Distance, Pow2, Pow4, CellIndex;
    var p := At(order, n);
    DistanceOfAt(order, n);
    CellIndexInside(Pow2(order), p);
    var cells' := cells[CellIndex(Pow2(order), p) := GridCell(n, code[n], true)];
    forall q | Inside(q, Pow2(order)) ensures FilledAt(cells', order, code, n + 1, q) {
      CellIndexInside(Pow2(order), q);
      assert FilledAt(cells, order, code, n, q);
      if q != p {
        AtOfDistance(order, q);
        if CellIndex(Pow2(order), p) == CellIndex(Pow2(order), q) {
          CellIndexInjective(Pow2(order), p, q);
        }
      }
    }
  }

  lemma FilledShows(cells: seq<GridCell>, order: nat, code: seq<Byte>)
    requires Filled(cells, order, code, |code|) && |code| <= Pow4(order)
    ensures Shows(Grid(Pow2(order), Pow2(order), cells), order, code)
  {
    hide Distance, Pow2, Pow4, CellIndex;
    var g := Grid(Pow2(order), Pow2(order), cells);
    forall p | Inside(p, g.width)
      ensures g.CellAt(p.x, p.y) ==
                if Distance(order, p) < |code| then GridCell(Distance(order, p), code[Distance(order, p)], true)
                else EMPTY_CELL
    {
      assert FilledAt(cells, order, code, |code|, p);
    }
  }

  // Every offset is in exactly one cell, and every other cell is empty.
  lemma OneCellEach(g: Grid, order: nat, code: seq<Byte>, i: nat, p: Point)
    requires Shows(g, order, code) && i < |code| && Inside(p, g.width)
    ensures g.CellAt(p.x, p.y).offset == i <==> p == At(order, i)
    ensures g.CellAt(p.x, p.y) != EMPTY_CELL <==> exists j :: 0 <= j < |code| && At(order, j) == p
  {
    hide At, Distance, Pow2, Pow4, CellIndex;
    AtOfDistance(order, p);
    DistanceOfAt(order, i);
    if j :| 0 <= j < |code| && At(order, j) == p {
      DistanceOfAt(order, j);
    }
  }

  method NewSpatialGrid(bytecode: seq<Byte>, codeOffset: nat) returns (g: Grid, m: Mapper)
    ensures codeOffset >= |bytecode| ==> g == Grid(1, 1, [EMPTY_CELL])
    ensures codeOffset < |bytecode| ==>
      && m.Valid() && Shows(g, m.order, bytecode[codeOffset..])
      && (m.order == 1 || Pow4(m.order - 1) < |bytecode| - codeOffset)
  {
    hide At, Distance, Pow2, Pow4, CellIndex, Shows, Filled;
    var codeLen := |bytecode| - codeOffset;
    if codeLen <= 0 {
      return Grid(1, 1, [EMPTY_CELL]), Mapper(0, 1);
    }
    m := NewHilbertMapper(codeLen);
    var size := m.size;
    var cells := new GridCell[size * size];
    var n := 0;
    while n < cells.Length
      invariant n <= cells.Length && forall j | 0 <= j < n :: cells[j] == EMPTY_CELL
    {
      cells[n] := EMPTY_CELL;
      n := n + 1;
    }
    ghost var code := bytecode[codeOffset..];
    FilledNone(cells[..], m.order, code);
    var i := 0;
    while i < codeLen
      invariant i <= codeLen && Filled(cells[..], m.order, code, i)
    {
      var p := MapIndex(m, i);
      FilledNext(cells[..], m.order, code, i);
      ghost var before := cells[..];
      var index := p.y * size + p.x;
      assert index == CellIndex(size, p) by {
        CellIndexIs(size, p);
      }
      cells[index] := GridCell(i, bytecode[codeOffset + i], true);
      assert cells[..] == before[index := GridCell(i, code[i], true)];
      i := i + 1;
    }
    FilledShows(cells[..], m.order, code);
    g := Grid(size, size, cells[..]);
  }

  lemma CellIndexIs(size: nat, p: Point)
    ensures CellIndex(size, p) == p.y * size + p.x
  {
  }
}
