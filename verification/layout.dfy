/**
 * The grid node's rows × cols editor and the integer clamps of the drag
 * handlers in src/App.jsx: the three column resizers, collection resize
 * and move, and keeping a dragged node inside its collection.
 */
module Layout {
  import opened Reminders

  // ---------------------------------------------------------------------
  // Grid resize

  datatype Cell = Cell(id: string, description: string)

  /** `Math.max(1, Number(value) || 1)`; None stands for a value that is NaN. */
  function DimensionFromInput(v: Option<int>): (n: nat)
    ensures n >= 1
    ensures v.Some? && v.value >= 1 ==> n == v.value
    ensures v.None? || v.value < 1 ==> n == 1
  {
    if v.None? || v.value == 0 then 1 else if v.value < 1 then 1 else v.value
  }

  /** `d.rows || 1` for a stored dimension, 0 standing for one never set. */
  function Effective(n: nat): (e: nat)
    ensures e >= 1 && (n >= 1 ==> e == n) && (n == 0 ==> e == 1)
  {
    if n == 0 then 1 else n
  }

  /**
   * Pad the cell list with fresh empty cells up to `desired`, then cut it
   * to `desired`. The k-th pushed cell gets the id `newId(k)`.
   */
  method Fit(items: seq<Cell>, desired: nat, newId: nat -> string) returns (out: seq<Cell>)
    ensures |out| == desired
    ensures forall k :: 0 <= k < |out| && k < |items| ==> out[k] == items[k]
    ensures forall k :: |items| <= k < |out| ==> out[k] == Cell(newId(k - |items|), "")
  {
    out := items;
    while |out| < desired
      invariant |items| <= |out|
      invariant |out| <= |items| || |out| <= desired
      invariant out[..|items|] == items
      invariant forall k :: |items| <= k < |out| ==> out[k] == Cell(newId(k - |items|), "")
      decreases desired - |out|
    {
      out := out + [Cell(newId(|out| - |items|), "")];
    }
    if |out| > desired {
      out := out[..desired];
    }
  }

  /** The grid fields of the node editor's draft. */
  class GridDraft {
    var rows: nat
    var cols: nat
    var items: seq<Cell>

    /** The cell list matches the grid the editor shows. */
    predicate Consistent()
      reads this
    {
      |items| == Effective(rows) * Effective(cols)
    }

    constructor (rows: nat, cols: nat, items: seq<Cell>)
      ensures this.rows == rows && this.cols == cols && this.items == items
    {
      this.rows, this.cols, this.items := rows, cols, items;
    }

    /** The Rows input: store the new row count and refit the cells to rows × cols. */
    method SetRows(input: Option<int>, newId: nat -> string)
      modifies this
      ensures rows == DimensionFromInput(input) && cols == old(cols)
      ensures rows >= 1 && Consistent()
      ensures |items| == rows * Effective(cols)
      ensures forall k :: 0 <= k < |items| && k < |old(items)| ==> items[k] == old(items)[k]
      ensures forall k :: |old(items)| <= k < |items| ==> items[k] == Cell(newId(k - |old(items)|), "")
    {
      var r := DimensionFromInput(input);
      var desired := r * Effective(cols);
      items := Fit(items, desired, newId);
      rows := r;
    }

    /** The Cols input, symmetrically. */
    method SetCols(input: Option<int>, newId: nat -> string)
      modifies this
      ensures cols == DimensionFromInput(input) && rows == old(rows)
      ensures cols >= 1 && Consistent()
      ensures |items| == Effective(rows) * cols
      ensures forall k :: 0 <= k < |items| && k < |old(items)| ==> items[k] == old(items)[k]
      ensures forall k :: |old(items)| <= k < |items| ==> items[k] == Cell(newId(k - |old(items)|), "")
    {
      var c := DimensionFromInput(input);
      var desired := Effective(rows) * c;
      items := Fit(items, desired, newId);
      cols := c;
    }
  }

  // ---------------------------------------------------------------------
  // Drag clamps

  function Max(a: int, b: int): int { if a >= b then a else b }
  function Min(a: int, b: int): int { if a <= b then a else b }

  datatype Resizer = LeftMid | MidMain | MainRight

  datatype Columns = Columns(left: int, mid: int, right: int)

  /**
   * A column resizer dragged by `dx` from the widths at the start of the
   * drag: the left panel is at least 240 wide, the middle and right ones
   * 220; the right panel grows when dragged to the left; only the dragged
   * panel changes.
   */
  function ResizeColumns(which: Resizer, start: Columns, dx: int): (c: Columns)
    ensures which == LeftMid ==> c.left >= 240 && c.mid == start.mid && c.right == start.right
    ensures which == MidMain ==> c.mid >= 220 && c.left == start.left && c.right == start.right
    ensures which == MainRight ==> c.right >= 220 && c.left == start.left && c.mid == start.mid
    ensures which == LeftMid && start.left + dx >= 240 ==> c.left == start.left + dx
    ensures which == MidMain && start.mid + dx >= 220 ==> c.mid == start.mid + dx
    ensures which == MainRight && start.right - dx >= 220 ==> c.right == start.right - dx
    ensures which == LeftMid && start.left + dx < 240 ==> c.left == 240
    ensures which == MidMain && start.mid + dx < 220 ==> c.mid == 220
    ensures which == MainRight && start.right - dx < 220 ==> c.right == 220
  {
    match which
    case LeftMid => start.(left := Max(240, start.left + dx))
    case MidMain => start.(mid := Max(220, start.mid + dx))
    case MainRight => start.(right := Max(220, start.right - dx))
  }

  datatype Frame = Frame(x: int, y: int, w: int, h: int)

  /** The corner resizer: at least 200 × 140, otherwise the start size plus the drag. */
  function ResizeCollection(f: Frame, startW: int, startH: int, dx: int, dy: int): (r: Frame)
    ensures r.w >= 200 && r.h >= 140 && r.x == f.x && r.y == f.y
    ensures startW + dx >= 200 ==> r.w == startW + dx
    ensures startH + dy >= 140 ==> r.h == startH + dy
    ensures startW + dx < 200 ==> r.w == 200
    ensures startH + dy < 140 ==> r.h == 140
  {
    f.(w := Max(200, startW + dx), h := Max(140, startH + dy))
  }

  /** Moving a collection never takes it above or left of the board origin. */
  function MoveCollection(f: Frame, px: int, py: int, grabX: int, grabY: int): (r: Frame)
    ensures r.x >= 0 && r.y >= 0 && r.w == f.w && r.h == f.h
    ensures px - grabX >= 0 ==> r.x == px - grabX
    ensures py - grabY >= 0 ==> r.y == py - grabY
    ensures px - grabX < 0 ==> r.x == 0
    ensures py - grabY < 0 ==> r.y == 0
  {
    f.(x := Max(0, px - grabX), y := Max(0, py - grabY))
  }

  /** `Math.min(Math.max(v, lo), Math.max(lo, hi))`. */
  function Clamp(v: int, lo: int, hi: int): (r: int)
    ensures lo <= r <= Max(lo, hi)
    ensures lo <= v <= hi ==> r == v
    ensures v < lo ==> r == lo
    ensures lo <= hi < v ==> r == hi
  {
    Min(Max(v, lo), Max(lo, hi))
  }

  /** A measured size, or the default when it is missing or 0. */
  function SizeOr(measured: Option<int>, fallback: int): int
  {
    if measured.None? || measured.value == 0 then fallback else measured.value
  }

  const Pad := 8
  const HeaderHeight := 44

  /**
   * Where a dragged node lands: unchanged outside a collection; inside one,
   * kept 8 from its sides and below its 44-high header, and wholly inside it
   * when it fits (a node of unmeasured size counts as 220 × 120).
   */
  function PlaceNode(x: int, y: int, col: Option<Frame>, width: Option<int>, height: Option<int>): (p: (int, int))
    ensures col.None? ==> p == (x, y)
    ensures col.Some? ==> p.0 >= col.value.x + Pad && p.1 >= col.value.y + HeaderHeight + Pad
    ensures col.Some? && col.value.w >= SizeOr(width, 220) + 2 * Pad ==>
      p.0 + SizeOr(width, 220) <= col.value.x + col.value.w - Pad
    ensures col.Some? && col.value.h >= SizeOr(height, 120) + HeaderHeight + 2 * Pad ==>
      p.1 + SizeOr(height, 120) <= col.value.y + col.value.h - Pad
    ensures (&& col.Some?
             && col.value.x + Pad <= x <= col.value.x + col.value.w - SizeOr(width, 220) - Pad
             && col.value.y + HeaderHeight + Pad <= y <= col.value.y + col.value.h - SizeOr(height, 120) - Pad)
            ==> p == (x, y)
    ensures col.Some? ==>
      var minX, maxX := col.value.x + Pad, col.value.x + col.value.w - SizeOr(width, 220) - Pad;
      && (x < minX ==> p.0 == minX)
      && (minX <= x <= maxX ==> p.0 == x)
      && (minX <= maxX < x ==> p.0 == maxX)
      && (maxX < minX <= x ==> p.0 == minX)
    ensures col.Some? ==>
      var minY, maxY := col.value.y + HeaderHeight + Pad, col.value.y + col.value.h - SizeOr(height, 120) - Pad;
      && (y < minY ==> p.1 == minY)
      && (minY <= y <= maxY ==> p.1 == y)
      && (minY <= maxY < y ==> p.1 == maxY)
      && (maxY < minY <= y ==> p.1 == minY)
  {
    if col.None? then (x, y)
    else
      var c := col.value;
      var w, h := SizeOr(width, 220), SizeOr(height, 120);
      var minX, maxX := c.x + Pad, c.x + c.w - w - Pad;
      var minY, maxY := c.y + HeaderHeight + Pad, c.y + c.h - h - Pad;
      (Clamp(x, minX, maxX), Clamp(y, minY, maxY))
  }

  /** Placing an already placed node again leaves it where it is. */
  lemma PlaceNodeIdempotent(x: int, y: int, col: Option<Frame>, width: Option<int>, height: Option<int>)
    ensures var p := PlaceNode(x, y, col, width, height);
      PlaceNode(p.0, p.1, col, width, height) == p
  {
    if col.Some? {
      var c := col.value;
      var w, h := SizeOr(width, 220), SizeOr(height, 120);
      ClampIdempotent(x, c.x + Pad, c.x + c.w - w - Pad);
      ClampIdempotent(y, c.y + HeaderHeight + Pad, c.y + c.h - h - Pad);
    }
  }

  lemma ClampIdempotent(v: int, lo: int, hi: int)
    ensures Clamp(Clamp(v, lo, hi), lo, hi) == Clamp(v, lo, hi)
  {
  }
}
