/*
 * The cell markup of the generated map page: one `<div>` per grid coordinate in
 * row-major order, each row preceded by a numbered comment, assigned cells
 * rendered from their record and unassigned ones as empty cells.
 */
module PageGenerator {
  import opened JsStrings
  import opened GridModel

  const CellIndent: string := "            "
  const DivOpen: string := "<div class=\""
  const DataStallOpen: string := " data-stall=\""
  const DivClose: string := "</div>\n"
  const EmptyCellMarkup: string := "            <div class=\"cell empty\"></div>\n"
  const RowCommentOpen: string := "\n            <!-- Row "
  const RowCommentClose: string := " -->\n"

  /** The class list: `cell`, the type name, and `stall` for the stall types. */
  function CellClasses(c: Cell): string {
    "cell " + TypeName(c.kind) + (if IsStallType(c.kind) then " stall" else "")
  }

  /** The attributes after the class: a stall carries its number, even an empty one. */
  function CellDataAttrs(c: Cell): string {
    if IsStallType(c.kind) then DataStallOpen + c.number + "\"" else ""
  }

  /** The text inside the div: a stall shows its number; otherwise the label, else `INF` for infrastructure, else nothing. */
  function CellContent(c: Cell): string {
    if IsStallType(c.kind) then c.number
    else if c.labelText != "" then c.labelText
    else if c.kind == Infrastructure then "INF"
    else ""
  }

  /** `generateCellHTML(cellData)`. */
  function CellHTML(c: Cell): string {
    CellIndent + DivOpen + CellClasses(c) + "\"" + CellDataAttrs(c) + ">" + CellContent(c) + DivClose
  }

  /** The rules of `generateCellHTML`, with its `type.includes('stall')` test on the type name. */
  lemma CellMarkupRules(c: Cell)
    ensures Includes(TypeName(c.kind), "stall") ==>
      CellClasses(c) == "cell " + TypeName(c.kind) + " stall"
      && CellDataAttrs(c) == " data-stall=\"" + c.number + "\"" && CellContent(c) == c.number
    ensures !Includes(TypeName(c.kind), "stall") ==>
      CellClasses(c) == "cell " + TypeName(c.kind) && CellDataAttrs(c) == ""
      && CellContent(c) == (if c.labelText != "" then c.labelText else if c.kind == Infrastructure then "INF" else "")
  {
    StallTypes(c.kind);
  }

  /** One piece of the cell loop's output: a row comment or the div of one coordinate. */
  datatype Chunk = RowComment(row: int) | CellSlot(x: int, y: int)

  /** The loop bounds: a bound that is not positive (NaN included, mapped to 0 by the caller) runs no iteration. */
  function Cols(g: Grid): nat { if g.width > 0 then g.width else 0 }
  function Rows(g: Grid): nat { if g.height > 0 then g.height else 0 }

  /** Row `y` of the cell loop: its comment, numbered from 1, then its cells left to right. */
  function RowLayout(g: Grid, y: int): seq<Chunk> {
    [RowComment(y + 1)] + RowCells(y, Cols(g))
  }

  /** The first `n` cells of row `y`, left to right. */
  function RowCells(y: int, n: nat): (r: seq<Chunk>)
    ensures |r| == n
    ensures forall x :: 0 <= x < n ==> r[x] == CellSlot(x, y)
  {
    if n == 0 then [] else RowCells(y, n - 1) + [CellSlot(n - 1, y)]
  }

  /** The first `m` rows of the cell loop, top to bottom. */
  function RowsLayout(g: Grid, m: nat): seq<Chunk> {
    if m == 0 then [] else RowsLayout(g, m - 1) + RowLayout(g, m - 1)
  }

  function Layout(g: Grid): seq<Chunk> {
    RowsLayout(g, Rows(g))
  }

  function RenderChunk(g: Grid, c: Chunk): string {
    match c
    case RowComment(r) => RowCommentOpen + IntToString(r) + RowCommentClose
    case CellSlot(x, y) => if Pos(x, y) in g.cells then CellHTML(g.cells[Pos(x, y)]) else EmptyCellMarkup
  }

  function ConcatMap<T>(f: T -> string, xs: seq<T>): string {
    if xs == [] then "" else ConcatMap(f, xs[..|xs| - 1]) + f(xs[|xs| - 1])
  }

  lemma ConcatMapSnoc<T>(f: T -> string, xs: seq<T>, x: T)
    ensures ConcatMap(f, xs + [x]) == ConcatMap(f, xs) + f(x)
  {
    assert (xs + [x])[..|xs|] == xs;
  }

  lemma {:induction false} ConcatMapAppend<T>(f: T -> string, a: seq<T>, b: seq<T>)
    ensures ConcatMap(f, a + b) == ConcatMap(f, a) + ConcatMap(f, b)
    decreases |b|
  {
    if b == [] {
      assert a + b == a;
    } else {
      var b' := b[..|b| - 1];
      assert a + b == (a + b') + [b[|b| - 1]];
      ConcatMapSnoc(f, a + b', b[|b| - 1]);
      ConcatMapAppend(f, a, b');
    }
  }

  function RenderChunks(g: Grid, cs: seq<Chunk>): string {
    ConcatMap(c => RenderChunk(g, c), cs)
  }

  lemma RenderSnoc(g: Grid, cs: seq<Chunk>, c: Chunk)
    ensures RenderChunks(g, cs + [c]) == RenderChunks(g, cs) + RenderChunk(g, c)
  {
    ConcatMapSnoc(c => RenderChunk(g, c), cs, c);
  }

  function CountSlots(cs: seq<Chunk>): nat {
    if cs == [] then 0 else CountSlots(cs[..|cs| - 1]) + (if cs[|cs| - 1].CellSlot? then 1 else 0)
  }

  lemma {:induction false} CountSlotsAppend(a: seq<Chunk>, b: seq<Chunk>)
    ensures CountSlots(a + b) == CountSlots(a) + CountSlots(b)
    decreases |b|
  {
    if b != [] {
      var b' := b[..|b| - 1];
      assert (a + b)[..|a + b| - 1] == a + b';
      CountSlotsAppend(a, b');
    } else {
      assert a + b == a;
    }
  }

  lemma CountRow(y: int, n: nat)
    ensures CountSlots(RowCells(y, n)) == n
  {
    var r := RowCells(y, n);
    assert forall k :: 0 <= k < |r| ==> r[k].CellSlot?;
    CountAllSlots(r);
  }

  /** A run made only of cells counts one per element. */
  lemma {:induction false} CountAllSlots(cs: seq<Chunk>)
    requires forall k :: 0 <= k < |cs| ==> cs[k].CellSlot?
    ensures CountSlots(cs) == |cs|
  {
    if cs != [] {
      var init := cs[..|cs| - 1];
      assert forall k :: 0 <= k < |init| ==> init[k] == cs[k];
      CountAllSlots(init);
    }
  }

  /** The cell loop emits `Rows * (Cols + 1)` pieces of which exactly `Rows * Cols` are cells. */
  lemma LayoutCounts(g: Grid, m: nat)
    ensures |RowsLayout(g, m)| == m * (Cols(g) + 1)
    ensures CountSlots(RowsLayout(g, m)) == m * Cols(g)
  {
    LayoutLength(g, m);
    LayoutSlots(g, m);
  }

  lemma {:induction false} LayoutLength(g: Grid, m: nat)
    ensures |RowsLayout(g, m)| == m * (Cols(g) + 1)
  {
    if m > 0 {
      LayoutLength(g, m - 1);
      RowsArith(|RowsLayout(g, m)|, |RowsLayout(g, m - 1)|, m - 1, Cols(g) + 1);
    }
  }

  lemma {:induction false} LayoutSlots(g: Grid, m: nat)
    ensures CountSlots(RowsLayout(g, m)) == m * Cols(g)
  {
    if m > 0 {
      var done, row := RowsLayout(g, m - 1), RowLayout(g, m - 1);
      LayoutSlots(g, m - 1);
      CountSlotsAppend(done, row);
      RowSlots(g, m - 1);
      RowsArith(CountSlots(done + row), CountSlots(done), m - 1, Cols(g));
    }
  }

  /** A row holds one cell per column besides its comment. */
  lemma RowSlots(g: Grid, y: int)
    ensures CountSlots(RowLayout(g, y)) == Cols(g)
  {
    CountSlotsAppend([RowComment(y + 1)], RowCells(y, Cols(g)));
    CountRow(y, Cols(g));
    assert CountSlots([RowComment(y + 1)]) == CountSlots([]) + 0;
  }

  /** `k` rows of `c` each, plus one more row of `c`, make `k + 1` rows. */
  lemma RowsArith(total: int, before: int, k: nat, c: nat)
    requires before == k * c && total == before + c
    ensures total == (k + 1) * c
  {
  }

  /** A cell slot appears for a coordinate exactly when the coordinate is in bounds of the first `m` rows. */
  lemma {:induction false} LayoutMembers(g: Grid, m: nat)
    ensures forall x, y :: CellSlot(x, y) in RowsLayout(g, m) <==> 0 <= x < Cols(g) && 0 <= y < m
  {
    if m > 0 {
      LayoutMembers(g, m - 1);
      var r := RowLayout(g, m - 1);
      forall x, y ensures CellSlot(x, y) in r <==> 0 <= x < Cols(g) && y == m - 1 {
        if 0 <= x < Cols(g) && y == m - 1 {
          assert r[1 + x] == CellSlot(x, y);
        }
      }
    }
  }

  /** The cells come in strict row-major order, so each in-bounds coordinate appears once. */
  lemma {:induction false} LayoutRowMajor(g: Grid, m: nat)
    ensures forall i, j :: 0 <= i < j < |RowsLayout(g, m)| && RowsLayout(g, m)[i].CellSlot? && RowsLayout(g, m)[j].CellSlot? ==>
              RowMajorLess(Pos(RowsLayout(g, m)[i].x, RowsLayout(g, m)[i].y), Pos(RowsLayout(g, m)[j].x, RowsLayout(g, m)[j].y))
    ensures forall i :: 0 <= i < |RowsLayout(g, m)| && RowsLayout(g, m)[i].CellSlot? ==> RowsLayout(g, m)[i].y < m
  {
    if m > 0 {
      LayoutRowMajor(g, m - 1);
      var a, r := RowsLayout(g, m - 1), RowLayout(g, m - 1);
      var s := RowsLayout(g, m);
      assert s == a + r;
      forall i, j | 0 <= i < j < |s| && s[i].CellSlot? && s[j].CellSlot?
        ensures RowMajorLess(Pos(s[i].x, s[i].y), Pos(s[j].x, s[j].y))
      {
        if j < |a| {
          assert s[i] == a[i] && s[j] == a[j];
        } else if i < |a| {
          assert s[i] == a[i] && s[j] == r[j - |a|];
        } else {
          assert s[i] == r[i - |a|] && s[j] == r[j - |a|];
        }
      }
      forall i | 0 <= i < |s| && s[i].CellSlot?
        ensures s[i].y < m
      {
        if i < |a| { assert s[i] == a[i]; } else { assert s[i] == r[i - |a|]; }
      }
    }
  }

  /**
   * The cell loop of `createMapCode`: for each row a comment, then for each
   * coordinate of the row the cell's markup or an empty cell.
   */
  method GridCellsMarkup(g: Grid) returns (html: string)
    ensures html == RenderChunks(g, Layout(g))
  {
    html := "";
    var y := 0;
    while y < g.height
      invariant 0 <= y <= Rows(g)
      invariant html == RenderChunks(g, RowsLayout(g, y))
    {
      var comment := RowCommentOpen + IntToString(y + 1) + RowCommentClose;
      var cells := RowCellsMarkup(g, y);
      RowStep(g, y);
      html := html + comment + cells;
      y := y + 1;
    }
  }

  /** The inner loop of the cell loop: the cells of row `y`, left to right. */
  method RowCellsMarkup(g: Grid, y: int) returns (html: string)
    ensures html == RenderChunks(g, RowCells(y, Cols(g)))
  {
    html := "";
    var x := 0;
    while x < g.width
      invariant 0 <= x <= Cols(g)
      invariant html == RenderChunks(g, RowCells(y, x))
    {
      RenderSnoc(g, RowCells(y, x), CellSlot(x, y));
      var p := Pos(x, y);
      if p in g.cells {
        html := html + CellHTML(g.cells[p]);
      } else {
        html := html + EmptyCellMarkup;
      }
      x := x + 1;
    }
  }

  lemma RenderAppend(g: Grid, a: seq<Chunk>, b: seq<Chunk>)
    ensures RenderChunks(g, a + b) == RenderChunks(g, a) + RenderChunks(g, b)
  {
    ConcatMapAppend(c => RenderChunk(g, c), a, b);
  }

  lemma RowStep(g: Grid, y: nat)
    ensures RenderChunks(g, RowsLayout(g, y + 1))
         == RenderChunks(g, RowsLayout(g, y)) + (RowCommentOpen + IntToString(y + 1) + RowCommentClose)
            + RenderChunks(g, RowCells(y, Cols(g)))
  {
    var a, c, r := RowsLayout(g, y), RowComment(y + 1), RowCells(y, Cols(g));
    assert RowsLayout(g, y + 1) == (a + [c]) + r;
    RenderAppend(g, a + [c], r);
    RenderSnoc(g, a, c);
  }

  /** `locationNames[currentLocation] || currentLocation`: the page title of a location. */
  function DisplayName(location: string): (r: string)
    ensures location !in {"ruskin-courtyard", "science-walkway", "lab-courtyard"} ==> r == location
  {
    if location == "ruskin-courtyard" then "Ruskin Courtyard"
    else if location == "science-walkway" then "Science Walkway"
    else if location == "lab-courtyard" then "LAB Courtyard"
    else location
  }
}
