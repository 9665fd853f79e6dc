/*
 * The data model of the stall-layout grid editor: cell types, cell records,
 * the sparse grid keyed by coordinates, and the merge predicate that decides
 * which neighbouring cells are drawn as one region.
 */
module GridModel {
  import opened JsStrings

  /** A grid coordinate; the editor keys its records by the text `${x}-${y}`. */
  datatype Pos = Pos(x: int, y: int)

  /** The paintable cell types offered by the colour palette. */
  datatype CellType = StallStandard | StallMedical | StallFeatured | Building | Infrastructure | EmptySpace

  /** The palette selection: a cell type to paint, or the eraser. */
  datatype Tool = Paint(kind: CellType) | Clear

  /** The `data-type` name of each cell type, which is also its CSS class. */
  function TypeName(t: CellType): string {
    match t
    case StallStandard => "stall-standard"
    case StallMedical => "stall-medical"
    case StallFeatured => "stall-featured"
    case Building => "building"
    case Infrastructure => "infrastructure"
    case EmptySpace => "empty"
  }

  /** The stall kinds; the editor tests for them with `type.includes('stall')`, see `StallTypes`. */
  predicate IsStallType(t: CellType) {
    t.StallStandard? || t.StallMedical? || t.StallFeatured?
  }

  /** Exactly the three stall kinds have a type name containing "stall". */
  lemma StallTypes(t: CellType)
    ensures Includes(TypeName(t), "stall") <==> IsStallType(t)
  {
    var n := TypeName(t);
    if IsStallType(t) {
      assert OccursAt(n, "stall", 0);
    } else {
      forall i | 0 <= i <= |n| - 5
        ensures !OccursAt(n, "stall", i)
      {
        assert n[i] != 's' || n[i + 1] != 't' || n[i + 2] != 'a';
        assert "stall"[0] == 's' && "stall"[1] == 't' && "stall"[2] == 'a';
      }
    }
  }

  /** One assigned cell: `{type, number, label, x, y, id}`. */
  datatype Cell = Cell(kind: CellType, number: string, labelText: string, x: int, y: int, id: int)

  /** The sparse grid: its dimensions (as the editor's loops see them) and the assigned cells. */
  datatype Grid = Grid(width: int, height: int, cells: map<Pos, Cell>)

  predicate InBounds(g: Grid, p: Pos) {
    0 <= p.x < g.width && 0 <= p.y < g.height
  }

  /** Row-major order, the order of the editor's `for y { for x }` scans. */
  predicate RowMajorLess(p: Pos, q: Pos) {
    p.y < q.y || (p.y == q.y && p.x < q.x)
  }

  /** The `gridData` key of a coordinate. */
  function CellKey(x: nat, y: nat): string {
    NatToString(x) + "-" + NatToString(y)
  }

  lemma CellKeySplit(x: nat, y: nat)
    ensures Split(CellKey(x, y), '-') == [NatToString(x), NatToString(y)]
  {
    NatToStringNoDash(x);
    NatToStringNoDash(y);
    SplitTwo(NatToString(x), NatToString(y), '-');
  }

  lemma NatToStringNoDash(n: nat)
    ensures '-' !in NatToString(n)
  {
    NatToStringDigits(n);
  }

  /** Distinct coordinates have distinct keys, so keying `gridData` by `Pos` loses nothing. */
  lemma CellKeyInjective(x1: nat, y1: nat, x2: nat, y2: nat)
    requires CellKey(x1, y1) == CellKey(x2, y2)
    ensures x1 == x2 && y1 == y2
  {
    CellKeySplit(x1, y1);
    CellKeySplit(x2, y2);
    NatToStringInjective(x1, x2);
    NatToStringInjective(y1, y2);
  }

  /** `shouldMerge(cell1, cell2)`: two buildings, or two stalls with the same non-empty number. */
  predicate ShouldMerge(c1: Cell, c2: Cell) {
    if c1.kind == Building && c2.kind == Building then true
    else if IsStallType(c1.kind) && IsStallType(c2.kind) && c1.number != "" && c2.number != ""
            && c1.number == c2.number then true
    else false
  }

  /**
   * The merge rule as the editor writes it on type names: both 'building', or both
   * names containing 'stall' (the kinds may differ) with equal non-empty numbers.
   */
  lemma ShouldMergeIff(c1: Cell, c2: Cell)
    ensures ShouldMerge(c1, c2) <==>
      (TypeName(c1.kind) == "building" && TypeName(c2.kind) == "building")
      || (Includes(TypeName(c1.kind), "stall") && Includes(TypeName(c2.kind), "stall")
          && c1.number != "" && c1.number == c2.number)
  {
    StallTypes(c1.kind);
    StallTypes(c2.kind);
  }

  lemma ShouldMergeSymmetric(c1: Cell, c2: Cell)
    ensures ShouldMerge(c1, c2) <==> ShouldMerge(c2, c1)
  {
  }

  lemma ShouldMergeTransitive(c1: Cell, c2: Cell, c3: Cell)
    requires ShouldMerge(c1, c2) && ShouldMerge(c2, c3)
    ensures ShouldMerge(c1, c3)
  {
  }

  /** A cell that merges with anything merges with itself: the relation is a partial equivalence. */
  lemma ShouldMergeReflexiveOnDomain(c1: Cell, c2: Cell)
    requires ShouldMerge(c1, c2)
    ensures ShouldMerge(c1, c1) && ShouldMerge(c2, c2)
  {
  }

  lemma NoSelfMergeNoMerge(c1: Cell, c2: Cell)
    requires !ShouldMerge(c1, c1)
    ensures !ShouldMerge(c1, c2)
  {
  }

  /** Cells that do not merge even with themselves: stalls without a number, and every other non-building type. */
  lemma ShouldMergeSelfIff(c: Cell)
    ensures ShouldMerge(c, c) <==> c.kind == Building || (IsStallType(c.kind) && c.number != "")
  {
    ShouldMergeIff(c, c);
  }
}
