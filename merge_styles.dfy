/*
 * The CSS the map generator writes for merged regions: one rule that removes
 * the borders of every member, one rule per member that draws a border only on
 * the sides facing outside the region, and, for numbered stalls, rules that
 * hide the number on every member but the one nearest the region's centre.
 */
module MergeStyles {
  import opened JsStrings
  import opened GridModel
  import opened RegionMerger

  // ------------------------------------------------------------------ the anchor cell

  function Abs(n: int): nat { if n < 0 then -n else n }

  /** Manhattan distance. */
  function Dist(p: Pos, c: Pos): nat { Abs(p.x - c.x) + Abs(p.y - c.y) }

  function MinX(group: seq<Pos>): (m: int)
    requires |group| > 0
    ensures forall i :: 0 <= i < |group| ==> m <= group[i].x
    ensures exists i :: 0 <= i < |group| && group[i].x == m
  {
    if |group| == 1 then group[0].x
    else var r := MinX(group[1..]); if group[0].x <= r then group[0].x else r
  }

  function MaxX(group: seq<Pos>): (m: int)
    requires |group| > 0
    ensures forall i :: 0 <= i < |group| ==> group[i].x <= m
    ensures exists i :: 0 <= i < |group| && group[i].x == m
  {
    if |group| == 1 then group[0].x
    else var r := MaxX(group[1..]); if group[0].x >= r then group[0].x else r
  }

  function MinY(group: seq<Pos>): (m: int)
    requires |group| > 0
    ensures forall i :: 0 <= i < |group| ==> m <= group[i].y
    ensures exists i :: 0 <= i < |group| && group[i].y == m
  {
    if |group| == 1 then group[0].y
    else var r := MinY(group[1..]); if group[0].y <= r then group[0].y else r
  }

  function MaxY(group: seq<Pos>): (m: int)
    requires |group| > 0
    ensures forall i :: 0 <= i < |group| ==> group[i].y <= m
    ensures exists i :: 0 <= i < |group| && group[i].y == m
  {
    if |group| == 1 then group[0].y
    else var r := MaxY(group[1..]); if group[0].y >= r then group[0].y else r
  }

  /** The centre of the bounding box, each coordinate rounded down (`Math.floor((min + max) / 2)`). */
  function Centre(group: seq<Pos>): (c: Pos)
    requires |group| > 0
    ensures MinX(group) <= c.x <= MaxX(group) && MinY(group) <= c.y <= MaxY(group)
  {
    Pos((MinX(group) + MaxX(group)) / 2, (MinY(group) + MaxY(group)) / 2)
  }

  /**
   * The `reduce` of `findCenterCell` from position `i` on, with `best` the cell kept
   * so far: a later cell replaces it only when it is strictly closer.
   */
  function ClosestFrom(group: seq<Pos>, c: Pos, i: nat, best: Pos): (r: Pos)
    requires i <= |group|
    ensures Dist(r, c) <= Dist(best, c)
    decreases |group| - i
  {
    if i == |group| then best
    else ClosestFrom(group, c, i + 1, if Dist(group[i], c) < Dist(best, c) then group[i] else best)
  }

  /**
   * The cell kept is at least as close as every later member, and it is either the
   * starting cell or the first later member at its distance, strictly closer than the start.
   */
  lemma {:induction false} ClosestFromSpec(group: seq<Pos>, c: Pos, i: nat, best: Pos)
    requires i <= |group|
    ensures forall m :: i <= m < |group| ==> Dist(ClosestFrom(group, c, i, best), c) <= Dist(group[m], c)
    ensures var r := ClosestFrom(group, c, i, best);
            r == best || exists k :: i <= k < |group| && group[k] == r && Dist(r, c) < Dist(best, c)
                                     && forall m :: i <= m < k ==> Dist(group[m], c) > Dist(r, c)
    decreases |group| - i
  {
    if i < |group| {
      var nb := if Dist(group[i], c) < Dist(best, c) then group[i] else best;
      var r := ClosestFrom(group, c, i + 1, nb);
      assert r == ClosestFrom(group, c, i, best);
      ClosestFromSpec(group, c, i + 1, nb);
      if r != nb {
        var k :| i + 1 <= k < |group| && group[k] == r && Dist(r, c) < Dist(nb, c)
                 && forall m :: i + 1 <= m < k ==> Dist(group[m], c) > Dist(r, c);
        assert Dist(group[i], c) > Dist(r, c);
      } else if nb != best {
        assert group[i] == r;
      }
    }
  }

  function FindCenterCell(group: seq<Pos>): (r: Pos)
    requires |group| > 0
    ensures forall m :: 0 <= m < |group| ==> Dist(r, Centre(group)) <= Dist(group[m], Centre(group))
    ensures exists k :: 0 <= k < |group| && group[k] == r
                        && forall m :: 0 <= m < k ==> Dist(group[m], Centre(group)) > Dist(r, Centre(group))
  {
    var c := Centre(group);
    ClosestFromSpec(group, c, 0, group[0]);
    ClosestFrom(group, c, 0, group[0])
  }

  // ------------------------------------------------------------------ the CSS text

  /** The colour of the outline drawn around a merged region. */
  function BorderColor(t: CellType): string {
    match t
    case Building => "#4a5568"
    case StallStandard => "#77bc1f"
    case StallMedical => "#dc2626"
    case StallFeatured => "#10b981"
    case _ => "transparent"
  }

  // The fixed pieces of the generated text, exactly as the generator writes them.
  const SelectorOpen: string := ".cell[data-x=\""
  const SelectorMid: string := "\"][data-y=\""
  const SelectorClose: string := "\"]"
  const RuleIndent: string := "\n        "
  const DeclOpen: string := " {\n            "
  const DeclSep: string := "\n            "
  const MemberClose: string := "\n        }\n            "
  const HeaderBody: string := " {\n            border: none;\n        }\n        "
  const HiddenBody: string := " {\n            font-size: 0;\n        }\n                    "
  const AnchorBody: string := " {\n            font-size: 16px;\n            font-weight: bold;\n        }\n            "

  /** `.cell[data-x="X"][data-y="Y"]`. */
  function Selector(p: Pos): string {
    SelectorOpen + IntToString(p.x) + SelectorMid + IntToString(p.y) + SelectorClose
  }

  /** The member selectors joined with ", ". */
  function SelectorList(group: seq<Pos>): string {
    if |group| == 0 then ""
    else if |group| == 1 then Selector(group[0])
    else SelectorList(group[..|group| - 1]) + ", " + Selector(group[|group| - 1])
  }

  /** Which sides of one member get a border: those whose neighbour is not in the group. */
  datatype MemberRule = MemberRule(p: Pos, left: bool, right: bool, top: bool, bottom: bool)

  function MemberRuleOf(group: seq<Pos>, p: Pos): MemberRule {
    MemberRule(p,
      Pos(p.x - 1, p.y) !in group, Pos(p.x + 1, p.y) !in group,
      Pos(p.x, p.y - 1) !in group, Pos(p.x, p.y + 1) !in group)
  }

  function HeaderCss(group: seq<Pos>): string {
    RuleIndent + SelectorList(group) + HeaderBody
  }

  function BorderDecl(drawn: bool, side: string, color: string): string {
    if drawn then "border-" + side + ": 2px solid " + color + ";" else ""
  }

  function RenderMember(m: MemberRule, color: string): string {
    RuleIndent + Selector(m.p) + DeclOpen
    + BorderDecl(m.left, "left", color) + DeclSep
    + BorderDecl(m.right, "right", color) + DeclSep
    + BorderDecl(m.top, "top", color) + DeclSep
    + BorderDecl(m.bottom, "bottom", color) + MemberClose
  }

  function HiddenRule(p: Pos): string {
    RuleIndent + Selector(p) + HiddenBody
  }

  function AnchorRule(p: Pos): string {
    RuleIndent + Selector(p) + AnchorBody
  }

  /** The per-member border rules of the first `n` members. */
  function MembersCss(group: seq<Pos>, color: string, n: nat): string
    requires n <= |group|
  {
    if n == 0 then "" else MembersCss(group, color, n - 1) + RenderMember(MemberRuleOf(group, group[n - 1]), color)
  }

  /** The `font-size: 0` rules of the first `n` members other than the anchor. */
  function HiddenCss(group: seq<Pos>, anchor: Pos, n: nat): string
    requires n <= |group|
  {
    if n == 0 then "" else HiddenCss(group, anchor, n - 1) + HiddenPiece(group[n - 1], anchor)
  }

  /** A member's number is hidden unless it is the anchor. */
  function HiddenPiece(p: Pos, anchor: Pos): string {
    if p != anchor then HiddenRule(p) else ""
  }

  /** A region's number is shown once: the seed is a stall with a non-empty number. */
  predicate ShowsNumber(cell: Cell) {
    IsStallType(cell.kind) && cell.number != ""
  }

  /** The text `generateMergeCSS(group, cellData)` returns. */
  function MergeCss(group: seq<Pos>, cell: Cell): string {
    if |group| <= 1 then ""
    else
      HeaderCss(group) + MembersCss(group, BorderColor(cell.kind), |group|)
      + (if ShowsNumber(cell) then HiddenCss(group, FindCenterCell(group), |group|) + AnchorRule(FindCenterCell(group)) else "")
  }

  /** `group.some(p => p.x === q.x && p.y === q.y)`. */
  method HasMember(group: seq<Pos>, q: Pos) returns (found: bool)
    ensures found <==> q in group
  {
    found := false;
    var i := 0;
    while i < |group| && !found
      invariant 0 <= i <= |group|
      invariant found <==> q in group[..i]
    {
      found := group[i] == q;
      assert group[..i + 1] == group[..i] + [group[i]];
      i := i + 1;
    }
    assert !found ==> group[..i] == group;
  }

  /** The four `some` tests of `generateMergeCSS` for one member: a side is drawn when no member lies beyond it. */
  method SidesOf(group: seq<Pos>, p: Pos) returns (rule: MemberRule)
    ensures rule == MemberRuleOf(group, p)
  {
    var hasLeft := HasMember(group, Pos(p.x - 1, p.y));
    var hasRight := HasMember(group, Pos(p.x + 1, p.y));
    var hasTop := HasMember(group, Pos(p.x, p.y - 1));
    var hasBottom := HasMember(group, Pos(p.x, p.y + 1));
    rule := MemberRule(p, !hasLeft, !hasRight, !hasTop, !hasBottom);
  }

  /** The loop of `generateMergeCSS` that writes one border rule per member. */
  method MemberRules(group: seq<Pos>, color: string) returns (css: string)
    ensures css == MembersCss(group, color, |group|)
  {
    css := "";
    var i := 0;
    while i < |group|
      invariant 0 <= i <= |group|
      invariant css == MembersCss(group, color, i)
    {
      var rule := SidesOf(group, group[i]);
      MembersCssStep(group, color, i);
      css := css + RenderMember(rule, color);
      i := i + 1;
    }
  }

  /** The loop of `generateMergeCSS` that hides the number on every member but the anchor. */
  method HiddenRules(group: seq<Pos>, anchor: Pos) returns (css: string)
    ensures css == HiddenCss(group, anchor, |group|)
  {
    css := "";
    var i := 0;
    while i < |group|
      invariant 0 <= i <= |group|
      invariant css == HiddenCss(group, anchor, i)
    {
      HiddenCssStep(group, anchor, i);
      css := css + HiddenPiece(group[i], anchor);
      i := i + 1;
    }
  }

  lemma MembersCssStep(group: seq<Pos>, color: string, i: nat)
    requires i < |group|
    ensures MembersCss(group, color, i + 1) == MembersCss(group, color, i) + RenderMember(MemberRuleOf(group, group[i]), color)
  {
  }

  lemma HiddenCssStep(group: seq<Pos>, anchor: Pos, i: nat)
    requires i < |group|
    ensures HiddenCss(group, anchor, i + 1)
            == HiddenCss(group, anchor, i) + HiddenPiece(group[i], anchor)
  {
  }

  /** `generateMergeCSS`: the header rule, then a border rule per member, then the number rules. */
  method GenerateMergeCSS(group: seq<Pos>, cell: Cell) returns (css: string)
    ensures css == MergeCss(group, cell)
  {
    if |group| <= 1 {
      return "";
    }
    var members := MemberRules(group, BorderColor(cell.kind));
    var numbers := "";
    if ShowsNumber(cell) {
      var anchor := FindCenterCell(group);
      var hidden := HiddenRules(group, anchor);
      numbers := hidden + AnchorRule(anchor);
    }
    css := HeaderCss(group) + members + numbers;
  }

  /** Two members that share an edge draw no border on that edge, from either side. */
  lemma SharedEdgeNotDrawn(group: seq<Pos>, p: Pos, q: Pos)
    requires p in group && q in group && q == Pos(p.x + 1, p.y)
    ensures !MemberRuleOf(group, p).right && !MemberRuleOf(group, q).left
  {
  }

  /** The anchor is a member, so exactly the other members have their number hidden. */
  lemma AnchorIsMember(group: seq<Pos>)
    requires |group| > 0
    ensures FindCenterCell(group) in group
  {
    var k :| 0 <= k < |group| && group[k] == FindCenterCell(group)
               && forall m :: 0 <= m < k ==> Dist(group[m], Centre(group)) > Dist(FindCenterCell(group), Centre(group));
  }

  // ------------------------------------------------------------------ the scan over the grid

  /** The cells the found regions cover. */
  ghost function Covered(groups: seq<seq<Pos>>): set<Pos> {
    set i, q | 0 <= i < |groups| && q in groups[i] :: q
  }

  /** The CSS of one found region, written for the record of its seed. */
  function CssOf(g: Grid, group: seq<Pos>): string {
    if group != [] && group[0] in g.cells then MergeCss(group, g.cells[group[0]]) else ""
  }

  function AllCss(g: Grid, groups: seq<seq<Pos>>): string {
    if groups == [] then "" else AllCss(g, groups[..|groups| - 1]) + CssOf(g, groups[|groups| - 1])
  }

  /**
   * Every found region has more than one cell and is the merge group of its seed's
   * own record, listed in the order the flood fill from the seed collects it.
   */
  ghost predicate RegionsValid(g: Grid, groups: seq<seq<Pos>>) {
    forall i :: 0 <= i < |groups| ==>
      |groups[i]| > 1 && InBounds(g, groups[i][0]) && groups[i][0] in g.cells
      && IsMergeGroup(g, groups[i][0], g.cells[groups[i][0]], groups[i])
      && groups[i] == FloodFrom(g, groups[i][0])
  }

  /** The seeds come in strict row-major order. */
  predicate SeedsOrdered(groups: seq<seq<Pos>>) {
    forall i, j :: 0 <= i < j < |groups| && groups[i] != [] && groups[j] != [] ==> RowMajorLess(groups[i][0], groups[j][0])
  }

  predicate SeedsBefore(groups: seq<seq<Pos>>, here: Pos) {
    forall i :: 0 <= i < |groups| && groups[i] != [] ==> RowMajorLess(groups[i][0], here)
  }

  /** Each region's seed is its first cell in row-major order. */
  predicate SeedsFirst(groups: seq<seq<Pos>>) {
    forall i, q :: 0 <= i < |groups| && groups[i] != [] && q in groups[i] && q != groups[i][0] ==> RowMajorLess(groups[i][0], q)
  }

  /** No cell lies in two regions. */
  predicate RegionsDisjoint(groups: seq<seq<Pos>>) {
    forall i, j, q :: 0 <= i < j < |groups| && q in groups[i] ==> q !in groups[j]
  }

  /** Every assigned cell the scan has passed is covered or merges with none of its neighbours. */
  ghost predicate ScannedUpTo(g: Grid, processed: set<Pos>, here: Pos) {
    forall p :: InBounds(g, p) && p in g.cells && RowMajorLess(p, here) ==> p in processed || Isolated(g, p)
  }

  ghost predicate ScanInv(g: Grid, here: Pos, styles: string, groups: seq<seq<Pos>>, processed: set<Pos>) {
    processed == Covered(groups)
    && RegionsValid(g, groups)
    && SeedsOrdered(groups)
    && SeedsFirst(groups)
    && SeedsBefore(groups, here)
    && RegionsDisjoint(groups)
    && styles == AllCss(g, groups)
    && ScannedUpTo(g, processed, here)
  }

  /** Two regions whose second seed lies outside the first share no cell. */
  lemma RegionsApart(g: Grid, a: Pos, ga: seq<Pos>, b: Pos, gb: seq<Pos>)
    requires a in g.cells && b in g.cells
    requires IsMergeGroup(g, a, g.cells[a], ga) && IsMergeGroup(g, b, g.cells[b], gb)
    requires b !in ga
    ensures forall q :: q in ga ==> q !in gb
  {
    if exists q :: q in ga && q in gb {
      var q :| q in ga && q in gb;
      GroupsOverlap(g, a, ga, b, gb, q);
      assert false;
    }
  }

  lemma CoveredSnoc(groups: seq<seq<Pos>>, group: seq<Pos>)
    ensures Covered(groups + [group]) == Covered(groups) + set q | q in group
  {
    var gs := groups + [group];
    forall q | q in Covered(gs) ensures q in Covered(groups) + set q | q in group {
      var i :| 0 <= i < |gs| && q in gs[i];
      if i < |groups| { assert q in groups[i]; }
    }
    forall q | q in Covered(groups) ensures q in Covered(gs) {
      var i :| 0 <= i < |groups| && q in groups[i];
      assert q in gs[i];
    }
    forall q | q in group ensures q in Covered(gs) {
      assert q in gs[|groups|];
    }
  }

  /** Appending a newly found region to the scan state keeps the invariant. */
  lemma ScanAddRegion(g: Grid, x: int, y: int, styles: string, groups: seq<seq<Pos>>, processed: set<Pos>, group: seq<Pos>)
    requires ScanInv(g, Pos(x, y), styles, groups, processed)
    requires Pos(x, y) in g.cells && Pos(x, y) !in processed
    requires IsMergeGroup(g, Pos(x, y), g.cells[Pos(x, y)], group) && |group| > 1
    requires InBounds(g, Pos(x, y)) && group == FloodFrom(g, Pos(x, y))
    ensures ScanInv(g, Pos(x + 1, y), styles + MergeCss(group, g.cells[Pos(x, y)]), groups + [group],
                    processed + set q | q in group)
  {
    var p := Pos(x, y);
    var gs := groups + [group];
    var processed' := processed + set q | q in group;
    CoveredSnoc(groups, group);
    AddValid(g, groups, group);
    AddOrdered(groups, group, x, y);
    AddSeedFirst(g, groups, processed, group, x, y);
    AddDisjoint(g, groups, processed, group);
    AllCssSnoc(g, groups, group);
    ScannedMore(g, processed, processed', Pos(x, y));
    ScannedStep(g, processed', x, y);
  }

  lemma AddValid(g: Grid, groups: seq<seq<Pos>>, group: seq<Pos>)
    requires RegionsValid(g, groups)
    requires group != [] && InBounds(g, group[0]) && group[0] in g.cells
    requires IsMergeGroup(g, group[0], g.cells[group[0]], group) && |group| > 1
    requires group == FloodFrom(g, group[0])
    ensures RegionsValid(g, groups + [group])
  {
  }

  /**
   * A new region found at the scan position starts there: any member earlier in
   * row-major order would have been covered already, and regions do not overlap.
   */
  lemma AddSeedFirst(g: Grid, groups: seq<seq<Pos>>, processed: set<Pos>, group: seq<Pos>, x: int, y: int)
    requires RegionsValid(g, groups) && SeedsFirst(groups) && processed == Covered(groups)
    requires ScannedUpTo(g, processed, Pos(x, y))
    requires Pos(x, y) in g.cells && Pos(x, y) !in processed
    requires IsMergeGroup(g, Pos(x, y), g.cells[Pos(x, y)], group) && |group| > 1
    ensures SeedsFirst(groups + [group])
  {
    var p := Pos(x, y);
    var gs := groups + [group];
    forall i, q | 0 <= i < |gs| && gs[i] != [] && q in gs[i] && q != gs[i][0]
      ensures RowMajorLess(gs[i][0], q)
    {
      if i < |groups| {
        assert gs[i] == groups[i];
      } else {
        assert gs[i] == group && group[0] == p;
        var k :| 0 <= k < |group| && group[k] == q;
        MemberNotIsolated(g, p, group, k);
        if !RowMajorLess(p, q) {
          assert RowMajorLess(q, p) && q in processed;
          var j :| 0 <= j < |groups| && q in groups[j];
          RegionsApart(g, groups[j][0], groups[j], p, group);
          assert false;
        }
      }
    }
  }

  lemma AddOrdered(groups: seq<seq<Pos>>, group: seq<Pos>, x: int, y: int)
    requires SeedsOrdered(groups) && SeedsBefore(groups, Pos(x, y))
    requires group != [] && group[0] == Pos(x, y)
    ensures SeedsOrdered(groups + [group]) && SeedsBefore(groups + [group], Pos(x + 1, y))
  {
  }

  lemma AddDisjoint(g: Grid, groups: seq<seq<Pos>>, processed: set<Pos>, group: seq<Pos>)
    requires RegionsDisjoint(groups) && RegionsValid(g, groups) && processed == Covered(groups)
    requires group != [] && group[0] in g.cells && group[0] !in processed
    requires IsMergeGroup(g, group[0], g.cells[group[0]], group)
    ensures RegionsDisjoint(groups + [group])
  {
    var p := group[0];
    forall i | 0 <= i < |groups|
      ensures forall q :: q in groups[i] ==> q !in group
    {
      assert groups[i][0] in g.cells;
      assert p !in groups[i];
      RegionsApart(g, groups[i][0], groups[i], p, group);
    }
  }

  lemma AllCssSnoc(g: Grid, groups: seq<seq<Pos>>, group: seq<Pos>)
    requires group != [] && group[0] in g.cells
    ensures AllCss(g, groups + [group]) == AllCss(g, groups) + MergeCss(group, g.cells[group[0]])
  {
    assert (groups + [group])[..|groups|] == groups;
  }

  lemma ScannedMore(g: Grid, processed: set<Pos>, more: set<Pos>, here: Pos)
    requires ScannedUpTo(g, processed, here) && processed <= more
    ensures ScannedUpTo(g, more, here)
  {
  }

  /** Passing a cell that is covered, unassigned or isolated keeps the invariant. */
  lemma ScanSkip(g: Grid, x: int, y: int, styles: string, groups: seq<seq<Pos>>, processed: set<Pos>)
    requires ScanInv(g, Pos(x, y), styles, groups, processed)
    requires Pos(x, y) in processed || Pos(x, y) !in g.cells || Isolated(g, Pos(x, y))
    ensures ScanInv(g, Pos(x + 1, y), styles, groups, processed)
  {
    SeedsBeforeLater(groups, Pos(x, y), Pos(x + 1, y));
    ScannedStep(g, processed, x, y);
  }

  lemma SeedsBeforeLater(groups: seq<seq<Pos>>, here: Pos, later: Pos)
    requires SeedsBefore(groups, here) && RowMajorLess(here, later)
    ensures SeedsBefore(groups, later)
  {
  }

  lemma ScannedStep(g: Grid, processed: set<Pos>, x: int, y: int)
    requires ScannedUpTo(g, processed, Pos(x, y))
    requires Pos(x, y) in processed || Pos(x, y) !in g.cells || Isolated(g, Pos(x, y))
    ensures ScannedUpTo(g, processed, Pos(x + 1, y))
  {
    forall p | InBounds(g, p) && p in g.cells && RowMajorLess(p, Pos(x + 1, y))
      ensures p in processed || Isolated(g, p)
    {
      if p != Pos(x, y) {
        assert RowMajorLess(p, Pos(x, y));
      }
    }
  }

  /** Moving past the end of a row keeps the invariant. */
  lemma ScanNextRow(g: Grid, x: int, y: int, styles: string, groups: seq<seq<Pos>>, processed: set<Pos>)
    requires ScanInv(g, Pos(x, y), styles, groups, processed)
    requires x >= g.width && (x == 0 || RegionsValid(g, groups))
    ensures ScanInv(g, Pos(0, y + 1), styles, groups, processed)
  {
    forall i | 0 <= i < |groups| && groups[i] != []
      ensures RowMajorLess(groups[i][0], Pos(0, y + 1))
    {
      assert RowMajorLess(groups[i][0], Pos(x, y));
    }
  }

  /**
   * The regions the scan finds: each is the merge group of its seed, in flood-fill
   * order; the seeds come in row-major order and each is its region's first cell in
   * that order; no cell lies in two regions; and an assigned cell is covered exactly
   * when it merges with a neighbour. `ScanResultUnique` shows this fixes the regions.
   */
  ghost predicate ScanResult(g: Grid, groups: seq<seq<Pos>>) {
    RegionsValid(g, groups) && SeedsOrdered(groups) && SeedsFirst(groups) && RegionsDisjoint(groups)
    && forall p :: InBounds(g, p) && p in g.cells ==> (p in Covered(groups) <==> !Isolated(g, p))
  }

  /**
   * `generateMergedCellStyles`: scans the grid row by row and writes the CSS of the
   * merge group of every assigned cell not yet covered, when that group has more
   * than one cell. The regions found are returned beside the text.
   */
  method GenerateMergedCellStyles(g: Grid) returns (styles: string, ghost groups: seq<seq<Pos>>)
    ensures styles == AllCss(g, groups)
    ensures ScanResult(g, groups)
  {
    styles := "";
    groups := [];
    var processed: set<Pos> := {};
    var y := 0;
    while y < g.height
      invariant ScanInv(g, Pos(0, y), styles, groups, processed)
      invariant y <= g.height || y == 0
    {
      styles, groups, processed := ScanRow(g, y, styles, groups, processed);
      y := y + 1;
    }
    ScanComplete(g, y, styles, groups, processed);
  }

  /** One row of the scan: every cell of row `y`, left to right. */
  method ScanRow(g: Grid, y: int, styles: string, ghost groups: seq<seq<Pos>>, processed: set<Pos>)
    returns (styles': string, ghost groups': seq<seq<Pos>>, processed': set<Pos>)
    requires 0 <= y < g.height
    requires ScanInv(g, Pos(0, y), styles, groups, processed)
    ensures ScanInv(g, Pos(0, y + 1), styles', groups', processed')
  {
    styles', groups', processed' := styles, groups, processed;
    var x := 0;
    while x < g.width
      invariant ScanInv(g, Pos(x, y), styles', groups', processed')
      invariant x <= g.width || x == 0
    {
      styles', groups', processed' := VisitCell(g, x, y, styles', groups', processed');
      x := x + 1;
    }
    ScanNextRow(g, x, y, styles', groups', processed');
  }

  /** The body of the scan for one in-bounds cell: skip it, or write the CSS of its merge group and mark the group. */
  method VisitCell(g: Grid, x: int, y: int, styles: string, ghost groups: seq<seq<Pos>>, processed: set<Pos>)
    returns (styles': string, ghost groups': seq<seq<Pos>>, processed': set<Pos>)
    requires 0 <= x < g.width && 0 <= y < g.height
    requires ScanInv(g, Pos(x, y), styles, groups, processed)
    ensures ScanInv(g, Pos(x + 1, y), styles', groups', processed')
    ensures groups' == groups || (|groups'| == |groups| + 1 && groups'[..|groups|] == groups)
  {
    var p := Pos(x, y);
    styles', groups', processed' := styles, groups, processed;
    if p in processed || p !in g.cells {
      ScanSkip(g, x, y, styles, groups, processed);
    } else {
      var cellData := g.cells[p];
      var group := FindMergeGroup(g, p, cellData);
      if |group| > 1 {
        var css := GenerateMergeCSS(group, cellData);
        ScanAddRegion(g, x, y, styles, groups, processed, group);
        styles' := styles + css;
        groups' := groups + [group];
        processed' := processed + set q | q in group;
      } else {
        SmallGroupIsolated(g, p, group);
        ScanSkip(g, x, y, styles, groups, processed);
      }
    }
  }

  /** Once every row is scanned, an assigned cell is covered exactly when it is not isolated. */
  lemma ScanComplete(g: Grid, y: int, styles: string, groups: seq<seq<Pos>>, processed: set<Pos>)
    requires ScanInv(g, Pos(0, y), styles, groups, processed) && y >= g.height
    ensures forall p :: InBounds(g, p) && p in g.cells ==> (p in Covered(groups) <==> !Isolated(g, p))
  {
    forall p | InBounds(g, p) && p in g.cells
      ensures p in Covered(groups) <==> !Isolated(g, p)
    {
      assert RowMajorLess(p, Pos(0, y));
      if p in Covered(groups) {
        CoveredNotIsolated(g, groups, p);
      }
    }
  }

  /** A cell of a found region is never isolated. */
  lemma CoveredNotIsolated(g: Grid, groups: seq<seq<Pos>>, p: Pos)
    requires RegionsValid(g, groups) && p in Covered(groups)
    ensures p in g.cells && !Isolated(g, p)
  {
    var i :| 0 <= i < |groups| && p in groups[i];
    var k :| 0 <= k < |groups[i]| && groups[i][k] == p;
    MemberNotIsolated(g, groups[i][0], groups[i], k);
  }

  /** The seed of every region, in order. */
  function Seeds(groups: seq<seq<Pos>>): (r: seq<Pos>)
    ensures |r| == |groups|
    ensures forall i :: 0 <= i < |groups| && groups[i] != [] ==> r[i] == groups[i][0]
  {
    if groups == [] then [] else [if groups[0] == [] then Pos(0, 0) else groups[0][0]] + Seeds(groups[1..])
  }

  /** Two sequences in strict row-major order with the same elements are equal. */
  lemma {:induction false} SortedSame(a: seq<Pos>, b: seq<Pos>)
    requires forall i, j :: 0 <= i < j < |a| ==> RowMajorLess(a[i], a[j])
    requires forall i, j :: 0 <= i < j < |b| ==> RowMajorLess(b[i], b[j])
    requires forall p :: p in a <==> p in b
    ensures a == b
    decreases |a|
  {
    assert a != [] ==> a[0] in b;
    assert b != [] ==> b[0] in a;
    if a != [] {
      var k :| 0 <= k < |b| && b[k] == a[0];
      var m :| 0 <= m < |a| && a[m] == b[0];
      var a0, b0 := a[0], b[0];
      assert k == 0 || RowMajorLess(b0, a0);
      assert a0 == b0;
      forall p
        ensures p in a[1..] <==> p in b[1..]
      {
        if p in a[1..] {
          var i :| 1 <= i < |a| && a[i] == p;
          assert RowMajorLess(a[0], p) && p in b;
          var k' :| 0 <= k' < |b| && b[k'] == p;
          assert k' > 0 && b[1..][k' - 1] == p;
        }
        if p in b[1..] {
          var j :| 1 <= j < |b| && b[j] == p;
          assert RowMajorLess(b[0], p) && p in a;
          var m' :| 0 <= m' < |a| && a[m'] == p;
          assert m' > 0 && a[1..][m' - 1] == p;
        }
      }
      SortedSame(a[1..], b[1..]);
      assert a == [a[0]] + a[1..] && b == [b[0]] + b[1..];
    }
  }

  lemma RowMajorAntisymmetric(p: Pos, q: Pos)
    requires p == q || RowMajorLess(p, q)
    requires q == p || RowMajorLess(q, p)
    ensures p == q
  {
  }

  /**
   * The seed of a region of one scan result is the seed of a region of any other:
   * it is covered there, and the region covering it has a seed that is both in its
   * own region and in that one, so neither seed comes first.
   */
  lemma SeedShared(g: Grid, r1: seq<seq<Pos>>, r2: seq<seq<Pos>>, i: nat)
    requires ScanResult(g, r1) && ScanResult(g, r2) && i < |r1|
    ensures Seeds(r1)[i] in Seeds(r2)
  {
    var p := r1[i][0];
    assert |r1[i]| > 1 && InBounds(g, p) && p in g.cells && IsMergeGroup(g, p, g.cells[p], r1[i]);
    MemberNotIsolated(g, p, r1[i], 0);
    assert p in Covered(r2);
    var j :| 0 <= j < |r2| && p in r2[j];
    var s := r2[j][0];
    assert s in g.cells && IsMergeGroup(g, s, g.cells[s], r2[j]);
    GroupsOverlap(g, p, r1[i], s, r2[j], p);
    assert s == p || RowMajorLess(p, s);
    assert p == s || RowMajorLess(s, p);
    RowMajorAntisymmetric(p, s);
    assert Seeds(r1)[i] == p == Seeds(r2)[j];
  }

  /** The seeds of valid regions in row-major order are strictly sorted. */
  lemma SeedsSorted(g: Grid, r: seq<seq<Pos>>)
    requires RegionsValid(g, r) && SeedsOrdered(r)
    ensures forall i, j :: 0 <= i < j < |Seeds(r)| ==> RowMajorLess(Seeds(r)[i], Seeds(r)[j])
  {
    var a := Seeds(r);
    forall i, j | 0 <= i < j < |a|
      ensures RowMajorLess(a[i], a[j])
    {
      assert r[i] != [] && r[j] != [];
    }
  }

  /** Two scan results have the same seeds. */
  lemma SameSeeds(g: Grid, r1: seq<seq<Pos>>, r2: seq<seq<Pos>>)
    requires ScanResult(g, r1) && ScanResult(g, r2)
    ensures forall p :: p in Seeds(r1) <==> p in Seeds(r2)
  {
    var a, b := Seeds(r1), Seeds(r2);
    forall i | 0 <= i < |a|
      ensures a[i] in b
    {
      SeedShared(g, r1, r2, i);
    }
    forall j | 0 <= j < |b|
      ensures b[j] in a
    {
      SeedShared(g, r2, r1, j);
    }
  }

  /** The scan's promises fix its regions: two region lists that both keep them are equal. */
  lemma ScanResultUnique(g: Grid, r1: seq<seq<Pos>>, r2: seq<seq<Pos>>)
    requires ScanResult(g, r1) && ScanResult(g, r2)
    ensures r1 == r2
  {
    var a, b := Seeds(r1), Seeds(r2);
    SameSeeds(g, r1, r2);
    SeedsSorted(g, r1);
    SeedsSorted(g, r2);
    SortedSame(a, b);
    forall i | 0 <= i < |r1|
      ensures r1[i] == r2[i]
    {
      assert r1[i][0] == a[i] == b[i] == r2[i][0];
    }
  }
}
