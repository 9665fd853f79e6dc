/*
 * The editing state of the map builder: which screen is shown, the grid size,
 * the sparse cell records, the palette selection, the id counter and the two
 * text inputs the editor reads when a cell is clicked. Both revisions of the
 * builder share these definitions; they differ only in DOM null checks.
 */
module MapBuilderModel {
  import opened JsStrings
  import opened GridModel
  import opened RegionMerger
  import opened MergeStyles
  import opened PageGenerator

  /** The four screens: `welcome`, `setup`, `editing`, `export`. */
  datatype Screen = Welcome | Setup | Editing | Export

  /** What `createMapCode` produces, with the fixed page boilerplate left implicit. */
  datatype MapCode = MapCode(title: string, columns: Num, rows: Num, mergeStyles: string, cellMarkup: string)

  /** What a key press in the editing screen asks for. */
  datatype KeyAction = NoAction | OpenExport | ClearGrid | Choose(tool: Tool)

  // ------------------------------------------------------------------ grid-size validation

  /**
   * The size check as written: `w < 6 || w > 50 || h < 6 || h > 50` on the results of
   * `parseInt`. Every comparison with NaN is false, so NaN is not rejected.
   */
  predicate DimensionsRejectedAsWritten(w: Num, h: Num) {
    Lt(w, Int(6)) || Lt(Int(50), w) || Lt(h, Int(6)) || Lt(Int(50), h)
  }

  /** An empty size field parses to NaN and passes the check as written. */
  lemma EmptySizeAccepted()
    ensures ParseInt("") == NaN
    ensures !DimensionsRejectedAsWritten(ParseInt(""), ParseInt(""))
  {
    assert TrimStart("") == "";
  }

  /** The intended check: both sizes are numbers between 6 and 50. */
  predicate DimensionsRejected(w: Num, h: Num) {
    !(w.Int? && h.Int? && 6 <= w.v <= 50 && 6 <= h.v <= 50)
  }

  /** The two checks agree on every numeric size and differ exactly on NaN. */
  lemma DimensionsChecksAgree(w: Num, h: Num)
    ensures w.Int? && h.Int? ==> (DimensionsRejected(w, h) <==> DimensionsRejectedAsWritten(w, h))
    ensures w.NaN? || h.NaN? ==> DimensionsRejected(w, h)
    ensures w.NaN? && h.NaN? ==> !DimensionsRejectedAsWritten(w, h)
  {
  }

  /** `String(parseInt(number) + 1)`: the next-number hint written after a stall is placed. */
  function NextNumberHint(number: string): string {
    NumToString(Add(ParseInt(number), Int(1)))
  }

  /** The bound of `for (i = 0; i < n; i++)`: NaN runs no iteration. */
  function LoopBound(n: Num): int {
    if n.Int? then n.v else 0
  }

  /** The key handling of `handleKeyboardShortcuts`: Ctrl/Cmd+S exports, Ctrl/Cmd+R resets, plain keys pick a tool. */
  function KeyActionOf(key: string, ctrl: bool, meta: bool, alt: bool): KeyAction {
    if ctrl || meta then
      (if key == "s" then OpenExport else if key == "r" then ClearGrid else NoAction)
    else if alt then NoAction
    else if key == "1" then Choose(Paint(StallStandard))
    else if key == "2" then Choose(Paint(StallMedical))
    else if key == "3" then Choose(Paint(StallFeatured))
    else if key == "b" then Choose(Paint(Building))
    else if key == "i" then Choose(Paint(Infrastructure))
    else if key == "e" then Choose(Paint(EmptySpace))
    else if key == "Delete" || key == "Backspace" then Choose(Clear)
    else NoAction
  }

  /** A modifier key turns every tool key into a no-op, and only `s` and `r` act with Ctrl or Cmd. */
  lemma KeyActionModifiers(key: string, ctrl: bool, meta: bool, alt: bool)
    ensures (ctrl || meta) && key != "s" && key != "r" ==> KeyActionOf(key, ctrl, meta, alt) == NoAction
    ensures KeyActionOf(key, ctrl, meta, alt).Choose? ==> !ctrl && !meta && !alt
    ensures KeyActionOf(key, ctrl, meta, alt) == Choose(Clear) <==> !ctrl && !meta && !alt && (key == "Delete" || key == "Backspace")
  {
  }

  /** Each record sits under its own coordinates and carries a distinct id below the counter. */
  ghost predicate CellsValid(cells: map<Pos, Cell>, nextId: int) {
    nextId >= 1
    && (forall p :: p in cells ==> cells[p].x == p.x && cells[p].y == p.y && 1 <= cells[p].id < nextId)
    && (forall p, q :: p in cells && q in cells && p != q ==> cells[p].id != cells[q].id)
  }

  /** Storing a record with the counter's id under its own coordinates, then counting on, keeps the records valid. */
  lemma StoreKeepsValid(cells: map<Pos, Cell>, nextId: int, c: Cell)
    requires CellsValid(cells, nextId) && c.id == nextId
    ensures CellsValid(cells[Pos(c.x, c.y) := c], nextId + 1)
  {
    var cells' := cells[Pos(c.x, c.y) := c];
    forall p, q | p in cells' && q in cells' && p != q
      ensures cells'[p].id != cells'[q].id
    {
      if p == Pos(c.x, c.y) {
        assert cells'[q] == cells[q];
      } else if q == Pos(c.x, c.y) {
        assert cells'[p] == cells[p];
      }
    }
  }

  /** Removing records keeps the rest valid. */
  lemma RemoveKeepsValid(cells: map<Pos, Cell>, nextId: int, gone: set<Pos>)
    requires CellsValid(cells, nextId)
    ensures CellsValid(cells - gone, nextId)
  {
  }

  class MapBuilder {
    var currentLocation: string
    var gridWidth: Num
    var gridHeight: Num
    var gridData: map<Pos, Cell>
    var currentStallType: Tool
    var currentInterface: Screen
    var nextStallId: int
    /** The values of the stall-number and label inputs. */
    var stallNumberInput: string
    var stallLabelInput: string
    /** The text shown in the code output area, if any. */
    var codeOutput: Option<MapCode>

    /** Each record sits under its own coordinates and carries a distinct id below the counter. */
    ghost predicate Valid()
      reads this`gridData, this`nextStallId
    {
      CellsValid(gridData, nextStallId)
    }

    constructor()
      ensures Valid()
      ensures currentLocation == "" && gridWidth == Int(12) && gridHeight == Int(12) && gridData == map[]
      ensures currentStallType == Paint(StallStandard) && currentInterface == Welcome && nextStallId == 1
      ensures stallNumberInput == "" && stallLabelInput == "" && codeOutput == None
    {
      currentLocation := "";
      gridWidth := Int(12);
      gridHeight := Int(12);
      gridData := map[];
      currentStallType := Paint(StallStandard);
      currentInterface := Welcome;
      nextStallId := 1;
      stallNumberInput := "";
      stallLabelInput := "";
      codeOutput := None;
    }

    /** `handleLocationChange`: an empty choice returns to the welcome screen, any other opens the setup screen. */
    method HandleLocationChange(location: string)
      requires Valid()
      modifies this`currentInterface, this`currentLocation
      ensures Valid()
      ensures location == "" ==> currentInterface == Welcome && currentLocation == old(currentLocation)
      ensures location != "" ==> currentInterface == Setup && currentLocation == location
      ensures gridData == old(gridData) && nextStallId == old(nextStallId) && gridWidth == old(gridWidth)
              && gridHeight == old(gridHeight) && currentStallType == old(currentStallType)
              && stallNumberInput == old(stallNumberInput) && stallLabelInput == old(stallLabelInput)
              && codeOutput == old(codeOutput)
    {
      if location == "" {
        currentInterface := Welcome;
        return;
      }
      currentLocation := location;
      currentInterface := Setup;
    }

    /** `resetMapData`: no cells, the counter back at 1, empty inputs, the standard stall tool and no code. */
    method ResetMapData()
      requires Valid()
      modifies this`gridData, this`nextStallId, this`stallNumberInput, this`stallLabelInput, this`currentStallType, this`codeOutput
      ensures Valid()
      ensures gridData == map[] && nextStallId == 1 && stallNumberInput == "" && stallLabelInput == ""
      ensures currentStallType == Paint(StallStandard) && codeOutput == None
      ensures currentInterface == old(currentInterface) && currentLocation == old(currentLocation)
              && gridWidth == old(gridWidth) && gridHeight == old(gridHeight)
    {
      gridData := map[];
      nextStallId := 1;
      stallNumberInput := "";
      stallLabelInput := "";
      currentStallType := Paint(StallStandard);
      codeOutput := None;
    }

    /** `startNewMap`: resets the map data and stays on the current screen. */
    method StartNewMap()
      requires Valid()
      modifies this`gridData, this`nextStallId, this`stallNumberInput, this`stallLabelInput, this`currentStallType, this`codeOutput
      ensures Valid()
      ensures gridData == map[] && nextStallId == 1 && stallNumberInput == "" && stallLabelInput == ""
      ensures currentStallType == Paint(StallStandard) && codeOutput == None
      ensures currentInterface == old(currentInterface) && currentLocation == old(currentLocation)
              && gridWidth == old(gridWidth) && gridHeight == old(gridHeight)
    {
      ResetMapData();
    }

    /** The `change` listeners of the size fields store the parsed value straight away. */
    method GridSizeChanged(widthText: string, heightText: string)
      requires Valid()
      modifies this`gridWidth, this`gridHeight
      ensures Valid()
      ensures gridWidth == ParseInt(widthText) && gridHeight == ParseInt(heightText)
      ensures gridData == old(gridData) && nextStallId == old(nextStallId) && currentInterface == old(currentInterface)
              && currentLocation == old(currentLocation) && currentStallType == old(currentStallType)
              && stallNumberInput == old(stallNumberInput) && stallLabelInput == old(stallLabelInput)
              && codeOutput == old(codeOutput)
    {
      gridWidth := ParseInt(widthText);
      gridHeight := ParseInt(heightText);
    }

    /**
     * `createGridAndStartEditing`: the parsed sizes are stored first, then checked;
     * a rejected size leaves the screen and the cells as they were, an accepted one
     * opens the editing screen.
     */
    method CreateGridAndStartEditing(widthText: string, heightText: string)
      requires Valid()
      modifies this`gridWidth, this`gridHeight, this`currentInterface
      ensures Valid()
      ensures gridWidth == ParseInt(widthText) && gridHeight == ParseInt(heightText)
      ensures DimensionsRejected(gridWidth, gridHeight) ==> currentInterface == old(currentInterface)
      ensures !DimensionsRejected(gridWidth, gridHeight) ==> currentInterface == Editing
      ensures currentInterface == Editing ==>
                (gridWidth.Int? && gridHeight.Int? && 6 <= gridWidth.v <= 50 && 6 <= gridHeight.v <= 50)
                || old(currentInterface) == Editing
      ensures gridData == old(gridData) && nextStallId == old(nextStallId) && currentLocation == old(currentLocation)
              && currentStallType == old(currentStallType) && stallNumberInput == old(stallNumberInput)
              && stallLabelInput == old(stallLabelInput) && codeOutput == old(codeOutput)
    {
      gridWidth := ParseInt(widthText);
      gridHeight := ParseInt(heightText);
      if DimensionsRejected(gridWidth, gridHeight) {
        return;
      }
      currentInterface := Editing;
    }

    /** `selectColor`: the palette entry becomes the current tool. */
    method SelectTool(t: Tool)
      requires Valid()
      modifies this`currentStallType
      ensures Valid()
      ensures currentStallType == t
      ensures gridData == old(gridData) && nextStallId == old(nextStallId) && currentInterface == old(currentInterface)
              && stallNumberInput == old(stallNumberInput) && stallLabelInput == old(stallLabelInput)
    {
      currentStallType := t;
    }

    /** Typing into the stall-number and label inputs. */
    method SetInputs(number: string, labelText: string)
      requires Valid()
      modifies this`stallNumberInput, this`stallLabelInput
      ensures Valid()
      ensures stallNumberInput == number && stallLabelInput == labelText
      ensures gridData == old(gridData) && nextStallId == old(nextStallId) && currentInterface == old(currentInterface)
              && currentStallType == old(currentStallType)
    {
      stallNumberInput := number;
      stallLabelInput := labelText;
    }

    /** `clearCell`: deletes only the record at (x, y). */
    method ClearCell(x: int, y: int)
      requires Valid()
      modifies this`gridData
      ensures Valid()
      ensures gridData == old(gridData) - {Pos(x, y)}
      ensures Pos(x, y) !in gridData && forall p :: p != Pos(x, y) ==> (p in gridData <==> p in old(gridData))
      ensures forall p :: p in gridData ==> gridData[p] == old(gridData)[p]
      ensures nextStallId == old(nextStallId) && currentInterface == old(currentInterface)
              && stallNumberInput == old(stallNumberInput) && stallLabelInput == old(stallLabelInput)
              && currentStallType == old(currentStallType) && currentLocation == old(currentLocation)
              && gridWidth == old(gridWidth) && gridHeight == old(gridHeight) && codeOutput == old(codeOutput)
    {
      RemoveKeepsValid(gridData, nextStallId, {Pos(x, y)});
      gridData := gridData - {Pos(x, y)};
    }

    /**
     * `assignCell`: ignored outside the editing screen; with the eraser it clears the
     * cell; otherwise it stores a fresh record at (x, y), replacing any previous one,
     * takes the next id, and for a numbered stall puts the next number in the input.
     */
    method AssignCell(x: int, y: int)
      requires Valid()
      modifies this`gridData, this`nextStallId, this`stallNumberInput
      ensures Valid()
      ensures old(currentInterface) != Editing ==>
                gridData == old(gridData) && nextStallId == old(nextStallId) && stallNumberInput == old(stallNumberInput)
      ensures old(currentInterface) == Editing && old(currentStallType) == Clear ==>
                gridData == old(gridData) - {Pos(x, y)} && nextStallId == old(nextStallId)
                && stallNumberInput == old(stallNumberInput)
      ensures old(currentInterface) == Editing && old(currentStallType).Paint? ==>
                var k := old(currentStallType).kind;
                gridData == old(gridData)[Pos(x, y) := Cell(k, old(stallNumberInput), old(stallLabelInput), x, y, old(nextStallId))]
                && nextStallId == old(nextStallId) + 1
                && stallNumberInput == (if IsStallType(k) && old(stallNumberInput) != "" then NextNumberHint(old(stallNumberInput))
                                        else old(stallNumberInput))
      ensures currentInterface == old(currentInterface) && currentStallType == old(currentStallType)
              && stallLabelInput == old(stallLabelInput) && currentLocation == old(currentLocation)
              && gridWidth == old(gridWidth) && gridHeight == old(gridHeight) && codeOutput == old(codeOutput)
    {
      if currentInterface != Editing {
        return;
      }
      var number := stallNumberInput;
      var labelText := stallLabelInput;
      match currentStallType {
        case Clear =>
          ClearCell(x, y);
        case Paint(k) =>
          var cellData := Cell(k, number, labelText, x, y, nextStallId);
          StoreKeepsValid(gridData, nextStallId, cellData);
          nextStallId := nextStallId + 1;
          gridData := gridData[Pos(x, y) := cellData];
          if IsStallType(k) && number != "" {
            stallNumberInput := NextNumberHint(number);
          }
      }
    }

    /** `backToSetup`: asks for confirmation only when cells exist, and returns to setup unless refused. */
    method BackToSetup(confirmed: bool)
      requires Valid()
      modifies this`currentInterface
      ensures Valid()
      ensures if |old(gridData)| > 0 && !confirmed then currentInterface == old(currentInterface) else currentInterface == Setup
      ensures gridData == old(gridData) && nextStallId == old(nextStallId) && stallNumberInput == old(stallNumberInput)
              && stallLabelInput == old(stallLabelInput)
    {
      if |gridData| > 0 && !confirmed {
        return;
      }
      currentInterface := Setup;
    }

    /** `resetGrid`: on confirmation, drops every cell and empties the inputs; the id counter keeps counting. */
    method ResetGrid(confirmed: bool)
      requires Valid()
      modifies this`gridData, this`stallNumberInput, this`stallLabelInput
      ensures Valid()
      ensures !confirmed ==> gridData == old(gridData) && stallNumberInput == old(stallNumberInput)
                             && stallLabelInput == old(stallLabelInput)
      ensures confirmed ==> gridData == map[] && stallNumberInput == "" && stallLabelInput == ""
      ensures nextStallId == old(nextStallId) && currentInterface == old(currentInterface)
              && currentStallType == old(currentStallType)
    {
      if !confirmed {
        return;
      }
      gridData := map[];
      stallNumberInput := "";
      stallLabelInput := "";
    }

    /** `goToExport`: refused, changing nothing, while no cell is assigned. */
    method GoToExport()
      requires Valid()
      modifies this`currentInterface
      ensures Valid()
      ensures |old(gridData)| == 0 ==> currentInterface == old(currentInterface)
      ensures |old(gridData)| > 0 ==> currentInterface == Export
      ensures gridData == old(gridData) && nextStallId == old(nextStallId) && currentStallType == old(currentStallType)
              && stallNumberInput == old(stallNumberInput)
              && stallLabelInput == old(stallLabelInput) && codeOutput == old(codeOutput)
    {
      if |gridData| == 0 {
        return;
      }
      currentInterface := Export;
    }

    /** `backToEditing`. */
    method BackToEditing()
      requires Valid()
      modifies this`currentInterface
      ensures Valid()
      ensures currentInterface == Editing
      ensures gridData == old(gridData) && nextStallId == old(nextStallId) && stallNumberInput == old(stallNumberInput)
              && stallLabelInput == old(stallLabelInput) && codeOutput == old(codeOutput)
    {
      currentInterface := Editing;
    }

    /** The grid the page generator walks: the stored sizes as loop bounds, and the records. */
    function CurrentGrid(): Grid
      reads this`gridWidth, this`gridHeight, this`gridData
    {
      Grid(LoopBound(gridWidth), LoopBound(gridHeight), gridData)
    }

    /**
     * `createMapCode`: the page title, the merge CSS of the regions found by the
     * row-major scan, and the cell markup.
     */
    method CreateMapCode() returns (code: MapCode, ghost regions: seq<seq<Pos>>)
      ensures code.title == DisplayName(currentLocation) && code.columns == gridWidth && code.rows == gridHeight
      ensures code.cellMarkup == RenderChunks(CurrentGrid(), Layout(CurrentGrid()))
      ensures code.mergeStyles == AllCss(CurrentGrid(), regions) && ScanResult(CurrentGrid(), regions)
    {
      var g := CurrentGrid();
      var styles;
      styles, regions := GenerateMergedCellStyles(g);
      var cells := GridCellsMarkup(g);
      code := MapCode(DisplayName(currentLocation), gridWidth, gridHeight, styles, cells);
    }

    /** `generateCode`: refused, changing nothing, while no cell is assigned; otherwise shows the generated code. */
    method GenerateCode() returns (ghost regions: seq<seq<Pos>>)
      requires Valid()
      modifies this`codeOutput
      ensures Valid()
      ensures |old(gridData)| == 0 ==> codeOutput == old(codeOutput)
      ensures |old(gridData)| > 0 ==>
                (codeOutput.Some? && codeOutput.value.title == DisplayName(currentLocation)
                 && codeOutput.value.columns == gridWidth && codeOutput.value.rows == gridHeight
                 && codeOutput.value.cellMarkup == RenderChunks(CurrentGrid(), Layout(CurrentGrid()))
                 && codeOutput.value.mergeStyles == AllCss(CurrentGrid(), regions)
                 && ScanResult(CurrentGrid(), regions))
    {
      regions := [];
      if |gridData| == 0 {
        return;
      }
      var code;
      code, regions := CreateMapCode();
      ghost var g := CurrentGrid();
      codeOutput := Some(code);
      assert CurrentGrid() == g;
    }

    /** The `keydown` listener: shortcuts act only on the editing screen. */
    method HandleKeyDown(key: string, ctrl: bool, meta: bool, alt: bool, confirmed: bool)
      requires Valid()
      modifies this`currentInterface, this`gridData, this`stallNumberInput, this`stallLabelInput, this`currentStallType
      ensures Valid()
      ensures old(currentInterface) != Editing || KeyActionOf(key, ctrl, meta, alt) == NoAction ==>
                gridData == old(gridData) && currentInterface == old(currentInterface) && currentStallType == old(currentStallType)
      ensures old(currentInterface) == Editing ==>
                match KeyActionOf(key, ctrl, meta, alt)
                case NoAction => true
                case OpenExport => gridData == old(gridData) && currentStallType == old(currentStallType)
                                   && currentInterface == (if |old(gridData)| > 0 then Export else Editing)
                case ClearGrid => currentInterface == Editing && currentStallType == old(currentStallType)
                                  && gridData == (if confirmed then map[] else old(gridData))
                case Choose(t) => currentStallType == t && gridData == old(gridData) && currentInterface == Editing
      ensures if old(currentInterface) == Editing && KeyActionOf(key, ctrl, meta, alt) == ClearGrid && confirmed
              then stallNumberInput == "" && stallLabelInput == ""
              else stallNumberInput == old(stallNumberInput) && stallLabelInput == old(stallLabelInput)
      ensures nextStallId == old(nextStallId) && codeOutput == old(codeOutput)
    {
      if currentInterface != Editing {
        return;
      }
      match KeyActionOf(key, ctrl, meta, alt) {
        case NoAction =>
        case OpenExport => GoToExport();
        case ClearGrid => ResetGrid(confirmed);
        case Choose(t) => SelectTool(t);
      }
    }
  }

  /** After a stall is placed with a decimal number, the input holds that number plus one. */
  lemma HintIsNextNumber(number: string)
    requires number != [] && forall k :: 0 <= k < |number| ==> IsDigit(number[k])
    ensures NextNumberHint(number) == IntToString(DigitsValue(number) + 1)
    ensures ParseInt(NextNumberHint(number)) == Int(DigitsValue(number) + 1)
  {
    HintOfDigits(number, DigitsValue(number));
  }

  lemma HintOfDigits(number: string, n: int)
    requires number != [] && forall k :: 0 <= k < |number| ==> IsDigit(number[k])
    requires n == DigitsValue(number)
    ensures NextNumberHint(number) == IntToString(n + 1)
    ensures ParseInt(NextNumberHint(number)) == Int(n + 1)
  {
    ParseIntOfDigits(number);
    HintOfParsed(number, n);
  }

  /** Whatever `parseInt` reads from the input, the hint is the next integer and reads back as it. */
  lemma HintOfParsed(number: string, n: int)
    requires ParseInt(number) == Int(n)
    ensures NextNumberHint(number) == IntToString(n + 1)
    ensures ParseInt(NextNumberHint(number)) == Int(n + 1)
  {
    ParseIntIntToString(n + 1);
  }
}
