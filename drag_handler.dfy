/*
 * The interaction state of the layout editor page: the stall selection, single
 * and group dragging, resizing of background areas, the rubber-band selection
 * box, and the zoom and pan gestures used outside edit mode.
 *
 * Page elements are identified by number. Coordinates are exact reals; the
 * conversion from screen to layout coordinates (a division by the zoom) and the
 * distance between two touches are computed by the caller and passed in.
 */
module DragHandler {
  import opened JsStrings

  type ElementId = nat

  datatype Point = Point(x: real, y: real)
  datatype Size = Size(width: real, height: real)

  /** The layout box of a stall: `style.left`, `style.top` and its computed width and height. */
  datatype Box = Box(left: real, top: real, width: real, height: real)

  const MinZoom: real := 0.5
  const MaxZoom: real := 3.0
  /** The smallest width and height a background area can be resized to. */
  const MinAreaWidth: real := 80.0
  const MinAreaHeight: real := 60.0
  /** The rubber band selects nothing until it is wider or taller than this. */
  const SelectThreshold: real := 10.0

  function Max(a: real, b: real): real { if a >= b then a else b }
  function Min(a: real, b: real): real { if a <= b then a else b }
  function AbsReal(a: real): real { if a < 0.0 then -a else a }

  /** `Math.max(MIN_ZOOM, Math.min(MAX_ZOOM, z))`. */
  function ClampZoom(z: real): (r: real)
    ensures MinZoom <= r <= MaxZoom
    ensures MinZoom <= z <= MaxZoom <==> r == z
  {
    Max(MinZoom, Min(MaxZoom, z))
  }

  /** A clamped zoom lies on the nearer limit when the request was outside the range. */
  lemma ClampZoomLimits(z: real)
    ensures z < MinZoom ==> ClampZoom(z) == MinZoom
    ensures z > MaxZoom ==> ClampZoom(z) == MaxZoom
    ensures ClampZoom(ClampZoom(z)) == ClampZoom(z)
  {
  }

  /** The wheel zooms out by 10% when scrolling down and in by 10% otherwise. */
  function WheelFactor(deltaY: real): (f: real)
    ensures deltaY > 0.0 ==> f < 1.0
    ensures deltaY <= 0.0 ==> f > 1.0
  {
    if deltaY > 0.0 then 0.9 else 1.1
  }

  /** `Math.min(scaleX, scaleY, 1)`: the layout is never scaled up, and there is no lower limit. */
  function FitScale(scaleX: real, scaleY: real): (r: real)
    ensures r <= scaleX && r <= scaleY && r <= 1.0
    ensures r == scaleX || r == scaleY || r == 1.0
  {
    Min(Min(scaleX, scaleY), 1.0)
  }

  /** `Math.max(0, v)`: a dragged element never goes left of or above the layout. */
  function ClampPosition(v: real): (r: real)
    ensures r >= 0.0
    ensures v >= 0.0 <==> r == v
  {
    Max(0.0, v)
  }

  /** Where a dragged element lands: its start position moved by the cursor's travel, clamped to the layout. */
  function Dragged(start: Point, delta: Point): (p: Point)
    ensures p.x >= 0.0 && p.y >= 0.0
    ensures start.x + delta.x >= 0.0 ==> p.x == start.x + delta.x
    ensures start.y + delta.y >= 0.0 ==> p.y == start.y + delta.y
  {
    Point(ClampPosition(start.x + delta.x), ClampPosition(start.y + delta.y))
  }

  /** The size a resized area takes: the start size grown by the cursor's travel, at least 80 by 60. */
  function Resized(start: Size, delta: Point): (s: Size)
    ensures s.width >= MinAreaWidth && s.height >= MinAreaHeight
    ensures start.width + delta.x >= MinAreaWidth ==> s.width == start.width + delta.x
    ensures start.height + delta.y >= MinAreaHeight ==> s.height == start.height + delta.y
  {
    Size(Max(MinAreaWidth, start.width + delta.x), Max(MinAreaHeight, start.height + delta.y))
  }

  /** The rubber band between the point where it started and the cursor, as left, top, width and height. */
  function SelectionRect(start: Point, here: Point): (b: Box)
    ensures b.width >= 0.0 && b.height >= 0.0
    ensures b.left <= start.x <= b.left + b.width && b.left <= here.x <= b.left + b.width
    ensures b.top <= start.y <= b.top + b.height && b.top <= here.y <= b.top + b.height
  {
    Box(Min(start.x, here.x), Min(start.y, here.y), AbsReal(here.x - start.x), AbsReal(here.y - start.y))
  }

  /** A stall lies wholly inside the band. */
  predicate Inside(stall: Box, band: Box) {
    stall.left >= band.left && stall.top >= band.top
    && stall.left + stall.width <= band.left + band.width
    && stall.top + stall.height <= band.top + band.height
  }

  /** The band selects only once it has been dragged past the threshold in either direction. */
  predicate BandActive(band: Box) {
    band.width > SelectThreshold || band.height > SelectThreshold
  }

  /** The stalls among `candidates` that lie wholly inside the band. */
  function Enclosed(stalls: map<ElementId, Box>, candidates: set<ElementId>, band: Box): set<ElementId> {
    set s | s in candidates && s in stalls && Inside(stalls[s], band)
  }

  /** `parseFloat(stall.style.left) || 0`: an element without a position reads as the origin. */
  function PositionOf(positions: map<ElementId, Point>, e: ElementId): Point {
    if e in positions then positions[e] else Point(0.0, 0.0)
  }

  /** The start positions `groupSelected` records: one per given stall. */
  function StartPositions(stalls: set<ElementId>, positions: map<ElementId, Point>): (m: map<ElementId, Point>)
    ensures m.Keys == stalls
  {
    map s | s in stalls :: PositionOf(positions, s)
  }

  /** The positions after a group drag: each given stall with a start position is moved from it; nothing else moves. */
  function GroupMoved(positions: map<ElementId, Point>, stalls: set<ElementId>, starts: map<ElementId, Point>, delta: Point)
    : map<ElementId, Point>
  {
    map e | e in positions.Keys + (stalls * starts.Keys) ::
      if e in stalls && e in starts then Dragged(starts[e], delta) else positions[e]
  }

  /** A group drag moves exactly the selected stalls that have a start position, and none of them off the layout. */
  lemma GroupMovedSpec(positions: map<ElementId, Point>, stalls: set<ElementId>, starts: map<ElementId, Point>, delta: Point, e: ElementId)
    ensures e in GroupMoved(positions, stalls, starts, delta) <==> e in positions || (e in stalls && e in starts)
    ensures e in stalls && e in starts ==>
              GroupMoved(positions, stalls, starts, delta)[e] == Dragged(starts[e], delta)
              && GroupMoved(positions, stalls, starts, delta)[e].x >= 0.0 && GroupMoved(positions, stalls, starts, delta)[e].y >= 0.0
    ensures !(e in stalls && e in starts) && e in positions ==> GroupMoved(positions, stalls, starts, delta)[e] == positions[e]
  {
  }

  /** Moving one more stall of the group updates that stall's entry alone. */
  lemma GroupMovedStep(positions: map<ElementId, Point>, done: set<ElementId>, starts: map<ElementId, Point>, delta: Point, s: ElementId)
    requires s !in done
    ensures s in starts ==>
              GroupMoved(positions, done + {s}, starts, delta) == GroupMoved(positions, done, starts, delta)[s := Dragged(starts[s], delta)]
    ensures s !in starts ==> GroupMoved(positions, done + {s}, starts, delta) == GroupMoved(positions, done, starts, delta)
  {
  }

  /** The selection after a press on a stall without ctrl or meta: an unselected stall becomes selected, replacing the selection unless shift is held. */
  function PressSelection(selected: set<ElementId>, target: ElementId, isStall: bool, shift: bool): (r: set<ElementId>)
    ensures isStall ==> target in r
    ensures isStall && target !in selected && !shift ==> r == {target}
    ensures (!isStall || target in selected || shift) ==> selected <= r
    ensures r - {target} <= selected
  {
    if isStall && target !in selected then (if shift then selected else {}) + {target} else selected
  }

  /** `toggleStallSelection`: flips the membership of exactly that stall. */
  function Toggled(selected: set<ElementId>, stall: ElementId): (r: set<ElementId>)
    ensures stall in r <==> stall !in selected
    ensures forall s :: s != stall ==> (s in r <==> s in selected)
  {
    if stall in selected then selected - {stall} else selected + {stall}
  }

  lemma ToggleTwice(selected: set<ElementId>, stall: ElementId)
    ensures Toggled(Toggled(selected, stall), stall) == selected
  {
  }

  class DragHandler {
    var editMode: bool
    var isMobile: bool
    /** The element being dragged on its own, and the one being resized. */
    var draggedElement: Option<ElementId>
    var resizingElement: Option<ElementId>
    /** The cursor where the drag or resize began, and the dragged element's layout position then. */
    var startPos: Point
    var elementPos: Point
    var startSize: Size
    var selectedStalls: set<ElementId>
    var isSelecting: bool
    var selectionStart: Point
    var groupDragging: bool
    var groupStartPositions: map<ElementId, Point>
    var currentZoom: real
    var currentPan: Point
    var isPanning: bool
    var isZooming: bool
    var panStart: Point
    var panStartOffset: Point
    var lastTouchDistance: real
    /** The elements' `style.left`/`style.top`, the areas' `style.width`/`style.height` and the stalls' text. */
    var positions: map<ElementId, Point>
    var sizes: map<ElementId, Size>
    var labels: map<ElementId, string>

    /** Start positions are kept only while a group drag is on. */
    ghost predicate Valid()
      reads this
    {
      !groupDragging ==> groupStartPositions == map[]
    }

    constructor(mobile: bool, positions0: map<ElementId, Point>, sizes0: map<ElementId, Size>, labels0: map<ElementId, string>)
      ensures Valid()
      ensures !editMode && isMobile == mobile && draggedElement == None && resizingElement == None
      ensures selectedStalls == {} && !isSelecting && !groupDragging && groupStartPositions == map[]
      ensures currentZoom == 1.0 && currentPan == Point(0.0, 0.0) && !isPanning && !isZooming && lastTouchDistance == 0.0
      ensures positions == positions0 && sizes == sizes0 && labels == labels0
    {
      editMode := false;
      isMobile := mobile;
      draggedElement := None;
      resizingElement := None;
      startPos := Point(0.0, 0.0);
      elementPos := Point(0.0, 0.0);
      startSize := Size(0.0, 0.0);
      selectedStalls := {};
      isSelecting := false;
      selectionStart := Point(0.0, 0.0);
      groupDragging := false;
      groupStartPositions := map[];
      currentZoom := 1.0;
      currentPan := Point(0.0, 0.0);
      isPanning := false;
      isZooming := false;
      panStart := Point(0.0, 0.0);
      panStartOffset := Point(0.0, 0.0);
      lastTouchDistance := 0.0;
      positions := positions0;
      sizes := sizes0;
      labels := labels0;
    }

    // ---------------------------------------------------------------- zoom and pan

    /** `fitToScreen` on a phone: the smaller of the two fitting scales, never above 1, and the pan reset. */
    method FitToScreen(scaleX: real, scaleY: real)
      modifies this`currentZoom, this`currentPan
      ensures isMobile ==> currentZoom == FitScale(scaleX, scaleY) && currentPan == Point(0.0, 0.0)
      ensures !isMobile ==> currentZoom == old(currentZoom) && currentPan == old(currentPan)
    {
      if !isMobile {
        return;
      }
      currentZoom := FitScale(scaleX, scaleY);
      currentPan := Point(0.0, 0.0);
    }

    /**
     * `handleWheelZoom`: ignored in edit mode; otherwise the zoom moves by the wheel factor within
     * the limits, and when it changes the pan becomes `recentred`, the caller's re-centring on the cursor.
     */
    method WheelZoom(deltaY: real, recentred: Point)
      modifies this`currentZoom, this`currentPan
      ensures old(editMode) ==> currentZoom == old(currentZoom) && currentPan == old(currentPan)
      ensures !old(editMode) ==> currentZoom == ClampZoom(old(currentZoom) * WheelFactor(deltaY))
      ensures !old(editMode) ==> currentPan == (if currentZoom != old(currentZoom) then recentred else old(currentPan))
      ensures currentZoom != old(currentZoom) ==> MinZoom <= currentZoom <= MaxZoom
    {
      if editMode {
        return;
      }
      var newZoom := ClampZoom(currentZoom * WheelFactor(deltaY));
      if newZoom != currentZoom {
        currentPan := recentred;
        currentZoom := newZoom;
      }
    }

    /** `handleTouchStartGesture`: one finger starts a pan, two start a pinch; ignored in edit mode. */
    method TouchStartGesture(touches: nat, touch: Point, distance: real)
      modifies this`isPanning, this`isZooming, this`panStart, this`panStartOffset, this`lastTouchDistance
      ensures old(editMode) || (touches != 1 && touches != 2) ==>
                isPanning == old(isPanning) && isZooming == old(isZooming) && panStart == old(panStart)
                && panStartOffset == old(panStartOffset) && lastTouchDistance == old(lastTouchDistance)
      ensures !old(editMode) && touches == 1 ==>
                isPanning && isZooming == old(isZooming) && panStart == touch && panStartOffset == currentPan
                && lastTouchDistance == old(lastTouchDistance)
      ensures !old(editMode) && touches == 2 ==>
                !isPanning && isZooming && lastTouchDistance == distance
                && panStart == old(panStart) && panStartOffset == old(panStartOffset)
    {
      if editMode {
        return;
      }
      if touches == 1 {
        isPanning := true;
        panStart := touch;
        panStartOffset := currentPan;
      } else if touches == 2 {
        isPanning := false;
        isZooming := true;
        lastTouchDistance := distance;
      }
    }

    /**
     * `handleTouchMoveGesture`: a one-finger pan follows the finger from where the pan began; a
     * two-finger pinch scales the zoom by `scale` (the new finger distance over `lastTouchDistance`)
     * within the limits and, when the zoom changes, takes the caller's re-centred pan.
     */
    method TouchMoveGesture(touches: nat, touch: Point, distance: real, scale: real, recentred: Point)
      modifies this`currentZoom, this`currentPan, this`lastTouchDistance
      ensures old(editMode) ==> currentZoom == old(currentZoom) && currentPan == old(currentPan) && lastTouchDistance == old(lastTouchDistance)
      ensures !old(editMode) && isPanning && touches == 1 ==>
                currentPan.x - panStartOffset.x == touch.x - panStart.x && currentPan.y - panStartOffset.y == touch.y - panStart.y
                && currentZoom == old(currentZoom) && lastTouchDistance == old(lastTouchDistance)
      ensures !old(editMode) && !(isPanning && touches == 1) && isZooming && touches == 2 ==>
                var z := ClampZoom(old(currentZoom) * scale);
                currentZoom == z
                && (z != old(currentZoom) ==> currentPan == recentred && lastTouchDistance == distance)
                && (z == old(currentZoom) ==> currentPan == old(currentPan) && lastTouchDistance == old(lastTouchDistance))
      ensures !(isPanning && touches == 1) && !(isZooming && touches == 2) ==>
                currentZoom == old(currentZoom) && currentPan == old(currentPan) && lastTouchDistance == old(lastTouchDistance)
      ensures currentZoom != old(currentZoom) ==> MinZoom <= currentZoom <= MaxZoom
    {
      if editMode {
        return;
      }
      if isPanning && touches == 1 {
        currentPan := Point(panStartOffset.x + (touch.x - panStart.x), panStartOffset.y + (touch.y - panStart.y));
      } else if isZooming && touches == 2 {
        var newZoom := ClampZoom(currentZoom * scale);
        if newZoom != currentZoom {
          currentPan := recentred;
          currentZoom := newZoom;
          lastTouchDistance := distance;
        }
      }
    }

    /** `handleTouchEndGesture`: lifting every finger ends both gestures; lifting one of two turns a pinch into a pan. */
    method TouchEndGesture(touches: nat, touch: Point)
      modifies this`isPanning, this`isZooming, this`panStart, this`panStartOffset
      ensures old(editMode) ==> isPanning == old(isPanning) && isZooming == old(isZooming)
                                && panStart == old(panStart) && panStartOffset == old(panStartOffset)
      ensures !old(editMode) && touches == 0 ==>
                !isPanning && !isZooming && panStart == old(panStart) && panStartOffset == old(panStartOffset)
      ensures !old(editMode) && touches == 1 && old(isZooming) ==>
                isPanning && !isZooming && panStart == touch && panStartOffset == currentPan
      ensures !old(editMode) && touches != 0 && !(touches == 1 && old(isZooming)) ==>
                isPanning == old(isPanning) && isZooming == old(isZooming) && panStart == old(panStart)
                && panStartOffset == old(panStartOffset)
    {
      if editMode {
        return;
      }
      if touches == 0 {
        isPanning := false;
        isZooming := false;
      } else if touches == 1 && isZooming {
        isZooming := false;
        isPanning := true;
        panStart := touch;
        panStartOffset := currentPan;
      }
    }

    /** `handleResize`: switching to a desktop width resets zoom and pan; the refits on phones run from timers. */
    method HandleResize(nowMobile: bool)
      modifies this`isMobile, this`currentZoom, this`currentPan
      ensures isMobile == nowMobile
      ensures old(isMobile) && !nowMobile ==> currentZoom == 1.0 && currentPan == Point(0.0, 0.0)
      ensures !(old(isMobile) && !nowMobile) ==> currentZoom == old(currentZoom) && currentPan == old(currentPan)
    {
      var wasMobile := isMobile;
      isMobile := nowMobile;
      if wasMobile != isMobile && !isMobile {
        currentZoom := 1.0;
        currentPan := Point(0.0, 0.0);
      }
    }

    // ---------------------------------------------------------------- selection

    /** `selectStall`. */
    method SelectStall(stall: ElementId)
      modifies this`selectedStalls
      ensures selectedStalls == old(selectedStalls) + {stall}
    {
      selectedStalls := selectedStalls + {stall};
    }

    /** `deselectStall`. */
    method DeselectStall(stall: ElementId)
      modifies this`selectedStalls
      ensures selectedStalls == old(selectedStalls) - {stall}
    {
      selectedStalls := selectedStalls - {stall};
    }

    /** `toggleStallSelection`. */
    method ToggleStallSelection(stall: ElementId)
      modifies this`selectedStalls
      ensures selectedStalls == Toggled(old(selectedStalls), stall)
    {
      if stall in selectedStalls {
        DeselectStall(stall);
      } else {
        SelectStall(stall);
      }
    }

    /** `clearSelection`. */
    method ClearSelection()
      modifies this`selectedStalls
      ensures selectedStalls == {}
    {
      selectedStalls := {};
    }

    /** `toggleEditMode`: leaving edit mode clears the selection. */
    method ToggleEditMode()
      modifies this`editMode, this`selectedStalls
      ensures editMode == !old(editMode)
      ensures old(editMode) ==> selectedStalls == {}
      ensures !old(editMode) ==> selectedStalls == old(selectedStalls)
    {
      editMode := !editMode;
      if !editMode {
        ClearSelection();
      }
    }

    // ---------------------------------------------------------------- dragging

    /** `groupSelected`: with a selection, a group drag starts from the current position of every selected stall. */
    method GroupSelected()
      requires Valid()
      modifies this`groupDragging, this`groupStartPositions
      ensures Valid()
      ensures selectedStalls == {} ==> groupDragging == old(groupDragging) && groupStartPositions == old(groupStartPositions)
      ensures selectedStalls != {} ==> groupDragging && groupStartPositions == StartPositions(selectedStalls, positions)
    {
      if selectedStalls == {} {
        return;
      }
      groupDragging := true;
      var starts: map<ElementId, Point> := map[];
      var remaining := selectedStalls;
      while remaining != {}
        invariant remaining <= selectedStalls
        invariant starts == StartPositions(selectedStalls - remaining, positions)
        decreases |remaining|
      {
        var s :| s in remaining;
        starts := starts[s := PositionOf(positions, s)];
        remaining := remaining - {s};
      }
      groupStartPositions := starts;
    }

    /** `startDrag`: the element is dragged on its own from `client`, starting at its layout position `at`. */
    method StartDrag(element: ElementId, client: Point, at: Point)
      modifies this`draggedElement, this`startPos, this`elementPos
      ensures draggedElement == Some(element) && startPos == client && elementPos == at
    {
      draggedElement := Some(element);
      startPos := client;
      elementPos := at;
    }

    /** `updateDrag`: the dragged element moves by the cursor's travel in layout units, never off the layout. */
    method UpdateDrag(delta: Point)
      requires draggedElement.Some?
      modifies this`positions
      ensures positions == old(positions)[draggedElement.value := Dragged(elementPos, delta)]
      ensures positions[draggedElement.value].x >= 0.0 && positions[draggedElement.value].y >= 0.0
    {
      positions := positions[draggedElement.value := Dragged(elementPos, delta)];
    }

    /** `updateGroupDrag`: every selected stall with a start position moves by the same travel, never off the layout. */
    method UpdateGroupDrag(delta: Point)
      modifies this`positions
      ensures positions == GroupMoved(old(positions), selectedStalls, groupStartPositions, delta)
    {
      ghost var before := positions;
      var remaining := selectedStalls;
      while remaining != {}
        invariant remaining <= selectedStalls
        invariant positions == GroupMoved(before, selectedStalls - remaining, groupStartPositions, delta)
        decreases |remaining|
      {
        var s :| s in remaining;
        GroupMovedStep(before, selectedStalls - remaining, groupStartPositions, delta, s);
        if s in groupStartPositions {
          positions := positions[s := Dragged(groupStartPositions[s], delta)];
        }
        assert selectedStalls - (remaining - {s}) == (selectedStalls - remaining) + {s};
        remaining := remaining - {s};
      }
    }

    /** `endDrag`: the single drag ends, and a group drag ends with its start positions forgotten. */
    method EndDrag()
      requires Valid()
      modifies this`draggedElement, this`groupDragging, this`groupStartPositions
      ensures Valid()
      ensures draggedElement == None && !groupDragging && groupStartPositions == map[]
    {
      draggedElement := None;
      if groupDragging {
        groupDragging := false;
        groupStartPositions := map[];
      }
    }

    /**
     * `handleMouseStart` on an element: in edit mode and off a resize handle, ctrl or meta on a stall
     * only toggles it; otherwise a press on a stall selects it (see `PressSelection`), a selection of
     * more than one stall starts a group drag, and anything else starts a single drag.
     */
    method MouseStart(target: ElementId, isStall: bool, onResizeHandle: bool, ctrlOrMeta: bool, shift: bool,
                      client: Point, at: Point)
      requires Valid()
      modifies this`selectedStalls, this`groupDragging, this`groupStartPositions, this`draggedElement, this`startPos, this`elementPos
      ensures Valid()
      ensures !old(editMode) || onResizeHandle ==>
                selectedStalls == old(selectedStalls) && groupDragging == old(groupDragging)
                && draggedElement == old(draggedElement) && startPos == old(startPos)
      ensures old(editMode) && !onResizeHandle && isStall && ctrlOrMeta ==>
                selectedStalls == Toggled(old(selectedStalls), target)
                && groupDragging == old(groupDragging) && draggedElement == old(draggedElement) && startPos == old(startPos)
      ensures old(editMode) && !onResizeHandle && !(isStall && ctrlOrMeta) ==>
                selectedStalls == PressSelection(old(selectedStalls), target, isStall, shift)
                && startPos == client
                && (isStall && |selectedStalls| > 1 ==>
                      groupDragging && groupStartPositions == StartPositions(selectedStalls, positions)
                      && draggedElement == old(draggedElement))
                && (!(isStall && |selectedStalls| > 1) ==>
                      draggedElement == Some(target) && elementPos == at && groupDragging == old(groupDragging))
    {
      if !editMode || onResizeHandle {
        return;
      }
      if isStall && ctrlOrMeta {
        ToggleStallSelection(target);
        return;
      }
      if isStall {
        if target !in selectedStalls {
          if !shift {
            ClearSelection();
          }
          SelectStall(target);
        }
        if |selectedStalls| > 1 {
          GroupSelected();
          startPos := client;
          return;
        }
      }
      StartDrag(target, client, at);
    }

    /**
     * `handleTouchStart`: outside edit mode the touch starts a gesture (see `TouchStartGesture`); in
     * edit mode, off a resize handle, a touch on a stall of a larger selection drags the group and
     * any other touch drags the touched element.
     */
    method TouchStart(target: ElementId, isStall: bool, onResizeHandle: bool, touches: nat, touch: Point, at: Point, distance: real)
      requires Valid()
      modifies this`isPanning, this`isZooming, this`panStart, this`panStartOffset, this`lastTouchDistance
      modifies this`groupDragging, this`groupStartPositions, this`draggedElement, this`startPos, this`elementPos
      ensures Valid()
      ensures !old(editMode) ==>
                draggedElement == old(draggedElement) && groupDragging == old(groupDragging)
                && groupStartPositions == old(groupStartPositions) && startPos == old(startPos) && elementPos == old(elementPos)
      ensures !old(editMode) && touches == 1 ==>
                isPanning && isZooming == old(isZooming) && panStart == touch && panStartOffset == currentPan
                && lastTouchDistance == old(lastTouchDistance)
      ensures !old(editMode) && touches == 2 ==>
                !isPanning && isZooming && lastTouchDistance == distance
                && panStart == old(panStart) && panStartOffset == old(panStartOffset)
      ensures old(editMode) || (touches != 1 && touches != 2) ==>
                isPanning == old(isPanning) && isZooming == old(isZooming) && panStart == old(panStart)
                && panStartOffset == old(panStartOffset) && lastTouchDistance == old(lastTouchDistance)
      ensures old(editMode) && onResizeHandle ==>
                draggedElement == old(draggedElement) && groupDragging == old(groupDragging)
                && groupStartPositions == old(groupStartPositions) && startPos == old(startPos) && elementPos == old(elementPos)
      ensures old(editMode) && !onResizeHandle && isStall && target in selectedStalls && |selectedStalls| > 1 ==>
                groupDragging && groupStartPositions == StartPositions(selectedStalls, positions) && startPos == touch
                && draggedElement == old(draggedElement)
      ensures old(editMode) && !onResizeHandle && !(isStall && target in selectedStalls && |selectedStalls| > 1) ==>
                draggedElement == Some(target) && startPos == touch && elementPos == at && groupDragging == old(groupDragging)
    {
      if !editMode {
        TouchStartGesture(touches, touch, distance);
        return;
      }
      if onResizeHandle {
        return;
      }
      if isStall && target in selectedStalls && |selectedStalls| > 1 {
        GroupSelected();
        startPos := touch;
      } else {
        StartDrag(target, touch, at);
      }
    }

    /** `handleSelectionStart`: a press on the empty container starts the band, clearing the selection unless ctrl or meta is held. */
    method SelectionStart(onContainer: bool, ctrlOrMeta: bool, at: Point)
      modifies this`isSelecting, this`selectionStart, this`selectedStalls
      ensures !old(editMode) || !onContainer ==>
                isSelecting == old(isSelecting) && selectionStart == old(selectionStart) && selectedStalls == old(selectedStalls)
      ensures old(editMode) && onContainer ==>
                isSelecting && selectionStart == at
                && selectedStalls == (if ctrlOrMeta then old(selectedStalls) else {})
    {
      if !editMode || !onContainer {
        return;
      }
      isSelecting := true;
      selectionStart := at;
      if !ctrlOrMeta {
        ClearSelection();
      }
    }

    /**
     * `handleSelectionMove`: once the band is past the threshold, every stall lying wholly inside it
     * is added to the selection; no stall is ever removed.
     */
    method SelectionMove(at: Point, stalls: map<ElementId, Box>)
      modifies this`selectedStalls
      ensures var band := SelectionRect(selectionStart, at);
              selectedStalls == old(selectedStalls) + (if BandActive(band) then Enclosed(stalls, stalls.Keys, band) else {})
      ensures old(selectedStalls) <= selectedStalls
    {
      var band := SelectionRect(selectionStart, at);
      if !BandActive(band) {
        return;
      }
      ghost var before := selectedStalls;
      var remaining := stalls.Keys;
      while remaining != {}
        invariant remaining <= stalls.Keys
        invariant selectedStalls == before + Enclosed(stalls, stalls.Keys - remaining, band)
        decreases |remaining|
      {
        var s :| s in remaining;
        if Inside(stalls[s], band) && s !in selectedStalls {
          SelectStall(s);
        }
        remaining := remaining - {s};
      }
    }

    /** `handleMouseMove`: in edit mode the band, else the group drag, else the single drag follows the cursor. */
    method MouseMove(at: Point, delta: Point, stalls: map<ElementId, Box>)
      modifies this`selectedStalls, this`positions
      ensures !old(editMode) ==> selectedStalls == old(selectedStalls) && positions == old(positions)
      ensures old(editMode) && isSelecting ==>
                var band := SelectionRect(selectionStart, at);
                positions == old(positions)
                && selectedStalls == old(selectedStalls) + (if BandActive(band) then Enclosed(stalls, stalls.Keys, band) else {})
      ensures old(editMode) && !isSelecting && groupDragging ==>
                selectedStalls == old(selectedStalls) && positions == GroupMoved(old(positions), selectedStalls, groupStartPositions, delta)
      ensures old(editMode) && !isSelecting && !groupDragging && draggedElement.Some? ==>
                selectedStalls == old(selectedStalls) && positions == old(positions)[draggedElement.value := Dragged(elementPos, delta)]
      ensures old(editMode) && !isSelecting && !groupDragging && draggedElement.None? ==>
                selectedStalls == old(selectedStalls) && positions == old(positions)
    {
      if !editMode {
        return;
      }
      if isSelecting {
        SelectionMove(at, stalls);
      } else if groupDragging {
        UpdateGroupDrag(delta);
      } else if draggedElement.Some? {
        UpdateDrag(delta);
      }
    }

    /**
     * `handleTouchMove`: outside edit mode the finger drives the gesture (see `TouchMoveGesture`); in
     * edit mode the group drag, else the single drag, follows the first finger. There is no band on touch.
     */
    method TouchMove(touches: nat, touch: Point, distance: real, scale: real, recentred: Point, delta: Point)
      modifies this`currentZoom, this`currentPan, this`lastTouchDistance, this`positions
      ensures !old(editMode) ==> positions == old(positions)
      ensures !old(editMode) && isPanning && touches == 1 ==>
                currentPan.x - panStartOffset.x == touch.x - panStart.x && currentPan.y - panStartOffset.y == touch.y - panStart.y
                && currentZoom == old(currentZoom) && lastTouchDistance == old(lastTouchDistance)
      ensures !old(editMode) && !(isPanning && touches == 1) && isZooming && touches == 2 ==>
                var z := ClampZoom(old(currentZoom) * scale);
                currentZoom == z
                && (z != old(currentZoom) ==> currentPan == recentred && lastTouchDistance == distance)
                && (z == old(currentZoom) ==> currentPan == old(currentPan) && lastTouchDistance == old(lastTouchDistance))
      ensures old(editMode) || (!(isPanning && touches == 1) && !(isZooming && touches == 2)) ==>
                currentZoom == old(currentZoom) && currentPan == old(currentPan) && lastTouchDistance == old(lastTouchDistance)
      ensures old(editMode) && groupDragging ==>
                positions == GroupMoved(old(positions), selectedStalls, groupStartPositions, delta)
      ensures old(editMode) && !groupDragging && draggedElement.Some? ==>
                positions == old(positions)[draggedElement.value := Dragged(elementPos, delta)]
      ensures old(editMode) && !groupDragging && draggedElement.None? ==> positions == old(positions)
    {
      if !editMode {
        TouchMoveGesture(touches, touch, distance, scale, recentred);
        return;
      }
      if groupDragging {
        UpdateGroupDrag(delta);
      } else if draggedElement.Some? {
        UpdateDrag(delta);
      }
    }

    /**
     * `handleMouseEnd`: a band is closed, otherwise the drag ends. It has no
     * edit-mode test of its own: the mouseup listener is attached only while in
     * edit mode (js/drag-handler.js:324, removed at 344).
     */
    method MouseEnd()
      requires Valid()
      modifies this`isSelecting, this`draggedElement, this`groupDragging, this`groupStartPositions
      ensures Valid()
      ensures old(isSelecting) ==> !isSelecting && draggedElement == old(draggedElement) && groupDragging == old(groupDragging)
      ensures !old(isSelecting) ==> draggedElement == None && !groupDragging && groupStartPositions == map[]
    {
      if isSelecting {
        isSelecting := false;
      } else {
        EndDrag();
      }
    }

    /**
     * `handleTouchEnd`: outside edit mode the gesture ends (see `TouchEndGesture`): lifting every
     * finger ends pan and pinch, and lifting one of two turns a pinch into a pan; in edit mode the drag ends.
     */
    method TouchEnd(touches: nat, touch: Point)
      requires Valid()
      modifies this`isPanning, this`isZooming, this`panStart, this`panStartOffset
      modifies this`draggedElement, this`groupDragging, this`groupStartPositions
      ensures Valid()
      ensures !old(editMode) ==>
                draggedElement == old(draggedElement) && groupDragging == old(groupDragging)
                && groupStartPositions == old(groupStartPositions)
      ensures !old(editMode) && touches == 0 ==>
                !isPanning && !isZooming && panStart == old(panStart) && panStartOffset == old(panStartOffset)
      ensures !old(editMode) && touches == 1 && old(isZooming) ==>
                isPanning && !isZooming && panStart == touch && panStartOffset == currentPan
      ensures old(editMode) || (touches != 0 && !(touches == 1 && old(isZooming))) ==>
                isPanning == old(isPanning) && isZooming == old(isZooming) && panStart == old(panStart)
                && panStartOffset == old(panStartOffset)
      ensures old(editMode) ==> draggedElement == None && !groupDragging && groupStartPositions == map[]
    {
      if !editMode {
        TouchEndGesture(touches, touch);
        return;
      }
      EndDrag();
    }

    // ---------------------------------------------------------------- resizing and editing

    /** `handleResizeStart`: in edit mode the handle's area starts resizing from its current size. */
    method ResizeStart(area: ElementId, client: Point, size: Size)
      modifies this`resizingElement, this`startPos, this`startSize
      ensures old(editMode) ==> resizingElement == Some(area) && startPos == client && startSize == size
      ensures !old(editMode) ==> resizingElement == old(resizingElement) && startPos == old(startPos) && startSize == old(startSize)
    {
      if !editMode {
        return;
      }
      resizingElement := Some(area);
      startPos := client;
      startSize := size;
    }

    /** `handleResizeMove`: the area grows by the cursor's travel in layout units, never below 80 by 60. */
    method ResizeMove(delta: Point)
      modifies this`sizes
      ensures resizingElement.None? ==> sizes == old(sizes)
      ensures resizingElement.Some? ==> sizes == old(sizes)[resizingElement.value := Resized(startSize, delta)]
    {
      if resizingElement.None? {
        return;
      }
      sizes := sizes[resizingElement.value := Resized(startSize, delta)];
    }

    /** `handleResizeEnd`. */
    method ResizeEnd()
      modifies this`resizingElement
      ensures resizingElement == None
    {
      resizingElement := None;
    }

    /** `editStallNumber`: a prompt answer that is not cancelled and not blank replaces the stall's text, trimmed. */
    method EditStallNumber(stall: ElementId, answer: Option<string>)
      modifies this`labels
      ensures answer.Some? && Trim(answer.value) != "" ==> labels == old(labels)[stall := Trim(answer.value)]
      ensures !(answer.Some? && Trim(answer.value) != "") ==> labels == old(labels)
    {
      if answer.Some? && Trim(answer.value) != "" {
        labels := labels[stall := Trim(answer.value)];
      }
    }
  }
}
