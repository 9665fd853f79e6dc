/*
 * The phone helpers of the layout pages: which area a path belongs to, the
 * in-app navigation history, the classification of a finished touch, and the
 * screen-edge test. The distance a touch travelled is computed by the caller.
 */
module MobileUtils {
  import opened JsStrings

  // ---------------------------------------------------------------- areas and navigation

  const HomeUrl: string := "/"
  const RuskinUrl: string := "/ruskin-courtyard.html"
  const ScienceUrl: string := "/science-walkway.html"
  const LabUrl: string := "/lab-courtyard.html"

  /** The `urls` table of `navigateToArea`: the page of each known area. */
  function AreaUrl(area: string): (r: Option<string>)
    ensures r.Some? <==> area == "home" || area == "ruskin" || area == "science" || area == "lab"
  {
    if area == "home" then Some(HomeUrl)
    else if area == "ruskin" then Some(RuskinUrl)
    else if area == "science" then Some(ScienceUrl)
    else if area == "lab" then Some(LabUrl)
    else None
  }

  predicate KnownArea(area: string) {
    AreaUrl(area).Some?
  }

  /** `getCurrentArea`: the first of `ruskin`, `science` and `lab` the path contains, else `home`. */
  function GetCurrentArea(path: string): (a: string)
    ensures KnownArea(a)
  {
    if Includes(path, "ruskin") then "ruskin"
    else if Includes(path, "science") then "science"
    else if Includes(path, "lab") then "lab"
    else "home"
  }

  /** The tests are made in order, so a path naming two areas belongs to the earlier one in that order. */
  lemma GetCurrentAreaOrder(path: string)
    ensures GetCurrentArea(path) == "ruskin" <==> Includes(path, "ruskin")
    ensures GetCurrentArea(path) == "science" <==> !Includes(path, "ruskin") && Includes(path, "science")
    ensures GetCurrentArea(path) == "lab" <==> !Includes(path, "ruskin") && !Includes(path, "science") && Includes(path, "lab")
    ensures GetCurrentArea(path) == "home" <==> !Includes(path, "ruskin") && !Includes(path, "science") && !Includes(path, "lab")
  {
  }

  /** Navigating to an area lands on a page that is read back as that same area. */
  lemma AreaPageRoundTrip(area: string)
    requires KnownArea(area)
    ensures GetCurrentArea(AreaUrl(area).value) == area
  {
    if area == "ruskin" {
      RuskinPage();
    } else if area == "science" {
      SciencePage();
    } else if area == "lab" {
      LabPage();
    } else {
      HomePage();
    }
  }

  /** Each page's path is read back as its own area. */
  lemma RuskinPage()
    ensures GetCurrentArea(RuskinUrl) == "ruskin"
  {
    assert RuskinUrl[1..7] == "ruskin";
    assert OccursAt(RuskinUrl, "ruskin", 1);
  }

  lemma SciencePage()
    ensures GetCurrentArea(ScienceUrl) == "science"
  {
    CharAbsent(ScienceUrl, "ruskin", 0);
    assert ScienceUrl[1..8] == "science";
    assert OccursAt(ScienceUrl, "science", 1);
  }

  lemma LabPage()
    ensures GetCurrentArea(LabUrl) == "lab"
  {
    CharAbsent(LabUrl, "ruskin", 4);
    CharAbsent(LabUrl, "science", 0);
    assert LabUrl[1] == 'l' && LabUrl[2] == 'a' && LabUrl[3] == 'b';
    assert LabUrl[1..4] == "lab";
    assert OccursAt(LabUrl, "lab", 1);
  }

  lemma HomePage()
    ensures GetCurrentArea(HomeUrl) == "home"
  {
    CharAbsent(HomeUrl, "ruskin", 0);
    CharAbsent(HomeUrl, "science", 0);
    CharAbsent(HomeUrl, "lab", 0);
  }

  /** A text lacking one of the pattern's characters does not contain the pattern. */
  lemma CharAbsent(s: string, t: string, k: int)
    requires 0 <= k < |t| && t[k] !in s
    ensures !Includes(s, t)
  {
  }

  class NavigationUtils {
    var currentArea: string
    var history: seq<string>
    /** The page last navigated to, if any. */
    var location: Option<string>

    /** Only known areas are ever current or remembered. */
    ghost predicate Valid()
      reads this
    {
      KnownArea(currentArea) && forall k :: 0 <= k < |history| ==> KnownArea(history[k])
    }

    constructor(path: string)
      ensures Valid()
      ensures currentArea == GetCurrentArea(path) && history == [] && location == None
    {
      currentArea := GetCurrentArea(path);
      history := [];
      location := None;
    }

    /** `navigateToArea`: a known area is entered, remembering the one left; anything else is ignored. */
    method NavigateToArea(area: string)
      requires Valid()
      modifies this
      ensures Valid()
      ensures KnownArea(area) ==>
                history == old(history) + [old(currentArea)] && currentArea == area && location == AreaUrl(area)
      ensures !KnownArea(area) ==>
                history == old(history) && currentArea == old(currentArea) && location == old(location)
    {
      var url := AreaUrl(area);
      if url.Some? {
        history := history + [currentArea];
        currentArea := area;
        location := url;
      }
    }

    /**
     * `goBack`: with history, the last area is popped and navigated to, which pushes the area
     * left, so the history keeps its length; without history the app goes home.
     */
    method GoBack()
      requires Valid()
      modifies this
      ensures Valid()
      ensures old(history) != [] ==>
                var n := |old(history)|;
                currentArea == old(history)[n - 1] && history == old(history)[..n - 1] + [old(currentArea)]
                && |history| == n && location == AreaUrl(currentArea)
      ensures old(history) == [] ==>
                currentArea == "home" && history == [old(currentArea)] && location == Some(HomeUrl)
    {
      if |history| > 0 {
        var previous := history[|history| - 1];
        history := history[..|history| - 1];
        NavigateToArea(previous);
      } else {
        NavigateToArea("home");
      }
    }

    /** The browser's back button: the current area is read again from the path. */
    method OnPopState(path: string)
      requires Valid()
      modifies this
      ensures Valid()
      ensures currentArea == GetCurrentArea(path) && history == old(history) && location == old(location)
    {
      currentArea := GetCurrentArea(path);
    }
  }

  // ---------------------------------------------------------------- touch gestures

  const TapThreshold: real := 300.0
  const LongPressThreshold: real := 500.0
  const SwipeThreshold: real := 50.0
  /** A touch that moved less than this is a tap or a long press. */
  const StillDistance: real := 10.0
  const EdgeSwipeThreshold: real := 30.0

  datatype GestureKind = LongPress | Swipe | Tap | Unknown

  /** `detectGesture` on a touch that travelled `distance` pixels in `duration` milliseconds. */
  function DetectGesture(distance: real, duration: real): GestureKind {
    if duration > LongPressThreshold && distance < StillDistance then LongPress
    else if distance > SwipeThreshold then Swipe
    else if duration < TapThreshold && distance < StillDistance then Tap
    else Unknown
  }

  /**
   * The kinds need no order after all: each is described by its own test, so any travel over
   * 50 pixels is a swipe however long it took.
   */
  lemma GestureKinds(distance: real, duration: real)
    ensures DetectGesture(distance, duration) == LongPress <==> duration > LongPressThreshold && distance < StillDistance
    ensures DetectGesture(distance, duration) == Swipe <==> distance > SwipeThreshold
    ensures DetectGesture(distance, duration) == Tap <==> duration < TapThreshold && distance < StillDistance
    ensures DetectGesture(distance, duration) == Unknown <==>
              distance <= SwipeThreshold && !(distance < StillDistance && (duration > LongPressThreshold || duration < TapThreshold))
  {
  }

  /** Which screen edges a touch at (`x`, `y`) is near, on a `width` by `height` screen. */
  datatype Edges = Edges(left: bool, right: bool, top: bool, bottom: bool)

  function IsEdgeTouch(x: real, y: real, width: real, height: real, threshold: real): (e: Edges)
    ensures e.left <==> x < threshold
    ensures e.right <==> x > width - threshold
    ensures e.top <==> y < threshold
    ensures e.bottom <==> y > height - threshold
  {
    Edges(x < threshold, x > width - threshold, y < threshold, y > height - threshold)
  }

  /** On a screen wider and taller than two thresholds, no touch is near opposite edges at once. */
  lemma EdgesExclusive(x: real, y: real, width: real, height: real, threshold: real)
    requires width >= 2.0 * threshold && height >= 2.0 * threshold
    ensures !(IsEdgeTouch(x, y, width, height, threshold).left && IsEdgeTouch(x, y, width, height, threshold).right)
    ensures !(IsEdgeTouch(x, y, width, height, threshold).top && IsEdgeTouch(x, y, width, height, threshold).bottom)
  {
  }
}
