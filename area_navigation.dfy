/*
 * The landing page's area cards: the arrow-key focus movement, which wraps
 * around the row of cards, the Enter/Space activation, the page each area
 * card leads to, and the initial tab order.
 */
module AreaNavigation {
  import opened JsStrings
  import MobileUtils

  /** What a key press on the landing page does. */
  datatype KeyOutcome =
    | Focus(index: nat)   // the card at `index` receives focus
    | Activate            // the focused card is clicked
    | Ignored             // nothing happens
    | Throws              // `cards[k].focus()` on a missing card: a TypeError

  /**
   * ArrowRight/ArrowDown: `(currentIndex + 1) % n`. Both operands are non-negative, so
   * JavaScript's truncating remainder and Dafny's agree here.
   */
  function NextIndex(i: int, n: nat): (r: nat)
    requires n > 0 && -1 <= i < n
    ensures r < n
    ensures i == n - 1 ==> r == 0
    ensures i < n - 1 ==> r == i + 1
  {
    (i + 1) % n
  }

  /** ArrowLeft/ArrowUp: `n - 1` when no card is focused, else `(currentIndex - 1 + n) % n`. */
  function PrevIndex(i: int, n: nat): (r: nat)
    requires n > 0 && -1 <= i < n
    ensures r < n
    ensures i <= 0 ==> r == n - 1
    ensures i > 0 ==> r == i - 1
  {
    if i == -1 then n - 1 else (i - 1 + n) % n
  }

  /**
   * The keydown handler, given the index of the focused element among the `n` cards
   * (`-1` when the focus is elsewhere, as `indexOf` reports). With no cards the index
   * is `NaN` and focusing the missing card throws.
   */
  function HandleKey(key: string, i: int, n: nat): (r: KeyOutcome)
    requires -1 <= i < n
    ensures r.Focus? ==> r.index < n
    ensures r.Throws? <==> n == 0 && key in {"ArrowRight", "ArrowDown", "ArrowLeft", "ArrowUp"}
    ensures r.Activate? <==> i >= 0 && key in {"Enter", " "}
  {
    if key == "ArrowRight" || key == "ArrowDown" then
      if n == 0 then Throws else Focus(NextIndex(i, n))
    else if key == "ArrowLeft" || key == "ArrowUp" then
      if n == 0 then Throws else Focus(PrevIndex(i, n))
    else if key == "Enter" || key == " " then
      if i >= 0 then Activate else Ignored
    else Ignored
  }

  /** Moving forward then back, or back then forward, returns to the card one started on. */
  lemma NextPrevInverse(i: int, n: nat)
    requires n > 0 && 0 <= i < n
    ensures PrevIndex(NextIndex(i, n), n) == i
    ensures NextIndex(PrevIndex(i, n), n) == i
  {
  }

  /** Pressing ArrowRight `k` times from card `i` (the focus reached by repeated presses). */
  function Forward(i: nat, n: nat, k: nat): (r: nat)
    requires i < n
    ensures r < n
  {
    if k == 0 then i else NextIndex(Forward(i, n, k - 1), n)
  }

  /** Within fewer than `n` presses, ArrowRight walks the cards in order and wraps once past the last. */
  lemma {:induction false} ForwardSteps(i: nat, n: nat, k: nat)
    requires i < n && k < n
    ensures Forward(i, n, k) == if i + k < n then i + k else i + k - n
  {
    if k > 0 {
      ForwardSteps(i, n, k - 1);
    }
  }

  /** Every card is reached from every starting card by fewer than `n` presses of ArrowRight. */
  lemma ForwardReaches(i: nat, n: nat, j: nat)
    requires i < n && j < n
    ensures exists k :: 0 <= k < n && Forward(i, n, k) == j
  {
    var k := if i <= j then j - i else j + n - i;
    ForwardSteps(i, n, k);
  }

  /** The page `navigateToArea` opens for an area card, relative to the landing page; other areas open nothing. */
  function AreaPage(area: string): (r: Option<string>)
    ensures r.Some? <==> area == "ruskin" || area == "science" || area == "lab"
  {
    if area == "ruskin" then Some("ruskin-courtyard.html")
    else if area == "science" then Some("science-walkway.html")
    else if area == "lab" then Some("lab-courtyard.html")
    else None
  }

  /** The landing page and the phone navigation helpers send each area card to the same page. */
  lemma AreaPageAgrees(area: string)
    requires AreaPage(area).Some?
    ensures MobileUtils.AreaUrl(area) == Some("/" + AreaPage(area).value)
  {
    if area == "ruskin" {
      RootedPage("ruskin-courtyard.html", MobileUtils.RuskinUrl);
    } else if area == "science" {
      RootedPage("science-walkway.html", MobileUtils.ScienceUrl);
    } else {
      RootedPage("lab-courtyard.html", MobileUtils.LabUrl);
    }
  }

  /** A page name and a path that is the same name after a leading slash. */
  lemma RootedPage(page: string, url: string)
    requires |url| == |page| + 1 && url[0] == '/' && url[1..] == page
    ensures url == "/" + page
  {
    assert url == [url[0]] + url[1..];
  }

  /** The `tabindex` given to the card at position `k`. */
  function TabIndex(k: int): (r: string)
    ensures r == "0" || r == "-1"
  {
    if k == 0 then "0" else "-1"
  }

  /** The `tabindex` attributes of `n` cards, in document order. */
  function TabIndices(n: nat): (r: seq<string>)
    ensures |r| == n
  {
    seq(n, k => TabIndex(k))
  }

  /** Exactly one card, the first, is reached by the Tab key; the others only by the arrow keys. */
  lemma SingleTabStop(n: nat)
    ensures forall k :: 0 <= k < n ==> (TabIndices(n)[k] == "0" <==> k == 0)
  {
  }
}
