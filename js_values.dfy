/*
 * Parsed JSON values as the page scripts see them, with the few JavaScript
 * operations they apply to them: truthiness, `a || b`, property access,
 * `typeof v === 'object'`, `String(v)` and `parseInt(v)`.
 * Numbers are the integer subset used by the data files.
 */
module JsValues {
  import opened JsStrings

  datatype JsVal =
    | Undefined
    | Null
    | Bool(b: bool)
    | Number(n: Num)
    | Str(s: string)
    | Arr(items: seq<JsVal>)
    | Obj(fields: map<string, JsVal>)

  /** JavaScript truthiness: `undefined`, `null`, `false`, `0`, `NaN` and `''` are falsy. */
  predicate Truthy(v: JsVal) {
    match v
    case Undefined => false
    case Null => false
    case Bool(b) => b
    case Number(n) => n.Int? && n.v != 0
    case Str(s) => s != ""
    case Arr(_) => true
    case Obj(_) => true
  }

  /** `a || b`: the first operand when it is truthy, otherwise the second. */
  function Or(a: JsVal, b: JsVal): (r: JsVal)
    ensures r == a || r == b
    ensures Truthy(r) <==> Truthy(a) || Truthy(b)
  {
    if Truthy(a) then a else b
  }

  /** `v && typeof v === 'object'`: arrays and objects, not `null`. */
  predicate IsObject(v: JsVal) {
    v.Arr? || v.Obj?
  }

  /** `v[key]` on a value that is not `null` or `undefined`; a missing property reads as `undefined`. */
  function Get(v: JsVal, key: string): (r: JsVal)
    ensures !v.Obj? ==> r == Undefined
  {
    if v.Obj? && key in v.fields then v.fields[key] else Undefined
  }

  /** Property access that throws a TypeError on `null` and `undefined`. */
  function GetChecked(v: JsVal, key: string): (r: Option<JsVal>)
    ensures r.None? <==> v.Null? || v.Undefined?
    ensures r.Some? ==> r.value == Get(v, key)
  {
    if v.Null? || v.Undefined? then None else Some(Get(v, key))
  }

  /** `String(v)`: arrays join their elements with commas, `null` and `undefined` elements printing as empty. */
  function ToJsString(v: JsVal): string
    decreases v, 1
  {
    match v
    case Undefined => "undefined"
    case Null => "null"
    case Bool(b) => if b then "true" else "false"
    case Number(n) => NumToString(n)
    case Str(s) => s
    case Arr(items) => JoinElements(v, items)
    case Obj(_) => "[object Object]"
  }

  function JoinElements(parent: JsVal, items: seq<JsVal>): string
    requires forall k :: 0 <= k < |items| ==> items[k] < parent
    decreases parent, 0, |items|
  {
    if items == [] then ""
    else
      var first := if items[0].Null? || items[0].Undefined? then "" else ToJsString(items[0]);
      if |items| == 1 then first else first + "," + JoinElements(parent, items[1..])
  }

  /** `parseInt(v)`: the argument is converted to text first. */
  function ParseIntValue(v: JsVal): Num {
    ParseInt(ToJsString(v))
  }

  /** `sanitizeString(v)`: text is trimmed and stripped of angle brackets, anything else becomes empty. */
  function SanitizeValue(v: JsVal): (r: string)
    ensures '<' !in r && '>' !in r
    ensures !v.Str? ==> r == ""
  {
    if v.Str? then Sanitize(v.s) else ""
  }

  /** `parseInt(x) || 0`: NaN falls back to 0. */
  function NumberOrZero(n: Num): (r: int)
    ensures n.Int? ==> r == n.v
    ensures n.NaN? ==> r == 0
  {
    if n.Int? then n.v else 0
  }

  /** A number value reads back as itself through `parseInt`. */
  lemma ParseIntNumber(i: int)
    ensures ParseIntValue(Number(Int(i))) == Int(i)
  {
    ParseIntIntToString(i);
  }

  /** A one-element array reads through `parseInt` as its element. */
  lemma ParseIntSingleton(v: JsVal)
    requires !v.Null? && !v.Undefined?
    ensures ParseIntValue(Arr([v])) == ParseIntValue(v)
  {
    assert ToJsString(Arr([v])) == JoinElements(Arr([v]), [v]);
  }

  /** Values that are not text, numbers or arrays never parse to a number. */
  lemma ParseIntNonNumeric(v: JsVal)
    requires v.Undefined? || v.Null? || v.Bool? || v.Obj?
    ensures ParseIntValue(v) == NaN
  {
    var t := ToJsString(v);
    assert t != [] && !IsSpace(t[0]) && t[0] != '-' && t[0] != '+' && !IsDigit(t[0]);
    TrimStartUnchanged(t);
  }

  /** `xs.filter(keep)`: the elements that pass, in order. */
  function Filter<T>(keep: T -> bool, xs: seq<T>): (r: seq<T>)
    ensures |r| <= |xs|
  {
    if xs == [] then [] else (if keep(xs[0]) then [xs[0]] else []) + Filter(keep, xs[1..])
  }

  /** An element is kept exactly when it is listed and passes. */
  lemma {:induction false} FilterMembers<T>(keep: T -> bool, xs: seq<T>)
    ensures forall x :: x in Filter(keep, xs) <==> x in xs && keep(x)
  {
    if xs != [] {
      FilterMembers(keep, xs[1..]);
      assert xs == [xs[0]] + xs[1..];
    }
  }

  /** Two prefixes of which one is empty can be taken in either order. */
  lemma PrefixesCommute<T>(a: seq<T>, b: seq<T>, w: seq<T>)
    requires a == [] || b == []
    ensures b + (a + w) == a + (b + w)
  {
  }

  /** `xs.map(f).filter(x => x !== null)`: the present results, in order. */
  function MapPresent<A, B>(f: A -> Option<B>, xs: seq<A>): (r: seq<B>)
    ensures |r| <= |xs|
  {
    if xs == [] then []
    else
      var rest := MapPresent(f, xs[..|xs| - 1]);
      match f(xs[|xs| - 1])
      case Some(y) => rest + [y]
      case None => rest
  }

  /** A value is kept exactly when some element maps to it. */
  lemma {:induction false} MapPresentMembership<A, B>(f: A -> Option<B>, xs: seq<A>, y: B)
    ensures y in MapPresent(f, xs) <==> exists i :: 0 <= i < |xs| && f(xs[i]) == Some(y)
  {
    if xs != [] {
      var init := xs[..|xs| - 1];
      MapPresentMembership(f, init, y);
      if exists i :: 0 <= i < |xs| && f(xs[i]) == Some(y) {
        var i :| 0 <= i < |xs| && f(xs[i]) == Some(y);
        if i < |xs| - 1 {
          assert init[i] == xs[i];
        }
      }
      if exists i :: 0 <= i < |init| && f(init[i]) == Some(y) {
        var i :| 0 <= i < |init| && f(init[i]) == Some(y);
        assert xs[i] == init[i];
      }
    }
  }

  /** `xs.map(f)` where `f` may throw: `None` as soon as one call throws. */
  function MapAll<A, B>(f: A -> Option<B>, xs: seq<A>): (r: Option<seq<B>>)
    ensures r.Some? ==> |r.value| == |xs|
  {
    if xs == [] then Some([])
    else
      match MapAll(f, xs[..|xs| - 1])
      case None => None
      case Some(init) =>
        match f(xs[|xs| - 1])
        case None => None
        case Some(y) => Some(init + [y])
  }

  /** The map fails exactly when some call throws, and otherwise holds every result in place. */
  lemma {:induction false} MapAllSpec<A, B>(f: A -> Option<B>, xs: seq<A>)
    ensures MapAll(f, xs).None? <==> exists k :: 0 <= k < |xs| && f(xs[k]).None?
    ensures MapAll(f, xs).Some? ==> forall k :: 0 <= k < |xs| ==> f(xs[k]) == Some(MapAll(f, xs).value[k])
  {
    if xs != [] {
      var init := xs[..|xs| - 1];
      MapAllSpec(f, init);
      assert forall k :: 0 <= k < |init| ==> init[k] == xs[k];
    }
  }

  /** `xs.forEach(x => out.push(...f(x)))` where `f` may throw: the results in order, `None` as soon as one call throws. */
  function FlatMapAll<A, B>(f: A -> Option<seq<B>>, xs: seq<A>): Option<seq<B>> {
    if xs == [] then Some([])
    else
      match FlatMapAll(f, xs[..|xs| - 1])
      case None => None
      case Some(init) =>
        match f(xs[|xs| - 1])
        case None => None
        case Some(ys) => Some(init + ys)
  }

  /** The walk fails exactly when some call throws. */
  lemma {:induction false} FlatMapAllFails<A, B>(f: A -> Option<seq<B>>, xs: seq<A>)
    ensures FlatMapAll(f, xs).None? <==> exists k :: 0 <= k < |xs| && f(xs[k]).None?
  {
    if xs != [] {
      var n := |xs| - 1;
      var init := xs[..n];
      FlatMapAllFails(f, init);
      if FlatMapAll(f, init).None? {
        var k :| 0 <= k < |init| && f(init[k]).None?;
        assert xs[k] == init[k];
      } else if f(xs[n]).Some? {
        forall k | 0 <= k < |xs|
          ensures f(xs[k]).Some?
        {
          if k < n {
            assert xs[k] == init[k];
          }
        }
      }
    }
  }

  /** When nothing throws, the walk collects exactly the calls' results. */
  lemma {:induction false} FlatMapAllMembers<A, B>(f: A -> Option<seq<B>>, xs: seq<A>, y: B)
    requires FlatMapAll(f, xs).Some?
    ensures y in FlatMapAll(f, xs).value <==> exists k :: 0 <= k < |xs| && f(xs[k]).Some? && y in f(xs[k]).value
  {
    if xs != [] {
      var n := |xs| - 1;
      var init := xs[..n];
      FlatMapAllMembers(f, init, y);
      if exists k :: 0 <= k < |xs| && f(xs[k]).Some? && y in f(xs[k]).value {
        var k :| 0 <= k < |xs| && f(xs[k]).Some? && y in f(xs[k]).value;
        if k < n {
          assert xs[k] == init[k];
        }
      }
      if exists k :: 0 <= k < |init| && f(init[k]).Some? && y in f(init[k]).value {
        var k :| 0 <= k < |init| && f(init[k]).Some? && y in f(init[k]).value;
        assert xs[k] == init[k];
      }
    }
  }

  /** Walking one more element extends the walk by that element's results. */
  lemma FlatMapAllPrefix<A, B>(f: A -> Option<seq<B>>, xs: seq<A>, i: int, acc: seq<B>, ys: seq<B>)
    requires 0 <= i < |xs| && FlatMapAll(f, xs[..i]) == Some(acc) && f(xs[i]) == Some(ys)
    ensures FlatMapAll(f, xs[..i + 1]) == Some(acc + ys)
  {
    assert xs[..i + 1][..i] == xs[..i];
  }
}
