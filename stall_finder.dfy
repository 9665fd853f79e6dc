/*
 * The public stall finder: turning the raw stall list into records with
 * their left and right neighbours, the capped name search, the split of a
 * name into highlighted and plain segments, the autocomplete cursor, the
 * location filter, the display order and the link to a stall's map.
 */
module StallFinderModel {
  import opened JsStrings
  import opened JsValues

  datatype Neighbour = Neighbour(name: string, stallNumber: int)

  /** A processed stall record. */
  datatype Stall = Stall(name: string, stallNumber: int, location: string, group: string,
                         leftNeighbour: Option<Neighbour>, rightNeighbour: Option<Neighbour>)

  // ------------------------------------------------------------------ raw records

  /** `stall.stallNumber || stall['STALL NUMBER']`, read through `parseInt`. */
  function RawNumber(v: JsVal): Num {
    ParseIntValue(Or(Get(v, "stallNumber"), Get(v, "STALL NUMBER")))
  }

  /** `stall.location || stall.LOCATION`, not sanitised. */
  function RawLocation(v: JsVal): JsVal {
    Or(Get(v, "location"), Get(v, "LOCATION"))
  }

  /** `sanitizeString(neighbour.name || neighbour.NAME)`. */
  function NeighbourName(v: JsVal): string {
    SanitizeValue(Or(Get(v, "name"), Get(v, "NAME")))
  }

  /** What the neighbour lookup reads of one raw entry. */
  datatype RawEntry = RawEntry(nullish: bool, number: Num, location: JsVal, name: string)

  function Summarize(v: JsVal): (e: RawEntry)
    ensures e.nullish <==> v.Null? || v.Undefined?
    ensures e.number == RawNumber(v) && e.location == RawLocation(v) && e.name == NeighbourName(v)
  {
    RawEntry(v.Null? || v.Undefined?, RawNumber(v), RawLocation(v), NeighbourName(v))
  }

  /** The raw list as the neighbour lookup sees it. */
  function Summaries(data: seq<JsVal>): (r: seq<RawEntry>)
    ensures |r| == |data| && forall i :: 0 <= i < |data| ==> r[i] == Summarize(data[i])
  {
    seq(|data|, i requires 0 <= i < |data| => Summarize(data[i]))
  }

  /** The test `findNeighbour` applies to each raw entry: same number and the very same location text. */
  predicate IsNeighbourEntry(e: RawEntry, n: int, location: string) {
    e.number == Int(n) && e.location == Str(location)
  }

  /** The first entry at or after `from` that passes the neighbour test, or -1. */
  function FirstNeighbourEntry(entries: seq<RawEntry>, n: int, location: string, from: nat): (r: int)
    requires from <= |entries|
    ensures r == -1 || (from <= r < |entries| && IsNeighbourEntry(entries[r], n, location))
    ensures forall i :: from <= i < |entries| && (r == -1 || i < r) ==> !IsNeighbourEntry(entries[i], n, location)
    decreases |entries| - from
  {
    if from == |entries| then -1
    else if IsNeighbourEntry(entries[from], n, location) then from
    else FirstNeighbourEntry(entries, n, location, from + 1)
  }

  /**
   * `findNeighbour` with null entries skipped: nothing for a number that is not
   * positive, otherwise the name of the first entry with that number and that location.
   */
  function FindNeighbour(entries: seq<RawEntry>, n: int, location: string): (r: Option<Neighbour>)
    ensures n <= 0 ==> r.None?
    ensures r.Some? ==> r.value.stallNumber == n
    ensures r.Some? ==> exists i :: 0 <= i < |entries| && IsNeighbourEntry(entries[i], n, location)
                                    && r.value.name == entries[i].name
                                    && forall j :: 0 <= j < i ==> !IsNeighbourEntry(entries[j], n, location)
    ensures r.None? && n > 0 ==> forall i :: 0 <= i < |entries| ==> !IsNeighbourEntry(entries[i], n, location)
  {
    if n <= 0 then None
    else
      var i := FirstNeighbourEntry(entries, n, location, 0);
      if i == -1 then None else Some(Neighbour(entries[i].name, n))
  }

  /** What `findNeighbour` as written does: it may throw. */
  datatype Lookup = Throws | Returns(value: Option<Neighbour>)

  /** `data.find(...)` as written: reading `stall.stallNumber` of a `null` entry throws a TypeError. */
  function FindFromAsWritten(entries: seq<RawEntry>, n: int, location: string, from: nat): Lookup
    requires from <= |entries|
    decreases |entries| - from
  {
    if from == |entries| then Returns(None)
    else if entries[from].nullish then Throws
    else if IsNeighbourEntry(entries[from], n, location) then Returns(Some(Neighbour(entries[from].name, n)))
    else FindFromAsWritten(entries, n, location, from + 1)
  }

  function FindNeighbourAsWritten(entries: seq<RawEntry>, n: int, location: string): Lookup {
    if n <= 0 then Returns(None) else FindFromAsWritten(entries, n, location, 0)
  }

  /** A record with the usual keys, as the data file holds it. */
  function LowerRecord(name: string, n: int, location: string, group: string): JsVal {
    Obj(map["name" := Str(name), "stallNumber" := Number(Int(n)), "location" := Str(location), "group" := Str(group)])
  }

  /** The same record with the upper-case keys of the spreadsheet export. */
  function UpperRecord(name: string, n: int, location: string, group: string): JsVal {
    Obj(map["NAME" := Str(name), "STALL NUMBER" := Number(Int(n)), "LOCATION" := Str(location), "GROUP" := Str(group)])
  }

  lemma LowerRecordReads(name: string, n: int, location: string, group: string)
    ensures var a := LowerRecord(name, n, location, group);
            Get(a, "name") == Str(name) && Get(a, "NAME") == Undefined
            && Get(a, "stallNumber") == Number(Int(n)) && Get(a, "STALL NUMBER") == Undefined
            && Get(a, "location") == Str(location) && Get(a, "LOCATION") == Undefined
            && Get(a, "group") == Str(group) && Get(a, "GROUP") == Undefined
  {
  }

  lemma UpperRecordReads(name: string, n: int, location: string, group: string)
    ensures var b := UpperRecord(name, n, location, group);
            Get(b, "name") == Undefined && Get(b, "NAME") == Str(name)
            && Get(b, "stallNumber") == Undefined && Get(b, "STALL NUMBER") == Number(Int(n))
            && Get(b, "location") == Undefined && Get(b, "LOCATION") == Str(location)
            && Get(b, "group") == Undefined && Get(b, "GROUP") == Str(group)
  {
  }

  /** What the lookup reads of a well-formed record. */
  lemma LowerRecordEntry(name: string, n: int, location: string, group: string)
    requires name != "" && n != 0 && location != ""
    ensures Summarize(LowerRecord(name, n, location, group)) == RawEntry(false, Int(n), Str(location), Sanitize(name))
  {
    LowerRecordReads(name, n, location, group);
    ParseIntNumber(n);
  }

  lemma NullEntry()
    ensures Summarize(Null) == RawEntry(true, NaN, Undefined, "")
  {
    assert Get(Null, "stallNumber") == Undefined && Get(Null, "STALL NUMBER") == Undefined;
    ParseIntNonNumeric(Undefined);
    assert RawNumber(Null) == NaN;
    assert RawLocation(Null) == Undefined;
    assert NeighbourName(Null) == "";
  }

  /**
   * A `null` entry before the neighbour makes the lookup throw, and with it the whole
   * of `processStallData`, although the list's own filter means to skip such entries.
   */
  lemma NullEntryThrows(name: string, n: int, location: string, group: string)
    requires name != "" && n > 0 && location != ""
    ensures FindNeighbourAsWritten(Summaries([Null, LowerRecord(name, n, location, group)]), n, location) == Throws
    ensures FindNeighbour(Summaries([Null, LowerRecord(name, n, location, group)]), n, location) == Some(Neighbour(Sanitize(name), n))
  {
    var entries := Summaries([Null, LowerRecord(name, n, location, group)]);
    LowerRecordEntry(name, n, location, group);
    NullEntry();
    NullFirst(entries, n, location, Sanitize(name));
  }

  /** The lookups on a `null` entry followed by the neighbour itself. */
  lemma NullFirst(entries: seq<RawEntry>, n: int, location: string, name: string)
    requires n > 0 && |entries| == 2
    requires entries[0] == RawEntry(true, NaN, Undefined, "")
    requires entries[1] == RawEntry(false, Int(n), Str(location), name)
    ensures FindNeighbourAsWritten(entries, n, location) == Throws
    ensures FindNeighbour(entries, n, location) == Some(Neighbour(name, n))
  {
    assert FirstNeighbourEntry(entries, n, location, 0) == 1;
  }

  /** On data without `null` or `undefined` entries both lookups agree. */
  lemma {:induction false} FindAsWrittenAgrees(entries: seq<RawEntry>, n: int, location: string, from: nat)
    requires from <= |entries| && n > 0
    requires forall i :: 0 <= i < |entries| ==> !entries[i].nullish
    ensures FindFromAsWritten(entries, n, location, from) ==
              Returns(var i := FirstNeighbourEntry(entries, n, location, from);
                      if i == -1 then None else Some(Neighbour(entries[i].name, n)))
    decreases |entries| - from
  {
    if from < |entries| && !IsNeighbourEntry(entries[from], n, location) {
      FindAsWrittenAgrees(entries, n, location, from + 1);
    }
  }

  /** On such data the lookup as written is exactly the corrected one. */
  lemma FindNeighbourAgrees(entries: seq<RawEntry>, n: int, location: string)
    requires forall i :: 0 <= i < |entries| ==> !entries[i].nullish
    ensures FindNeighbourAsWritten(entries, n, location) == Returns(FindNeighbour(entries, n, location))
  {
    if n > 0 {
      FindAsWrittenAgrees(entries, n, location, 0);
    }
  }

  /** `stall.name || stall.NAME || ''`, sanitised. */
  function RecordName(v: JsVal): string {
    SanitizeValue(Or(Or(Get(v, "name"), Get(v, "NAME")), Str("")))
  }

  function RecordLocation(v: JsVal): string {
    SanitizeValue(Or(Or(Get(v, "location"), Get(v, "LOCATION")), Str("")))
  }

  function RecordGroup(v: JsVal): string {
    SanitizeValue(Or(Or(Get(v, "group"), Get(v, "GROUP")), Str("")))
  }

  /** The callback of `processStallData`: a record with its neighbours, or nothing for a dropped entry. */
  function ProcessRecord(entries: seq<RawEntry>, v: JsVal): (r: Option<Stall>)
    ensures !IsObject(v) ==> r.None?
    ensures r.Some? ==> r.value.name != "" && r.value.stallNumber > 0 && RawNumber(v) == Int(r.value.stallNumber)
    ensures r.Some? ==> (r.value.leftNeighbour.Some? ==> r.value.leftNeighbour.value.stallNumber == r.value.stallNumber - 1)
                        && (r.value.rightNeighbour.Some? ==> r.value.rightNeighbour.value.stallNumber == r.value.stallNumber + 1)
  {
    if !IsObject(v) then None
    else MakeRecord(entries, RecordName(v), NumberOrZero(RawNumber(v)), RecordLocation(v), RecordGroup(v))
  }

  /** The record built from the fields read: dropped without a name or a positive number. */
  function MakeRecord(entries: seq<RawEntry>, name: string, n: int, location: string, group: string): (r: Option<Stall>)
    ensures r.None? <==> name == "" || n <= 0
    ensures r.Some? ==> r.value.name == name && r.value.stallNumber == n
    ensures r.Some? ==> (r.value.leftNeighbour.Some? ==> r.value.leftNeighbour.value.stallNumber == n - 1)
                        && (r.value.rightNeighbour.Some? ==> r.value.rightNeighbour.value.stallNumber == n + 1)
  {
    if name == "" || n <= 0 then None
    else Some(Stall(name, n, location, group, FindNeighbour(entries, n - 1, location), FindNeighbour(entries, n + 1, location)))
  }

  /** `processStallData` with null entries skipped by the neighbour lookup. */
  function ProcessStallData(data: seq<JsVal>): seq<Stall> {
    var entries := Summaries(data);
    MapPresent(v => ProcessRecord(entries, v), data)
  }

  /**
   * Every processed record has a name and a positive number read from some raw
   * entry, and its neighbours carry the numbers one below and one above; conversely
   * every entry that passes the checks is kept.
   */
  lemma ProcessStallDataSpec(data: seq<JsVal>)
    ensures forall s :: s in ProcessStallData(data) ==>
              s.name != "" && s.stallNumber > 0
              && (s.leftNeighbour.Some? ==> s.leftNeighbour.value.stallNumber == s.stallNumber - 1)
              && (s.rightNeighbour.Some? ==> s.rightNeighbour.value.stallNumber == s.stallNumber + 1)
              && exists i :: 0 <= i < |data| && RawNumber(data[i]) == Int(s.stallNumber) && IsObject(data[i])
    ensures forall i :: 0 <= i < |data| && ProcessRecord(Summaries(data), data[i]).Some? ==>
              ProcessRecord(Summaries(data), data[i]).value in ProcessStallData(data)
  {
    var entries := Summaries(data);
    var f := v => ProcessRecord(entries, v);
    forall s | s in ProcessStallData(data)
      ensures exists i :: 0 <= i < |data| && ProcessRecord(entries, data[i]) == Some(s)
    {
      MapPresentMembership(f, data, s);
    }
    forall i | 0 <= i < |data| && ProcessRecord(entries, data[i]).Some?
      ensures ProcessRecord(entries, data[i]).value in ProcessStallData(data)
    {
      MapPresentMembership(f, data, ProcessRecord(entries, data[i]).value);
    }
  }

  /** `x || y || ''` sanitised reads the same whichever of the two keys holds the value. */
  lemma EitherKey(x: JsVal)
    ensures SanitizeValue(Or(Or(x, Undefined), Str(""))) == SanitizeValue(Or(Or(Undefined, x), Str("")))
  {
  }

  /** `parseInt(x || y) || 0` reads the same whichever of the two keys holds the number. */
  lemma EitherKeyNumber(n: int)
    ensures NumberOrZero(ParseIntValue(Or(Number(Int(n)), Undefined))) == NumberOrZero(ParseIntValue(Or(Undefined, Number(Int(n)))))
  {
    var x := Number(Int(n));
    assert Or(Undefined, x) == x;
    if n == 0 {
      assert Or(x, Undefined) == Undefined;
      ParseIntNonNumeric(Undefined);
      ParseIntNumber(0);
    } else {
      assert Or(x, Undefined) == x;
    }
  }

  /** A text field read as `x || X || ''` gives the same text whichever of its two keys holds the value. */
  lemma SwappedKeys(a: JsVal, b: JsVal, lower: string, upper: string, v: JsVal)
    requires Get(a, lower) == v && Get(a, upper) == Undefined
    requires Get(b, lower) == Undefined && Get(b, upper) == v
    ensures SanitizeValue(Or(Or(Get(a, lower), Get(a, upper)), Str("")))
            == SanitizeValue(Or(Or(Get(b, lower), Get(b, upper)), Str("")))
  {
    EitherKey(v);
  }

  /** The stall number gives the same number whichever of its two keys holds it. */
  lemma SwappedNumber(a: JsVal, b: JsVal, n: int)
    requires Get(a, "stallNumber") == Number(Int(n)) && Get(a, "STALL NUMBER") == Undefined
    requires Get(b, "stallNumber") == Undefined && Get(b, "STALL NUMBER") == Number(Int(n))
    ensures NumberOrZero(RawNumber(a)) == NumberOrZero(RawNumber(b))
  {
    EitherKeyNumber(n);
  }

  /** Two objects that read the same name, location, group and number give the same record. */
  lemma ProcessRecordAgrees(entries: seq<RawEntry>, a: JsVal, b: JsVal)
    requires IsObject(a) && IsObject(b)
    requires RecordName(a) == RecordName(b) && RecordLocation(a) == RecordLocation(b) && RecordGroup(a) == RecordGroup(b)
    requires NumberOrZero(RawNumber(a)) == NumberOrZero(RawNumber(b))
    ensures ProcessRecord(entries, a) == ProcessRecord(entries, b)
  {
  }

  /** The upper-case keys of the spreadsheet export are read exactly like the usual keys. */
  lemma AlternateKeys(entries: seq<RawEntry>, name: string, n: int, location: string, group: string)
    ensures ProcessRecord(entries, LowerRecord(name, n, location, group)) == ProcessRecord(entries, UpperRecord(name, n, location, group))
  {
    var a := LowerRecord(name, n, location, group);
    var b := UpperRecord(name, n, location, group);
    LowerRecordReads(name, n, location, group);
    UpperRecordReads(name, n, location, group);
    SwappedNumber(a, b, n);
    SwappedKeys(a, b, "name", "NAME", Str(name));
    SwappedKeys(a, b, "location", "LOCATION", Str(location));
    SwappedKeys(a, b, "group", "GROUP", Str(group));
    ProcessRecordAgrees(entries, a, b);
  }

  // ------------------------------------------------------------------ search

  /** The lower-cased name contains the lower-cased query. */
  predicate NameMatches(s: Stall, query: string) {
    Includes(ToLower(s.name), ToLower(query))
  }

  /** The records whose names match, in data order. */
  function NameMatching(list: seq<Stall>, query: string): (r: seq<Stall>)
    ensures |r| <= |list|
    ensures forall k :: 0 <= k < |r| ==> NameMatches(r[k], query) && r[k] in list
    ensures forall s :: s in list && NameMatches(s, query) ==> s in r
  {
    if list == [] then []
    else
      var rest := NameMatching(list[..|list| - 1], query);
      assert forall s :: s in list[..|list| - 1] ==> s in list;
      assert forall s :: s in list ==> s in list[..|list| - 1] || s == list[|list| - 1];
      if NameMatches(list[|list| - 1], query) then rest + [list[|list| - 1]] else rest
  }

  /**
   * Matching distributes over concatenation: the matches of a list are the
   * matches of each part, in data order, each as often as it occurs.
   */
  lemma {:induction false} NameMatchingAppend(a: seq<Stall>, b: seq<Stall>, query: string)
    ensures NameMatching(a + b, query) == NameMatching(a, query) + NameMatching(b, query)
    decreases |b|
  {
    if b == [] {
      assert a + b == a;
    } else {
      var init, last := b[..|b| - 1], b[|b| - 1];
      var t := if NameMatches(last, query) then [last] else [];
      NameMatchingAppend(a, init, query);
      assert (a + b)[..|a + b| - 1] == a + init;
      assert (a + b)[|a + b| - 1] == last;
      assert NameMatching(b, query) == NameMatching(init, query) + t;
      assert NameMatching(a + b, query) == NameMatching(a + init, query) + t;
    }
  }

  /** Read from the front: the first record, if it matches, then the matches of the rest. */
  lemma NameMatchingFront(s: Stall, rest: seq<Stall>, query: string)
    ensures NameMatching([s] + rest, query) == (if NameMatches(s, query) then [s] else []) + NameMatching(rest, query)
  {
    NameMatchingAppend([s], rest, query);
    assert [s][..0] == [];
  }

  /** The search cap. */
  const MaxResults := 8

  /**
   * `handleSearchInput`'s results: none for a query that sanitises to nothing,
   * otherwise the first eight matching records in data order.
   */
  function SearchResults(list: seq<Stall>, query: string): (r: seq<Stall>)
    ensures |r| <= MaxResults
    ensures Sanitize(query) == "" ==> r == []
    ensures Sanitize(query) != "" ==>
              var all := NameMatching(list, Sanitize(query));
              |r| == (if |all| < MaxResults then |all| else MaxResults) && r == all[..|r|]
  {
    var t := Sanitize(query);
    if |t| < 1 then []
    else
      var all := NameMatching(list, t);
      if |all| <= MaxResults then all else all[..MaxResults]
  }

  // ------------------------------------------------------------------ highlighting

  /** A piece of a highlighted name: plain text, or a match shown in bold. */
  datatype Segment = Plain(text: string) | Strong(text: string)

  /** The text the segments spell. */
  function Flatten(segs: seq<Segment>): string {
    if segs == [] then "" else segs[0].text + Flatten(segs[1..])
  }

  /** The text between the last match and the match at `i .. j`, if any, then the match in bold. */
  function Piece(text: string, from: nat, i: nat, j: nat): (r: seq<Segment>)
    requires from <= i <= j <= |text|
    ensures |r| == (if i > from then 2 else 1)
  {
    (if i > from then [Plain(text[from..i])] else []) + [Strong(text[i..j])]
  }

  /**
   * The segments of `text` from `from` on, given the lower-cased text `lt` and
   * query `lq`: the text before each occurrence of `lq` in `lt` found left to
   * right, the occurrence itself, and the rest.
   */
  function Segments(text: string, lt: string, lq: string, from: nat): seq<Segment>
    requires lq != [] && |lt| == |text| && from <= |text|
    decreases |text| - from
  {
    var i := IndexOf(lt, lq, from);
    if i == -1 then (if from < |text| then [Plain(text[from..])] else [])
    else Piece(text, from, i, i + |lq|) + Segments(text, lt, lq, i + |lq|)
  }

  /** The case-insensitive highlighting of `query` in `text`. */
  function Highlight(text: string, query: string): seq<Segment>
    requires query != []
  {
    Segments(text, ToLower(text), ToLower(query), 0)
  }

  lemma {:induction false} FlattenAppend(a: seq<Segment>, b: seq<Segment>)
    ensures Flatten(a + b) == Flatten(a) + Flatten(b)
  {
    if a == [] {
      assert a + b == b;
    } else {
      var ab := a + b;
      assert ab[0] == a[0] && ab[1..] == a[1..] + b;
      FlattenAppend(a[1..], b);
      assert Flatten(ab) == a[0].text + Flatten(a[1..] + b);
    }
  }

  /** A piece spells the text it covers. */
  lemma PieceFlatten(text: string, from: nat, i: nat, j: nat)
    requires from <= i <= j <= |text|
    ensures Flatten(Piece(text, from, i, j)) == text[from..j]
  {
    var mid := [Strong(text[i..j])];
    assert Flatten(mid) == text[i..j] + Flatten([]);
    if i > from {
      var pre := [Plain(text[from..i])];
      assert Flatten(pre) == text[from..i] + Flatten([]);
      FlattenAppend(pre, mid);
      assert text[from..j] == text[from..i] + text[i..j];
    } else {
      assert Piece(text, from, i, j) == mid;
    }
  }

  /** One step of `Segments` when a further occurrence is found. */
  lemma SegmentsStep(text: string, lt: string, lq: string, from: nat)
    requires lq != [] && |lt| == |text| && from <= |text|
    requires IndexOf(lt, lq, from) != -1
    ensures var i := IndexOf(lt, lq, from);
            from <= i && i + |lq| <= |text| && OccursAt(lt, lq, i)
            && Segments(text, lt, lq, from) == Piece(text, from, i, i + |lq|) + Segments(text, lt, lq, i + |lq|)
  {
    IndexOfSpec(lt, lq, from);
  }

  /** The last step of `Segments`, when no further occurrence is found. */
  lemma SegmentsLast(text: string, lt: string, lq: string, from: nat)
    requires lq != [] && |lt| == |text| && from <= |text|
    requires IndexOf(lt, lq, from) == -1
    ensures Segments(text, lt, lq, from) == if from < |text| then [Plain(text[from..])] else []
  {
  }

  /** The segments spell the text back. */
  lemma {:induction false} SegmentsFlatten(text: string, lt: string, lq: string, from: nat)
    requires lq != [] && |lt| == |text| && from <= |text|
    ensures Flatten(Segments(text, lt, lq, from)) == text[from..]
    decreases |text| - from
  {
    var i := IndexOf(lt, lq, from);
    if i == -1 {
      SegmentsFlattenLast(text, lt, lq, from);
    } else {
      SegmentsFlatten(text, lt, lq, i + |lq|);
      SegmentsFlattenStep(text, lt, lq, from);
    }
  }

  lemma SegmentsFlattenLast(text: string, lt: string, lq: string, from: nat)
    requires lq != [] && |lt| == |text| && from <= |text|
    requires IndexOf(lt, lq, from) == -1
    ensures Flatten(Segments(text, lt, lq, from)) == text[from..]
  {
    SegmentsLast(text, lt, lq, from);
    TailFlatten(text, from);
  }

  lemma SegmentsFlattenStep(text: string, lt: string, lq: string, from: nat)
    requires lq != [] && |lt| == |text| && from <= |text|
    requires IndexOf(lt, lq, from) != -1
    requires var j := IndexOf(lt, lq, from) + |lq|;
             j <= |text| && Flatten(Segments(text, lt, lq, j)) == text[j..]
    ensures Flatten(Segments(text, lt, lq, from)) == text[from..]
  {
    SegmentsStep(text, lt, lq, from);
    var i := IndexOf(lt, lq, from);
    PieceThenFlatten(text, from, i, i + |lq|, Segments(text, lt, lq, i + |lq|));
  }

  /** The plain tail after the last match spells the rest of the text. */
  lemma TailFlatten(text: string, from: nat)
    requires from <= |text|
    ensures Flatten(if from < |text| then [Plain(text[from..])] else []) == text[from..]
  {
    if from < |text| {
      assert Flatten([Plain(text[from..])]) == text[from..] + Flatten([]);
    }
  }

  /** A piece followed by segments that spell the rest of the text spell the text from the piece on. */
  lemma PieceThenFlatten(text: string, from: nat, i: nat, j: nat, rest: seq<Segment>)
    requires from <= i <= j <= |text| && Flatten(rest) == text[j..]
    ensures Flatten(Piece(text, from, i, j) + rest) == text[from..]
  {
    var p := Piece(text, from, i, j);
    FlattenAppend(p, rest);
    PieceFlatten(text, from, i, j);
    calc {
      Flatten(p + rest);
      Flatten(p) + Flatten(rest);
      text[from..j] + text[j..];
      { assert text[from..] == text[from..j] + text[j..]; }
      text[from..];
    }
  }

  /** What every segment promises: a bold one spells the query up to letter case, a plain one is not empty. */
  predicate GoodSegment(sg: Segment, text: string, lq: string) {
    (sg.Strong? ==> ToLower(sg.text) == lq) && (sg.Plain? ==> sg.text != [])
  }

  lemma {:induction false} SegmentsGood(text: string, lq: string, from: nat)
    requires lq != [] && from <= |text|
    ensures forall k :: 0 <= k < |Segments(text, ToLower(text), lq, from)| ==>
              GoodSegment(Segments(text, ToLower(text), lq, from)[k], text, lq)
    decreases |text| - from
  {
    var lt := ToLower(text);
    var i := IndexOf(lt, lq, from);
    if i != -1 {
      var j := i + |lq|;
      SegmentsStep(text, lt, lq, from);
      SegmentsGood(text, lq, j);
      PieceGood(text, lq, from, i, j);
      AllGoodAppend(Piece(text, from, i, j), Segments(text, lt, lq, j), text, lq);
    }
  }

  /** The piece up to and including an occurrence of `lq` in the lower-cased text is good. */
  lemma PieceGood(text: string, lq: string, from: nat, i: nat, j: nat)
    requires from <= i <= j <= |text| && OccursAt(ToLower(text), lq, i) && j == i + |lq|
    ensures forall k :: 0 <= k < |Piece(text, from, i, j)| ==> GoodSegment(Piece(text, from, i, j)[k], text, lq)
  {
    ToLowerSlice(text, i, j);
    assert ToLower(text)[i..j] == lq;
  }

  lemma AllGoodAppend(a: seq<Segment>, b: seq<Segment>, text: string, lq: string)
    requires forall k :: 0 <= k < |a| ==> GoodSegment(a[k], text, lq)
    requires forall k :: 0 <= k < |b| ==> GoodSegment(b[k], text, lq)
    ensures forall k :: 0 <= k < |a + b| ==> GoodSegment((a + b)[k], text, lq)
  {
    forall k | 0 <= k < |a + b|
      ensures GoodSegment((a + b)[k], text, lq)
    {
      if k >= |a| {
        assert (a + b)[k] == b[k - |a|];
      }
    }
  }

  /**
   * The segments, read from position `at` of the lower-cased text `lt`, find the matches
   * of `lq` left to right: each bold segment sits on an occurrence, no occurrence starts
   * inside a plain segment, and a plain segment is the last one or is followed by a bold one.
   */
  predicate Leftmost(segs: seq<Segment>, lt: string, lq: string, at: nat)
    decreases |segs|
  {
    segs == [] ||
    ((segs[0].Strong? ==> OccursAt(lt, lq, at))
     && (segs[0].Plain? ==> (forall i :: at <= i < at + |segs[0].text| ==> !OccursAt(lt, lq, i))
                            && (|segs| > 1 ==> segs[1].Strong?))
     && Leftmost(segs[1..], lt, lq, at + |segs[0].text|))
  }

  /** The segments from `from` on find the matches left to right. */
  lemma {:induction false} SegmentsLeftmost(text: string, lt: string, lq: string, from: nat)
    requires lq != [] && |lt| == |text| && from <= |text|
    ensures Leftmost(Segments(text, lt, lq, from), lt, lq, from)
    decreases |text| - from
  {
    var i := IndexOf(lt, lq, from);
    if i == -1 {
      LeftmostNoMatch(text, lt, lq, from);
    } else {
      SegmentsLeftmost(text, lt, lq, i + |lq|);
      LeftmostMatch(text, lt, lq, from);
    }
  }

  /** Without a further match the segments are the plain tail, which holds no match. */
  lemma LeftmostNoMatch(text: string, lt: string, lq: string, from: nat)
    requires lq != [] && |lt| == |text| && from <= |text| && IndexOf(lt, lq, from) == -1
    ensures Leftmost(Segments(text, lt, lq, from), lt, lq, from)
  {
    IndexOfSpec(lt, lq, from);
    SegmentsLast(text, lt, lq, from);
    LeftmostTail(text, lt, lq, from);
  }

  /** With a further match the segments are its piece, then segments that find the later matches. */
  lemma LeftmostMatch(text: string, lt: string, lq: string, from: nat)
    requires lq != [] && |lt| == |text| && from <= |text| && IndexOf(lt, lq, from) != -1
    requires var j := IndexOf(lt, lq, from) + |lq|;
             j <= |text| && Leftmost(Segments(text, lt, lq, j), lt, lq, j)
    ensures Leftmost(Segments(text, lt, lq, from), lt, lq, from)
  {
    var i := IndexOf(lt, lq, from);
    var j := i + |lq|;
    SegmentsStep(text, lt, lq, from);
    LeftmostFirstPiece(text, lt, lq, from, i, j, Segments(text, lt, lq, j));
  }

  /** `LeftmostPiece` for the first match after `from`. */
  lemma LeftmostFirstPiece(text: string, lt: string, lq: string, from: nat, i: nat, j: nat, rest: seq<Segment>)
    requires from <= i <= j <= |text| && |lt| == |text| && j == i + |lq| && i == IndexOf(lt, lq, from)
    requires Leftmost(rest, lt, lq, j)
    ensures Leftmost(Piece(text, from, i, j) + rest, lt, lq, from)
  {
    IndexOfSpec(lt, lq, from);
    LeftmostPiece(text, lt, lq, from, i, j, rest);
  }

  /** The plain tail after the last match holds no match. */
  lemma LeftmostTail(text: string, lt: string, lq: string, from: nat)
    requires from <= |text| && forall i :: from <= i ==> !OccursAt(lt, lq, i)
    ensures Leftmost(if from < |text| then [Plain(text[from..])] else [], lt, lq, from)
  {
    if from < |text| {
      var segs := [Plain(text[from..])];
      assert segs[1..] == [];
      assert Leftmost(segs[1..], lt, lq, from + |segs[0].text|);
    }
  }

  /** The piece up to the first match after `from`, followed by segments that find the later matches, finds the matches. */
  lemma LeftmostPiece(text: string, lt: string, lq: string, from: nat, i: nat, j: nat, rest: seq<Segment>)
    requires from <= i <= j <= |text| && j == i + |lq| && OccursAt(lt, lq, i)
    requires forall k :: from <= k < i ==> !OccursAt(lt, lq, k)
    requires Leftmost(rest, lt, lq, j)
    ensures Leftmost(Piece(text, from, i, j) + rest, lt, lq, from)
  {
    var hit := [Strong(text[i..j])] + rest;
    assert hit[1..] == rest;
    assert Leftmost(hit, lt, lq, i);
    if i > from {
      var segs := [Plain(text[from..i])] + hit;
      assert segs[1..] == hit;
      assert Piece(text, from, i, j) + rest == segs;
    } else {
      assert Piece(text, from, i, j) + rest == hit;
    }
  }

  /** The conditions of `LeftmostUnique` on segments that spell the text from `from` on. */
  predicate SpellsFrom(segs: seq<Segment>, text: string, lt: string, lq: string, from: nat)
    requires from <= |text|
  {
    Flatten(segs) == text[from..]
    && (forall k :: 0 <= k < |segs| ==> GoodSegment(segs[k], text, lq))
    && Leftmost(segs, lt, lq, from)
  }

  /** The first segment spells the text at `from`, and the others meet the same conditions after it. */
  lemma FirstSegment(segs: seq<Segment>, text: string, lt: string, lq: string, from: nat)
    requires from <= |text| && segs != [] && SpellsFrom(segs, text, lt, lq, from)
    ensures var n := |segs[0].text|;
            from + n <= |text| && segs[0].text == text[from..from + n] && GoodSegment(segs[0], text, lq)
            && SpellsFrom(segs[1..], text, lt, lq, from + n)
  {
    var s0 := segs[0];
    var tail := segs[1..];
    assert Flatten(segs) == s0.text + Flatten(tail);
    assert text[from..][..|s0.text|] == s0.text;
    assert text[from..][|s0.text|..] == Flatten(tail);
    assert GoodSegment(segs[0], text, lq);
    forall k | 0 <= k < |tail|
      ensures GoodSegment(tail[k], text, lq)
    {
      assert tail[k] == segs[k + 1];
    }
  }

  /**
   * The segmentation is unique: segments that spell the text from `from` on, whose bold
   * parts are the query up to letter case and which find the matches left to right, are
   * the segments `Segments` builds.
   */
  lemma {:induction false} LeftmostUnique(text: string, lt: string, lq: string, from: nat, segs: seq<Segment>)
    requires lq != [] && |lt| == |text| && from <= |text| && SpellsFrom(segs, text, lt, lq, from)
    ensures segs == Segments(text, lt, lq, from)
    decreases |segs|
  {
    if segs == [] {
      UniqueEmpty(text, lt, lq, from);
    } else {
      var k, next := FirstPiece(segs, text, lt, lq, from);
      LeftmostUnique(text, lt, lq, next, segs[k..]);
    }
  }

  /**
   * The first `k` segments are the piece up to and including the first match, or the
   * plain tail; the rest spell the text from `next` on, and are the segments `Segments`
   * builds from there only if all of them are.
   */
  lemma FirstPiece(segs: seq<Segment>, text: string, lt: string, lq: string, from: nat) returns (k: nat, next: nat)
    requires lq != [] && |lt| == |text| && from <= |text| && segs != [] && SpellsFrom(segs, text, lt, lq, from)
    ensures 1 <= k <= |segs| && next <= |text| && SpellsFrom(segs[k..], text, lt, lq, next)
    ensures segs[k..] == Segments(text, lt, lq, next) ==> segs == Segments(text, lt, lq, from)
  {
    if segs[0].Strong? {
      k := 1;
      next := StrongPiece(segs, text, lt, lq, from);
    } else if |segs| == 1 {
      FirstSegment(segs, text, lt, lq, from);
      k, next := 1, from + |segs[0].text|;
      UniqueLast(text, lt, lq, from, segs);
    } else {
      k := 2;
      next := PlainPiece(segs, text, lt, lq, from);
    }
  }

  /** `FirstPiece` when the first segment is bold. */
  lemma StrongPiece(segs: seq<Segment>, text: string, lt: string, lq: string, from: nat) returns (next: nat)
    requires lq != [] && |lt| == |text| && from <= |text| && segs != [] && segs[0].Strong?
    requires SpellsFrom(segs, text, lt, lq, from)
    ensures next <= |text| && SpellsFrom(segs[1..], text, lt, lq, next)
    ensures segs[1..] == Segments(text, lt, lq, next) ==> segs == Segments(text, lt, lq, from)
  {
    FirstSegment(segs, text, lt, lq, from);
    next := from + |segs[0].text|;
    StrongIndex(lt, lq, from, segs);
    StrongLength(segs[0], text, lq);
    if segs[1..] == Segments(text, lt, lq, next) {
      UniqueStrong(text, lt, lq, from, segs);
    }
  }

  /** `FirstPiece` when a plain segment comes first and others follow. */
  lemma PlainPiece(segs: seq<Segment>, text: string, lt: string, lq: string, from: nat) returns (next: nat)
    requires lq != [] && |lt| == |text| && from <= |text| && |segs| >= 2 && segs[0].Plain?
    requires SpellsFrom(segs, text, lt, lq, from)
    ensures next <= |text| && SpellsFrom(segs[2..], text, lt, lq, next)
    ensures segs[2..] == Segments(text, lt, lq, next) ==> segs == Segments(text, lt, lq, from)
  {
    next := PlainThenStrong(segs, text, lt, lq, from);
    var m := from + |segs[0].text|;
    PlainIndex(lt, lq, from, segs);
    if segs[2..] == Segments(text, lt, lq, next) {
      UniquePlain(text, lt, lq, from, m, segs);
    }
  }

  /** A plain first segment is followed by the first match in bold; the segments after them meet the conditions from its end. */
  lemma PlainThenStrong(segs: seq<Segment>, text: string, lt: string, lq: string, from: nat) returns (next: nat)
    requires lq != [] && |lt| == |text| && from <= |text| && |segs| >= 2 && segs[0].Plain?
    requires SpellsFrom(segs, text, lt, lq, from)
    ensures var m := from + |segs[0].text|;
            from < m && next == m + |lq| <= |text|
            && segs[0] == Plain(text[from..m]) && segs[1] == Strong(text[m..next])
            && SpellsFrom(segs[2..], text, lt, lq, next)
  {
    FirstSegment(segs, text, lt, lq, from);
    var m := from + |segs[0].text|;
    var tail := segs[1..];
    FirstSegment(tail, text, lt, lq, m);
    assert tail[0] == segs[1] && tail[1..] == segs[2..];
    StrongLength(segs[1], text, lq);
    next := m + |lq|;
  }

  /** No segments spell an empty rest of the text, and `Segments` builds none. */
  lemma UniqueEmpty(text: string, lt: string, lq: string, from: nat)
    requires lq != [] && |lt| == |text| && from <= |text| && SpellsFrom([], text, lt, lq, from)
    ensures [] == Segments(text, lt, lq, from)
  {
    assert from == |text|;
  }

  /** A bold first segment on the first match is the match `Segments` finds. */
  lemma UniqueStrong(text: string, lt: string, lq: string, from: nat, segs: seq<Segment>)
    requires lq != [] && |lt| == |text| && from + |lq| <= |text| && IndexOf(lt, lq, from) == from
    requires segs != [] && segs[0] == Strong(text[from..from + |lq|])
    requires segs[1..] == Segments(text, lt, lq, from + |lq|)
    ensures segs == Segments(text, lt, lq, from)
  {
    SegmentsStep(text, lt, lq, from);
    assert segs == Piece(text, from, from, from + |lq|) + segs[1..];
  }

  /** A bold first segment sits on the first match after `from`. */
  lemma StrongIndex(lt: string, lq: string, from: nat, segs: seq<Segment>)
    requires from <= |lt| && segs != [] && segs[0].Strong? && Leftmost(segs, lt, lq, from)
    ensures IndexOf(lt, lq, from) == from
  {
    IndexOfSpec(lt, lq, from);
  }

  /** A bold segment that spells the query up to letter case is as long as the query. */
  lemma StrongLength(sg: Segment, text: string, lq: string)
    requires sg.Strong? && GoodSegment(sg, text, lq)
    ensures |sg.text| == |lq|
  {
  }

  /** A plain last segment holds no match, so `Segments` finds none either. */
  lemma UniqueLast(text: string, lt: string, lq: string, from: nat, segs: seq<Segment>)
    requires lq != [] && |lt| == |text| && from <= |text| && |segs| == 1 && segs[0].Plain?
    requires from + |segs[0].text| <= |text| && segs[0].text == text[from..from + |segs[0].text|]
    requires GoodSegment(segs[0], text, lq) && Leftmost(segs, lt, lq, from)
    requires Flatten(segs[1..]) == text[from + |segs[0].text|..]
    ensures segs == Segments(text, lt, lq, from)
  {
    IndexOfSpec(lt, lq, from);
    assert segs[1..] == [];
    assert from + |segs[0].text| == |text|;
    assert IndexOf(lt, lq, from) == -1;
    SegmentsLast(text, lt, lq, from);
    assert segs[0].text == text[from..];
    assert segs == [segs[0]];
  }

  /** A plain segment up to the first match, then the match in bold, is the piece `Segments` finds. */
  lemma UniquePlain(text: string, lt: string, lq: string, from: nat, m: nat, segs: seq<Segment>)
    requires lq != [] && |lt| == |text| && from < m && m + |lq| <= |text| && IndexOf(lt, lq, from) == m
    requires |segs| >= 2 && segs[0] == Plain(text[from..m]) && segs[1] == Strong(text[m..m + |lq|])
    requires segs[2..] == Segments(text, lt, lq, m + |lq|)
    ensures segs == Segments(text, lt, lq, from)
  {
    SegmentsStep(text, lt, lq, from);
    assert Piece(text, from, m, m + |lq|) == [segs[0], segs[1]];
    assert segs == [segs[0], segs[1]] + segs[2..];
  }

  /** A plain segment followed by a bold one ends where the first match after `from` starts. */
  lemma PlainIndex(lt: string, lq: string, from: nat, segs: seq<Segment>)
    requires from <= |lt| && |segs| >= 2 && segs[0].Plain? && Leftmost(segs, lt, lq, from)
    ensures IndexOf(lt, lq, from) == from + |segs[0].text|
  {
    var m := from + |segs[0].text|;
    assert segs[1..][0] == segs[1] && segs[1].Strong?;
    assert OccursAt(lt, lq, m);
    IndexOfSpec(lt, lq, from);
  }

  /** The highlighted name spells the name, and each bold part is the query up to letter case. */
  lemma HighlightSpec(text: string, query: string)
    requires query != []
    ensures Flatten(Highlight(text, query)) == text
    ensures forall k :: 0 <= k < |Highlight(text, query)| ==>
              var sg := Highlight(text, query)[k];
              (sg.Strong? ==> ToLower(sg.text) == ToLower(query)) && (sg.Plain? ==> sg.text != [])
    ensures Leftmost(Highlight(text, query), ToLower(text), ToLower(query), 0)
  {
    SegmentsFlatten(text, ToLower(text), ToLower(query), 0);
    SegmentsGood(text, ToLower(query), 0);
    SegmentsLeftmost(text, ToLower(text), ToLower(query), 0);
  }

  /** Any segmentation with those three properties is the highlighting. */
  lemma HighlightUnique(text: string, query: string, segs: seq<Segment>)
    requires query != []
    requires Flatten(segs) == text
    requires forall k :: 0 <= k < |segs| ==> GoodSegment(segs[k], text, ToLower(query))
    requires Leftmost(segs, ToLower(text), ToLower(query), 0)
    ensures segs == Highlight(text, query)
  {
    assert text[0..] == text;
    LeftmostUnique(text, ToLower(text), ToLower(query), 0, segs);
  }

  /** The loop of `createHighlightedText` keeps its segments a prefix of all the segments. */
  lemma HighlightStep(text: string, lt: string, lq: string, from: nat, i: nat, next: nat,
                      segs: seq<Segment>, before: seq<Segment>, hit: seq<Segment>, newSegs: seq<Segment>, total: seq<Segment>)
    requires lq != [] && |lt| == |text| && from <= |text|
    requires i == IndexOf(lt, lq, from) && next == i + |lq| <= |text|
    requires segs + Segments(text, lt, lq, from) == total
    requires before == (if i > from then [Plain(text[from..i])] else []) && hit == [Strong(text[i..next])]
    requires newSegs == segs + before + hit
    ensures newSegs + Segments(text, lt, lq, next) == total
  {
    SegmentsStep(text, lt, lq, from);
    assert before + hit == Piece(text, from, i, next);
    AppendRegroup(segs, before, hit, Segments(text, lt, lq, from), Segments(text, lt, lq, next), total);
  }

  lemma AppendRegroup(segs: seq<Segment>, before: seq<Segment>, hit: seq<Segment>, whole: seq<Segment>, rest: seq<Segment>, total: seq<Segment>)
    requires whole == before + hit + rest && segs + whole == total
    ensures segs + before + hit + rest == total
  {
    assert segs + before + hit + rest == segs + (before + hit + rest);
  }

  /** After the last match only the plain tail is left to add. */
  lemma HighlightLast(text: string, lt: string, lq: string, from: nat, segs: seq<Segment>, total: seq<Segment>)
    requires lq != [] && |lt| == |text| && from <= |text|
    requires IndexOf(lt, lq, from) == -1
    requires segs + Segments(text, lt, lq, from) == total
    ensures total == segs + if from < |text| then [Plain(text[from..])] else []
  {
    SegmentsLast(text, lt, lq, from);
  }

  /** `createHighlightedText`; the query is never empty here, since the search returns early on an empty one. */
  method CreateHighlightedText(text: string, query: string) returns (segs: seq<Segment>)
    requires query != []
    ensures segs == Highlight(text, query)
  {
    var lowerText := ToLower(text);
    var lowerQuery := ToLower(query);
    var lastIndex := 0;
    var index := IndexOf(lowerText, lowerQuery, lastIndex);
    segs := [];
    ghost var total := Segments(text, lowerText, lowerQuery, 0);
    while index != -1
      invariant |lowerText| == |text| && |lowerQuery| == |query|
      invariant 0 <= lastIndex <= |text|
      invariant index == IndexOf(lowerText, lowerQuery, lastIndex)
      invariant segs + Segments(text, lowerText, lowerQuery, lastIndex) == total
      decreases |text| - lastIndex
    {
      var before := if index > lastIndex then [Plain(text[lastIndex..index])] else [];
      var hit := [Strong(text[index..index + |query|])];
      ghost var from, prefix := lastIndex, segs;
      segs := segs + before + hit;
      lastIndex := index + |query|;
      HighlightStep(text, lowerText, lowerQuery, from, index, lastIndex, prefix, before, hit, segs, total);
      index := IndexOf(lowerText, lowerQuery, lastIndex);
    }
    HighlightLast(text, lowerText, lowerQuery, lastIndex, segs, total);
    if lastIndex < |text| {
      segs := segs + [Plain(text[lastIndex..])];
    }
  }

  // ------------------------------------------------------------------ listing

  /** `filterByLocation`: every record for 'all', otherwise the records at exactly that location, in order. */
  function ByLocation(list: seq<Stall>, location: string): (r: seq<Stall>)
    ensures location == "all" ==> r == list
    ensures location != "all" ==> forall k :: 0 <= k < |r| ==> r[k].location == location && r[k] in list
    ensures location != "all" ==> forall s :: s in list && s.location == location ==> s in r
  {
    if location == "all" then list
    else if list == [] then []
    else
      var rest := ByLocation(list[..|list| - 1], location);
      assert forall s :: s in list[..|list| - 1] ==> s in list;
      assert forall s :: s in list ==> s in list[..|list| - 1] || s == list[|list| - 1];
      if list[|list| - 1].location == location then rest + [list[|list| - 1]] else rest
  }

  /** Filtering by a location distributes over concatenation, so it keeps data order and multiplicity. */
  lemma {:induction false} ByLocationAppend(a: seq<Stall>, b: seq<Stall>, location: string)
    ensures ByLocation(a + b, location) == ByLocation(a, location) + ByLocation(b, location)
    decreases |b|
  {
    if location != "all" {
      if b == [] {
        assert a + b == a;
      } else {
        var init, last := b[..|b| - 1], b[|b| - 1];
        var t := if last.location == location then [last] else [];
        ByLocationAppend(a, init, location);
        assert (a + b)[..|a + b| - 1] == a + init;
        assert (a + b)[|a + b| - 1] == last;
        assert ByLocation(b, location) == ByLocation(init, location) + t;
        assert ByLocation(a + b, location) == ByLocation(a + init, location) + t;
      }
    }
  }

  /** Read from the front: the first record, if it is at the location, then the rest filtered. */
  lemma ByLocationFront(s: Stall, rest: seq<Stall>, location: string)
    requires location != "all"
    ensures ByLocation([s] + rest, location) == (if s.location == location then [s] else []) + ByLocation(rest, location)
  {
    ByLocationAppend([s], rest, location);
    assert [s][..0] == [];
    assert ByLocation([s], location) == ByLocation([], location) + (if s.location == location then [s] else []);
  }

  predicate SortedByNumber(list: seq<Stall>) {
    forall i, j :: 0 <= i < j < |list| ==> list[i].stallNumber <= list[j].stallNumber
  }

  /** Inserts before the first record with a number not below `s`'s. */
  function InsertByNumber(s: Stall, sorted: seq<Stall>): (r: seq<Stall>)
    requires SortedByNumber(sorted)
    ensures SortedByNumber(r) && multiset(r) == multiset(sorted) + multiset{s}
    ensures |r| == |sorted| + 1 && (r[0] == s || (sorted != [] && r[0] == sorted[0]))
  {
    if sorted == [] || s.stallNumber <= sorted[0].stallNumber then [s] + sorted
    else
      var t := InsertByNumber(s, sorted[1..]);
      InsertStep(s, sorted, t);
      [sorted[0]] + t
  }

  /** Putting the smallest record back in front of the insertion into the rest. */
  lemma InsertStep(s: Stall, sorted: seq<Stall>, t: seq<Stall>)
    requires SortedByNumber(sorted) && sorted != [] && sorted[0].stallNumber < s.stallNumber
    requires SortedByNumber(t) && multiset(t) == multiset(sorted[1..]) + multiset{s}
    requires |t| == |sorted| && (t[0] == s || (|sorted| > 1 && t[0] == sorted[1..][0]))
    ensures SortedByNumber([sorted[0]] + t) && multiset([sorted[0]] + t) == multiset(sorted) + multiset{s}
  {
    assert sorted == [sorted[0]] + sorted[1..];
    assert sorted[0].stallNumber <= t[0].stallNumber;
    SortedCons(sorted[0], t);
  }

  lemma SortedCons(x: Stall, t: seq<Stall>)
    requires SortedByNumber(t) && (t != [] ==> x.stallNumber <= t[0].stallNumber)
    ensures SortedByNumber([x] + t)
  {
    var r := [x] + t;
    forall i, j | 0 <= i < j < |r|
      ensures r[i].stallNumber <= r[j].stallNumber
    {
      if i == 0 {
        assert r[j] == t[j - 1];
      } else {
        assert r[i] == t[i - 1] && r[j] == t[j - 1];
      }
    }
  }

  /** The order of `renderStallsList`: ascending stall numbers, the same records. */
  function SortByNumber(list: seq<Stall>): (r: seq<Stall>)
    ensures SortedByNumber(r) && multiset(r) == multiset(list)
  {
    if list == [] then []
    else
      assert list == [list[0]] + list[1..];
      InsertByNumber(list[0], SortByNumber(list[1..]))
  }

  /** The records numbered `n`, in order. */
  function WithNumber(list: seq<Stall>, n: int): (r: seq<Stall>)
    ensures |r| <= |list|
  {
    if list == [] then [] else (if list[0].stallNumber == n then [list[0]] else []) + WithNumber(list[1..], n)
  }

  lemma WithNumberCons(h: Stall, t: seq<Stall>, n: int)
    ensures WithNumber([h] + t, n) == (if h.stallNumber == n then [h] else []) + WithNumber(t, n)
  {
    assert ([h] + t)[1..] == t;
  }

  /** A record numbered above the first goes after it. */
  lemma InsertByNumberLater(s: Stall, sorted: seq<Stall>)
    requires SortedByNumber(sorted) && sorted != [] && sorted[0].stallNumber < s.stallNumber
    ensures InsertByNumber(s, sorted) == [sorted[0]] + InsertByNumber(s, sorted[1..])
  {
  }

  /** Insertion goes before every record with the same number, never after one. */
  lemma {:induction false} InsertByNumberStable(s: Stall, sorted: seq<Stall>, n: int)
    requires SortedByNumber(sorted)
    ensures WithNumber(InsertByNumber(s, sorted), n) == (if s.stallNumber == n then [s] else []) + WithNumber(sorted, n)
    decreases |sorted|
  {
    if sorted == [] || s.stallNumber <= sorted[0].stallNumber {
      WithNumberCons(s, sorted, n);
    } else {
      var head, rest := sorted[0], sorted[1..];
      var t := InsertByNumber(s, rest);
      InsertByNumberLater(s, sorted);
      InsertByNumberStable(s, rest, n);
      WithNumberCons(head, t, n);
      assert sorted == [head] + rest;
      WithNumberCons(head, rest, n);
      PrefixesCommute(if s.stallNumber == n then [s] else [], if head.stallNumber == n then [head] else [], WithNumber(rest, n));
    }
  }

  /** The sort is stable, as `Array.prototype.sort` is: records with equal numbers keep their order. */
  lemma {:induction false} SortByNumberStable(list: seq<Stall>, n: int)
    ensures WithNumber(SortByNumber(list), n) == WithNumber(list, n)
  {
    if list != [] {
      SortByNumberStable(list[1..], n);
      InsertByNumberStable(list[0], SortByNumber(list[1..]), n);
    }
  }

  /** `location.toLowerCase().replace(/\s+/g, '-')`: every run of white space becomes one hyphen. */
  function Hyphenate(s: string): (r: string)
    ensures forall k :: 0 <= k < |r| ==> !IsSpace(r[k])
    decreases |s|
  {
    if s == [] then []
    else if IsSpace(s[0]) then "-" + Hyphenate(TrimStart(s))
    else [s[0]] + Hyphenate(s[1..])
  }

  /** Text without white space is left as it is. */
  lemma {:induction false} HyphenateNoSpace(s: string)
    requires forall k :: 0 <= k < |s| ==> !IsSpace(s[k])
    ensures Hyphenate(s) == s
  {
    if s != [] {
      HyphenateNoSpace(s[1..]);
    }
  }

  /** Two words around a run of white space are joined by one hyphen. */
  lemma {:induction false} HyphenateWords(a: string, gap: string, b: string)
    requires forall k :: 0 <= k < |a| ==> !IsSpace(a[k])
    requires gap != [] && forall k :: 0 <= k < |gap| ==> IsSpace(gap[k])
    requires b == [] || !IsSpace(b[0])
    ensures Hyphenate(a + gap + b) == a + "-" + Hyphenate(b)
    decreases |a|
  {
    if a == [] {
      assert a + gap + b == gap + b;
      HyphenateGap(gap, b);
    } else {
      HyphenateWords(a[1..], gap, b);
      HyphenateWordsStep(a, gap, b);
    }
  }

  /** One letter more in front of the first word. */
  lemma HyphenateWordsStep(a: string, gap: string, b: string)
    requires a != [] && !IsSpace(a[0])
    requires Hyphenate(a[1..] + gap + b) == a[1..] + "-" + Hyphenate(b)
    ensures Hyphenate(a + gap + b) == a + "-" + Hyphenate(b)
  {
    HyphenateLetter(a[0], a[1..] + gap + b);
    ConsRegroup(a, gap, b, Hyphenate(b));
  }

  lemma ConsRegroup(a: string, gap: string, b: string, h: string)
    requires a != []
    ensures a + gap + b == [a[0]] + (a[1..] + gap + b)
    ensures [a[0]] + (a[1..] + "-" + h) == a + "-" + h
  {
    assert a == [a[0]] + a[1..];
  }

  /** A run of white space at the front becomes one hyphen. */
  lemma HyphenateGap(gap: string, b: string)
    requires gap != [] && forall k :: 0 <= k < |gap| ==> IsSpace(gap[k])
    requires b == [] || !IsSpace(b[0])
    ensures Hyphenate(gap + b) == "-" + Hyphenate(b)
  {
    TrimStartSpaces(gap, b);
    assert (gap + b)[0] == gap[0];
  }

  /** A letter at the front is kept. */
  lemma HyphenateLetter(c: char, rest: string)
    requires !IsSpace(c)
    ensures Hyphenate([c] + rest) == [c] + Hyphenate(rest)
  {
    var t := [c] + rest;
    assert t[0] == c && t[1..] == rest;
  }

  lemma {:induction false} TrimStartSpaces(gap: string, b: string)
    requires forall k :: 0 <= k < |gap| ==> IsSpace(gap[k])
    requires b == [] || !IsSpace(b[0])
    ensures TrimStart(gap + b) == b
  {
    if gap != [] {
      assert (gap + b)[1..] == gap[1..] + b;
      TrimStartSpaces(gap[1..], b);
    } else {
      assert gap + b == b;
    }
  }

  const MapsFolder := "maps/"
  const HighlightQuery := ".html?highlight="

  /** The target of `handleViewOnMap`. */
  function MapUrl(s: Stall): string {
    MapsFolder + Hyphenate(ToLower(s.location)) + HighlightQuery + IntToString(s.stallNumber)
  }

  /** The map link carries the page slug and reads back to the stall number. */
  lemma MapUrlParts(s: Stall)
    ensures var slug := Hyphenate(ToLower(s.location));
            MapUrl(s) == MapsFolder + slug + HighlightQuery + IntToString(s.stallNumber)
            && forall k :: 0 <= k < |slug| ==> !IsSpace(slug[k])
    ensures ParseInt(IntToString(s.stallNumber)) == Int(s.stallNumber)
  {
    ParseIntIntToString(s.stallNumber);
  }

  // ------------------------------------------------------------------ the page state

  datatype PageView = SearchView | AllView

  class StallFinder {
    var stallData: seq<Stall>
    var filteredStalls: seq<Stall>
    var currentView: PageView
    var currentFilter: string
    var selectedStallIndex: int
    /** The autocomplete items currently in the list, shown or hidden. */
    var results: seq<Stall>
    var autocompleteShown: bool
    var dataLoaded: bool
    var currentStall: Option<Stall>

    /** The cursor is on an item, or on none (-1). */
    ghost predicate Valid()
      reads this`selectedStallIndex, this`results
    {
      -1 <= selectedStallIndex < |results| || selectedStallIndex == -1
    }

    constructor()
      ensures Valid()
      ensures stallData == [] && filteredStalls == [] && currentView == SearchView && currentFilter == "all"
      ensures selectedStallIndex == -1 && results == [] && !autocompleteShown && !dataLoaded && currentStall == None
    {
      stallData := [];
      filteredStalls := [];
      currentView := SearchView;
      currentFilter := "all";
      selectedStallIndex := -1;
      results := [];
      autocompleteShown := false;
      dataLoaded := false;
      currentStall := None;
    }

    /** `loadStallData` given the parsed response: loads once; anything but an array is refused. */
    method LoadStallData(data: JsVal) returns (ok: bool)
      requires Valid()
      modifies this`stallData, this`dataLoaded
      ensures Valid()
      ensures old(dataLoaded) ==> ok && stallData == old(stallData) && dataLoaded
      ensures !old(dataLoaded) ==> (ok <==> data.Arr?)
      ensures !old(dataLoaded) && data.Arr? ==> stallData == ProcessStallData(data.items) && dataLoaded
      ensures !old(dataLoaded) && !data.Arr? ==> stallData == old(stallData) && !dataLoaded
      ensures filteredStalls == old(filteredStalls) && results == old(results) && selectedStallIndex == old(selectedStallIndex)
    {
      if dataLoaded {
        return true;
      }
      if !data.Arr? {
        return false;
      }
      stallData := ProcessStallData(data.items);
      dataLoaded := true;
      ok := true;
    }

    /** `hideAutocomplete`. */
    method HideAutocomplete()
      requires Valid()
      modifies this`autocompleteShown, this`selectedStallIndex
      ensures Valid()
      ensures !autocompleteShown && selectedStallIndex == -1 && results == old(results)
      ensures stallData == old(stallData) && filteredStalls == old(filteredStalls) && currentStall == old(currentStall)
              && currentView == old(currentView) && currentFilter == old(currentFilter)
    {
      autocompleteShown := false;
      selectedStallIndex := -1;
    }

    /** `showAutocompleteResults`: the list is replaced and no item is selected. */
    method ShowAutocompleteResults(found: seq<Stall>)
      requires Valid()
      modifies this`results, this`autocompleteShown, this`selectedStallIndex
      ensures Valid()
      ensures results == found && autocompleteShown && selectedStallIndex == -1
      ensures stallData == old(stallData) && filteredStalls == old(filteredStalls) && currentStall == old(currentStall)
              && currentView == old(currentView) && currentFilter == old(currentFilter)
    {
      results := found;
      autocompleteShown := true;
      selectedStallIndex := -1;
    }

    /** `handleSearchInput`: hides the list for an empty query, otherwise shows the capped matches. */
    method HandleSearchInput(query: string)
      requires Valid()
      modifies this`results, this`autocompleteShown, this`selectedStallIndex
      ensures Valid()
      ensures Sanitize(query) == "" ==> !autocompleteShown && results == old(results)
      ensures Sanitize(query) != "" ==> autocompleteShown && results == SearchResults(stallData, query)
      ensures selectedStallIndex == -1
      ensures stallData == old(stallData) && filteredStalls == old(filteredStalls) && currentStall == old(currentStall)
    {
      var trimmed := Sanitize(query);
      if |trimmed| < 1 {
        HideAutocomplete();
        return;
      }
      var all := NameMatching(stallData, trimmed);
      var found := if |all| <= MaxResults then all else all[..MaxResults];
      ShowAutocompleteResults(found);
    }

    /**
     * `handleKeyNavigation`: nothing without items; the arrows move the cursor
     * within -1 .. the last item; Enter picks the item under the cursor, which
     * opens its details and hides the list; Escape hides the list.
     */
    method HandleKeyNavigation(key: string) returns (picked: Option<Stall>)
      requires Valid()
      modifies this`selectedStallIndex, this`autocompleteShown, this`currentStall
      ensures Valid()
      ensures results == old(results) && stallData == old(stallData) && filteredStalls == old(filteredStalls)
      ensures |results| == 0 ==> selectedStallIndex == old(selectedStallIndex) && picked.None?
      ensures |results| > 0 && key == "ArrowDown" ==>
                selectedStallIndex == (if old(selectedStallIndex) + 1 < |results| then old(selectedStallIndex) + 1 else |results| - 1)
      ensures |results| > 0 && key == "ArrowUp" ==>
                selectedStallIndex == (if old(selectedStallIndex) - 1 > -1 then old(selectedStallIndex) - 1 else -1)
      ensures picked.Some? <==> |results| > 0 && key == "Enter" && old(selectedStallIndex) >= 0
      ensures picked.Some? ==> picked.value == results[old(selectedStallIndex)] && currentStall == picked
                               && selectedStallIndex == -1 && !autocompleteShown
      ensures picked.None? ==> currentStall == old(currentStall)
      ensures |results| > 0 && key == "Escape" ==> selectedStallIndex == -1 && !autocompleteShown
      ensures key == "ArrowDown" || key == "ArrowUp" ==> autocompleteShown == old(autocompleteShown)
      ensures |results| == 0 || (key != "ArrowDown" && key != "ArrowUp" && picked.None? && key != "Escape") ==>
                selectedStallIndex == old(selectedStallIndex) && autocompleteShown == old(autocompleteShown)
    {
      picked := None;
      var n := |results|;
      if n == 0 {
        return;
      }
      if key == "ArrowDown" {
        selectedStallIndex := if selectedStallIndex + 1 < n then selectedStallIndex + 1 else n - 1;
      } else if key == "ArrowUp" {
        selectedStallIndex := if selectedStallIndex - 1 > -1 then selectedStallIndex - 1 else -1;
      } else if key == "Enter" {
        if selectedStallIndex >= 0 {
          var s := results[selectedStallIndex];
          SelectStall(s);
          HideAutocomplete();
          picked := Some(s);
        }
      } else if key == "Escape" {
        HideAutocomplete();
      }
    }

    /** `selectStall`/`showStallDetails`: remembers the stall shown in the details view. */
    method SelectStall(s: Stall)
      requires Valid()
      modifies this`currentStall
      ensures Valid()
      ensures currentStall == Some(s)
      ensures stallData == old(stallData) && filteredStalls == old(filteredStalls) && results == old(results)
              && selectedStallIndex == old(selectedStallIndex) && autocompleteShown == old(autocompleteShown)
              && currentView == old(currentView) && currentFilter == old(currentFilter)
    {
      currentStall := Some(s);
    }

    /** `filterByLocation`. */
    method FilterByLocation(location: string)
      requires Valid()
      modifies this`currentFilter, this`filteredStalls
      ensures Valid()
      ensures currentFilter == location && filteredStalls == ByLocation(stallData, location)
      ensures stallData == old(stallData) && results == old(results) && selectedStallIndex == old(selectedStallIndex)
              && currentView == old(currentView)
    {
      currentFilter := location;
      if location == "all" {
        filteredStalls := stallData;
      } else {
        filteredStalls := ByLocation(stallData, location);
      }
    }

    /** `showAllStalls`: the full list under the 'all' filter. */
    method ShowAllStalls()
      requires Valid()
      modifies this`currentView, this`currentFilter, this`filteredStalls
      ensures Valid()
      ensures currentView == AllView && currentFilter == "all" && filteredStalls == stallData
      ensures stallData == old(stallData) && results == old(results) && selectedStallIndex == old(selectedStallIndex)
    {
      currentView := AllView;
      currentFilter := "all";
      filteredStalls := stallData;
    }

    /** `showSearchView`: back to the search box with the list hidden. */
    method ShowSearchView()
      requires Valid()
      modifies this`currentView, this`autocompleteShown, this`selectedStallIndex
      ensures Valid()
      ensures currentView == SearchView && selectedStallIndex == -1 && !autocompleteShown
      ensures stallData == old(stallData) && filteredStalls == old(filteredStalls) && currentFilter == old(currentFilter)
    {
      currentView := SearchView;
      HideAutocomplete();
    }

    /** `handleViewOnMap`: the map page of the stall shown, if any. */
    method HandleViewOnMap() returns (target: Option<string>)
      requires Valid()
      ensures currentStall.None? ==> target.None?
      ensures currentStall.Some? ==> target == Some(MapUrl(currentStall.value))
    {
      if currentStall.None? {
        return None;
      }
      target := Some(MapUrl(currentStall.value));
    }
  }
}
