/*
 * The stallholder list editor: loading and sanitising a campus's records,
 * the id counter for new stalls, the search and location filters, and the
 * add, delete and update edits with the unsaved-changes flag.
 */
module StallholderEditorModel {
  import opened JsStrings
  import opened JsValues

  /** One record as the editor keeps it. Updates may store NaN as a stall number. */
  datatype Stallholder = Stallholder(name: string, stallNumber: Num, location: string, group: string)

  /** The fields a table cell or card input can edit (`data-field`). */
  datatype Field = Name | StallNumber | Location | Group

  const RuskinCourtyard := "Ruskin Courtyard"
  const LabCourtyard := "LAB Courtyard"
  const ScienceWalkway := "Science Walkway"
  const CentralWalkway := "Central Walkway"

  /** `LOCATION_CONFIG[campus] || []`. */
  function ValidLocations(campus: string): seq<string> {
    if campus == "cambridge" then [RuskinCourtyard, LabCourtyard, ScienceWalkway]
    else if campus == "chelmsford" then [CentralWalkway]
    else []
  }

  /** The configured location names carry no surrounding white space and no angle brackets. */
  predicate Clean(s: string) {
    s != [] && !IsSpace(s[0]) && !IsSpace(s[|s| - 1]) && '<' !in s && '>' !in s
  }

  lemma LocationNamesClean()
    ensures Clean(RuskinCourtyard) && Clean(LabCourtyard) && Clean(ScienceWalkway) && Clean(CentralWalkway)
  {
    NameClean(RuskinCourtyard);
    NameClean(LabCourtyard);
    NameClean(ScienceWalkway);
    NameClean(CentralWalkway);
  }

  /** A name made of letters and inner spaces is clean. */
  lemma NameClean(s: string)
    requires s != [] && s[0] != ' ' && s[|s| - 1] != ' '
    requires forall k :: 0 <= k < |s| ==> 'A' <= s[k] <= 'Z' || 'a' <= s[k] <= 'z' || s[k] == ' '
    ensures Clean(s)
  {
  }

  predicate KnownCampus(campus: string) {
    campus == "cambridge" || campus == "chelmsford"
  }

  /** The text fields carry no angle brackets. */
  predicate Sane(s: Stallholder) {
    '<' !in s.name && '>' !in s.name && '<' !in s.location && '>' !in s.location
    && '<' !in s.group && '>' !in s.group
  }

  /** Every configured location is already sanitised, so sanitising it changes nothing. */
  lemma ValidLocationsSanitized(campus: string, location: string)
    requires location in ValidLocations(campus)
    ensures Sanitize(location) == location && '<' !in location && '>' !in location
  {
    LocationNamesClean();
    assert Clean(location);
    SanitizeClean(location);
  }

  /** The record `addNewStall` appends: numbered `id` and placed at the campus's first location, or the Ruskin Courtyard. */
  function NewStall(id: int, campus: string): Stallholder {
    var locs := ValidLocations(campus);
    Stallholder("New Stallholder", Int(id), if locs != [] then locs[0] else RuskinCourtyard, "Society")
  }

  /** A new record is sanitised, placed at a location its campus lists, and so keeps the list sane. */
  lemma NewStallSane(list: seq<Stallholder>, id: int, campus: string)
    requires forall k :: 0 <= k < |list| ==> Sane(list[k])
    ensures KnownCampus(campus) ==> NewStall(id, campus).location in ValidLocations(campus)
    ensures forall k :: 0 <= k < |list| + 1 ==> Sane((list + [NewStall(id, campus)])[k])
  {
    var newStall := NewStall(id, campus);
    LocationNamesClean();
    assert Sane(newStall);
    forall k | 0 <= k < |list| + 1
      ensures Sane((list + [newStall])[k])
    {
      if k < |list| {
        assert (list + [newStall])[k] == list[k];
      }
    }
  }

  // ------------------------------------------------------------------ loading

  /**
   * The location a loaded record keeps: its own when the campus lists it,
   * otherwise 'Central Walkway' on the chelmsford campus and 'Ruskin Courtyard' elsewhere.
   */
  function MigrateLocation(campus: string, location: string): (r: string)
    ensures KnownCampus(campus) ==> r in ValidLocations(campus)
    ensures location in ValidLocations(campus) ==> r == location
    ensures r !in ValidLocations(campus) ==> !KnownCampus(campus)
  {
    if location in ValidLocations(campus) then location
    else if campus == "chelmsford" then CentralWalkway
    else RuskinCourtyard
  }

  /** The number a record is loaded with: `parseInt(stall.stallNumber) || 0`. */
  function LoadedNumber(v: JsVal): int {
    NumberOrZero(ParseIntValue(Get(v, "stallNumber")))
  }

  /** The callback of `validateAndSanitizeData`: a sanitised record, or nothing for a record that is dropped. */
  function SanitizeRecord(campus: string, v: JsVal): (r: Option<Stallholder>)
    ensures !IsObject(v) ==> r.None?
    ensures !Get(v, "name").Str? ==> r.None?
    ensures ParseIntValue(Get(v, "stallNumber")).NaN? ==> r.None?
    ensures r.Some? ==> r.value.name != "" && r.value.stallNumber.Int? && r.value.stallNumber.v > 0 && Sane(r.value)
    ensures r.Some? ==> r.value.stallNumber == ParseIntValue(Get(v, "stallNumber"))
    ensures r.Some? && KnownCampus(campus) ==> r.value.location in ValidLocations(campus)
  {
    if !IsObject(v) then None
    else
      var name := SanitizeValue(Or(Get(v, "name"), Str("")));
      var location := SanitizeValue(Or(Get(v, "location"), Str("")));
      var group := SanitizeValue(Or(Get(v, "group"), Str("")));
      var stallNumber := LoadedNumber(v);
      if name == "" || stallNumber <= 0 then None
      else
        var loc := MigrateLocation(campus, location);
        assert '<' !in loc && '>' !in loc by {
          LocationNamesClean();
        }
        Some(Stallholder(name, Int(stallNumber), loc, group))
  }

  /** `validateAndSanitizeData`: the records that survive, in their original order. */
  function ValidateAndSanitizeData(campus: string, data: seq<JsVal>): (r: seq<Stallholder>)
    ensures |r| <= |data|
    ensures forall k :: 0 <= k < |r| ==> r[k].name != "" && r[k].stallNumber.Int? && r[k].stallNumber.v > 0 && Sane(r[k])
    ensures KnownCampus(campus) ==> forall k :: 0 <= k < |r| ==> r[k].location in ValidLocations(campus)
  {
    if data == [] then []
    else
      var rest := ValidateAndSanitizeData(campus, data[..|data| - 1]);
      match SanitizeRecord(campus, data[|data| - 1])
      case Some(s) => rest + [s]
      case None => rest
  }

  /** Validation works record by record: the result for a concatenation is the concatenation of the results. */
  lemma {:induction false} ValidateAppend(campus: string, a: seq<JsVal>, b: seq<JsVal>)
    ensures ValidateAndSanitizeData(campus, a + b) == ValidateAndSanitizeData(campus, a) + ValidateAndSanitizeData(campus, b)
    decreases |b|
  {
    if b == [] {
      assert a + b == a;
    } else {
      var b' := b[..|b| - 1];
      assert (a + b)[..|a + b| - 1] == a + b';
      ValidateAppend(campus, a, b');
    }
  }

  /** A record is in the result exactly when some input record sanitises to it. */
  lemma ValidateMembership(campus: string, data: seq<JsVal>, s: Stallholder)
    ensures s in ValidateAndSanitizeData(campus, data) <==>
              exists i :: 0 <= i < |data| && SanitizeRecord(campus, data[i]) == Some(s)
  {
    var f := v => SanitizeRecord(campus, v);
    ValidateIsKept(campus, f, data);
    KeptMembership(f, data, s);
    assert forall i :: 0 <= i < |data| ==> f(data[i]) == SanitizeRecord(campus, data[i]);
  }

  /** What a filtering callback keeps of `data`, in order: the `Some` values it returns. */
  function Kept(f: JsVal -> Option<Stallholder>, data: seq<JsVal>): seq<Stallholder> {
    if data == [] then []
    else
      var rest := Kept(f, data[..|data| - 1]);
      match f(data[|data| - 1])
      case Some(s) => rest + [s]
      case None => rest
  }

  /** A record is kept exactly when the callback returns it for some entry. */
  lemma {:induction false} KeptMembership(f: JsVal -> Option<Stallholder>, data: seq<JsVal>, s: Stallholder)
    ensures s in Kept(f, data) <==> exists i :: 0 <= i < |data| && f(data[i]) == Some(s)
  {
    if data != [] {
      var init := data[..|data| - 1];
      var last := |data| - 1;
      KeptMembership(f, init, s);
      assert s in Kept(f, data) <==> s in Kept(f, init) || f(data[last]) == Some(s);
      if s in Kept(f, data) {
        if f(data[last]) != Some(s) {
          var i :| 0 <= i < |init| && f(init[i]) == Some(s);
          assert data[i] == init[i];
        }
      } else {
        forall i | 0 <= i < |data|
          ensures f(data[i]) != Some(s)
        {
          if i < last {
            assert data[i] == init[i];
          }
        }
      }
    }
  }

  /** `validateAndSanitizeData` keeps what its callback `SanitizeRecord` returns. */
  lemma {:induction false} ValidateIsKept(campus: string, f: JsVal -> Option<Stallholder>, data: seq<JsVal>)
    requires forall v :: f(v) == SanitizeRecord(campus, v)
    ensures ValidateAndSanitizeData(campus, data) == Kept(f, data)
  {
    if data != [] {
      ValidateIsKept(campus, f, data[..|data| - 1]);
    }
  }

  // ------------------------------------------------------------------ the id counter

  /** `s.stallNumber || 0` for a record. */
  function NumberOf(s: Stallholder): int {
    NumberOrZero(s.stallNumber)
  }

  /** The largest record number of a non-empty list. */
  function MaxNumber(list: seq<Stallholder>): (m: int)
    requires list != []
    ensures forall k :: 0 <= k < |list| ==> NumberOf(list[k]) <= m
    ensures exists k :: 0 <= k < |list| && NumberOf(list[k]) == m
  {
    if |list| == 1 then NumberOf(list[0])
    else
      var m' := MaxNumber(list[1..]);
      assert forall k :: 1 <= k < |list| ==> list[k] == list[1..][k - 1];
      if NumberOf(list[0]) >= m' then NumberOf(list[0]) else m'
  }

  /**
   * The counter as written: `Math.max(...numbers) + 1`, where `Math.max()` of no
   * arguments is -Infinity (`None` here).
   */
  function NextStallIdAsWritten(list: seq<Stallholder>): Option<int> {
    if list == [] then None else Some(MaxNumber(list) + 1)
  }

  /** An empty campus file leaves the counter at -Infinity, so the next stall added gets no usable number. */
  lemma EmptyListNextStallId()
    ensures NextStallIdAsWritten([]) == None
  {
  }

  /** The intended counter: one past the largest number, and 1 for an empty list. */
  function NextStallId(list: seq<Stallholder>): int {
    if list == [] then 1 else if MaxNumber(list) < 0 then 1 else MaxNumber(list) + 1
  }

  /** The intended counter is positive and above every number in the list. */
  lemma NextStallIdFresh(list: seq<Stallholder>)
    ensures NextStallId(list) >= 1
    ensures forall k :: 0 <= k < |list| ==> NumberOf(list[k]) < NextStallId(list)
  {
  }

  /** On every list the loader can produce other than the empty one, both counters agree. */
  lemma NextStallIdAgrees(list: seq<Stallholder>)
    requires list != []
    requires forall k :: 0 <= k < |list| ==> list[k].stallNumber.Int? && list[k].stallNumber.v > 0
    ensures NextStallIdAsWritten(list) == Some(NextStallId(list))
  {
    assert NumberOf(list[0]) > 0;
  }

  // ------------------------------------------------------------------ search and filter

  /** The search text: sanitised and lower-cased. */
  function SearchTerm(query: string): string {
    ToLower(Sanitize(query))
  }

  /** A record matches an empty term, or one found in its lower-cased name, its number or its lower-cased location. */
  predicate MatchesSearch(s: Stallholder, term: string) {
    term == "" || Includes(ToLower(s.name), term) || Includes(NumToString(s.stallNumber), term)
    || Includes(ToLower(s.location), term)
  }

  /** An empty location filter admits everything, any other admits that exact location. */
  predicate MatchesLocation(s: Stallholder, location: string) {
    location == "" || s.location == location
  }

  predicate Matches(s: Stallholder, term: string, location: string) {
    MatchesSearch(s, term) && MatchesLocation(s, location)
  }

  /** Positions below `n`, strictly increasing: a subsequence of a list of length `n`. */
  predicate IsSubsequenceIndex(idx: seq<int>, n: int) {
    (forall k :: 0 <= k < |idx| ==> 0 <= idx[k] < n)
    && (forall j, k :: 0 <= j < k < |idx| ==> idx[j] < idx[k])
  }

  /** The positions of the matching records, in list order (the `filter` in `handleSearch` and `handleFilter`). */
  function Matching(list: seq<Stallholder>, term: string, location: string): (r: seq<int>)
    ensures IsSubsequenceIndex(r, |list|)
    ensures forall i :: 0 <= i < |list| ==> (i in r <==> Matches(list[i], term, location))
  {
    if list == [] then []
    else
      var init := list[..|list| - 1];
      var rest := Matching(init, term, location);
      assert forall i :: 0 <= i < |init| ==> init[i] == list[i];
      if Matches(list[|list| - 1], term, location) then rest + [|list| - 1] else rest
  }

  /** All positions of a list: `[...stallholders]`. */
  function AllPositions(n: nat): (r: seq<int>)
    ensures |r| == n && IsSubsequenceIndex(r, n)
    ensures forall k :: 0 <= k < n ==> r[k] == k
  {
    seq(n, k => k)
  }

  /** With no term and no location every record is shown, as after loading. */
  lemma {:induction false} MatchingEverything(list: seq<Stallholder>)
    ensures Matching(list, "", "") == AllPositions(|list|)
  {
    if list != [] {
      var init := list[..|list| - 1];
      MatchingEverything(init);
      assert AllPositions(|list|) == AllPositions(|init|) + [|list| - 1];
    }
  }

  // ------------------------------------------------------------------ edits

  /** The record with one field replaced. */
  function SetField(s: Stallholder, field: Field, value: string): Stallholder {
    match field
    case Name => s.(name := Sanitize(value))
    case StallNumber => s.(stallNumber := ParseInt(value))
    case Location => s.(location := Sanitize(value))
    case Group => s.(group := Sanitize(value))
  }

  /** `s.stallNumber === value` for numbers: NaN equals nothing. */
  predicate SameNumber(a: Num, b: Num) {
    a.Int? && b.Int? && a.v == b.v
  }

  /** Some record other than the one at `index` already has the number `n`. */
  predicate NumberTakenElsewhere(list: seq<Stallholder>, index: int, n: Num) {
    exists i :: 0 <= i < |list| && i != index && SameNumber(list[i].stallNumber, n)
  }

  /** The position `splice(index, 1)` removes from, if any: negative indices count from the end. */
  function SpliceStart(index: int, n: nat): (r: int)
    ensures 0 <= r <= n
    ensures 0 <= index < n ==> r == index
  {
    if index < 0 then (if n + index < 0 then 0 else n + index)
    else if index > n then n
    else index
  }

  /** `splice(index, 1)`: the list without the one element at the splice position. */
  function Splice(list: seq<Stallholder>, index: int): (r: seq<Stallholder>)
    ensures var st := SpliceStart(index, |list|);
            if st < |list| then |r| == |list| - 1 && r[..st] == list[..st] && r[st..] == list[st + 1..]
            else r == list
  {
    var st := SpliceStart(index, |list|);
    if st < |list| then list[..st] + list[st + 1..] else list
  }

  /** For a position inside the list, `splice(index, 1)` removes exactly that element and keeps the others in order. */
  lemma SpliceInRange(list: seq<Stallholder>, index: int)
    requires 0 <= index < |list|
    ensures Splice(list, index) == list[..index] + list[index + 1..]
    ensures |Splice(list, index)| == |list| - 1
    ensures forall k :: 0 <= k < |list| - 1 ==> Splice(list, index)[k] == (if k < index then list[k] else list[k + 1])
  {
  }

  /** Removing a record keeps every remaining record sanitised. */
  lemma SpliceSane(list: seq<Stallholder>, index: int)
    requires forall k :: 0 <= k < |list| ==> Sane(list[k])
    ensures forall k :: 0 <= k < |Splice(list, index)| ==> Sane(Splice(list, index)[k])
  {
    var r := Splice(list, index);
    var st := SpliceStart(index, |list|);
    forall k | 0 <= k < |r|
      ensures Sane(r[k])
    {
      if st < |list| && k >= st {
        assert r[k] == r[st..][k - st] == list[st + 1..][k - st];
      } else {
        assert r[k] == r[..st][k] == list[..st][k];
      }
    }
  }

  /** Editing one field of a sanitised list leaves every record sanitised, given that a new location is a configured one. */
  lemma SetFieldSane(list: seq<Stallholder>, index: int, field: Field, value: string, campus: string)
    requires 0 <= index < |list| && forall k :: 0 <= k < |list| ==> Sane(list[k])
    requires field == Location ==> value in ValidLocations(campus)
    ensures var r := list[index := SetField(list[index], field, value)];
            forall k :: 0 <= k < |r| ==> Sane(r[k])
    ensures field == Location ==> SetField(list[index], field, value).location in ValidLocations(campus)
  {
    if field == Location {
      ValidLocationsSanitized(campus, value);
    }
    assert Sane(SetField(list[index], field, value));
  }

  /** A number that no other record holds is, once written, held by that record alone. */
  lemma SetNumberUnique(list: seq<Stallholder>, index: int, value: string)
    requires 0 <= index < |list| && !NumberTakenElsewhere(list, index, ParseInt(value))
    ensures var r := list[index := SetField(list[index], StallNumber, value)];
            forall i :: 0 <= i < |r| && i != index ==> !SameNumber(r[i].stallNumber, r[index].stallNumber)
  {
  }

  /**
   * The records after `updateStall`: nothing when the new number is held by another
   * record or the new location is not one the campus lists; otherwise the records
   * with that one field of that one record changed.
   */
  function UpdatedRecords(list: seq<Stallholder>, index: int, field: Field, value: string, campus: string): Option<seq<Stallholder>>
    requires 0 <= index < |list|
  {
    if field == StallNumber && NumberTakenElsewhere(list, index, ParseInt(value)) then None
    else if field == Location && value !in ValidLocations(campus) then None
    else Some(list[index := SetField(list[index], field, value)])
  }

  /**
   * An update is refused exactly for a duplicate number or an unlisted location; an
   * accepted one leaves the number unique and the location listed, keeps every record
   * sanitised and changes no other record.
   */
  lemma UpdatedRecordsSpec(list: seq<Stallholder>, index: int, field: Field, value: string, campus: string)
    requires 0 <= index < |list| && forall k :: 0 <= k < |list| ==> Sane(list[k])
    ensures var r := UpdatedRecords(list, index, field, value, campus);
            (r.Some? <==> !(field == StallNumber && NumberTakenElsewhere(list, index, ParseInt(value)))
                          && !(field == Location && value !in ValidLocations(campus)))
            && (r.Some? ==>
                  |r.value| == |list| && (forall k :: 0 <= k < |list| && k != index ==> r.value[k] == list[k])
                  && r.value[index] == SetField(list[index], field, value)
                  && (forall k :: 0 <= k < |r.value| ==> Sane(r.value[k]))
                  && (field == StallNumber ==>
                        forall k :: 0 <= k < |r.value| && k != index ==> !SameNumber(r.value[k].stallNumber, r.value[index].stallNumber))
                  && (field == Location ==> r.value[index].location in ValidLocations(campus)))
  {
    var r := UpdatedRecords(list, index, field, value, campus);
    if r.Some? {
      SetFieldSane(list, index, field, value, campus);
      if field == StallNumber {
        SetNumberUnique(list, index, value);
      }
    }
  }

  /**
   * The records `loadData` keeps, with the facts about them that the editor's
   * invariant and `LoadData`'s contract use.
   */
  function LoadedRecords(campus: string, data: seq<JsVal>): (r: seq<Stallholder>)
    ensures r == ValidateAndSanitizeData(campus, data)
    ensures forall k :: 0 <= k < |r| ==> Sane(r[k])
    ensures KnownCampus(campus) ==> forall k :: 0 <= k < |r| ==> r[k].location in ValidLocations(campus)
  {
    ValidateAndSanitizeData(campus, data)
  }

  class StallholderEditor {
    var stallholders: seq<Stallholder>
    /** `filteredStallholders`: the shown records are shared with `stallholders`, so they are kept as positions. */
    var filtered: seq<int>
    var nextStallId: int
    var currentCampus: string
    var hasUnsavedChanges: bool
    /** The values of the search box and the location filter. */
    var searchInput: string
    var filterValue: string

    /** The counter is positive and every record is sanitised. */
    ghost predicate RecordsValid()
      reads this`nextStallId, this`stallholders
    {
      nextStallId >= 1 && forall k :: 0 <= k < |stallholders| ==> Sane(stallholders[k])
    }

    /** ... and the shown positions are a subsequence of the records. */
    ghost predicate Valid()
      reads this`nextStallId, this`stallholders, this`filtered
    {
      RecordsValid() && IsSubsequenceIndex(filtered, |stallholders|)
    }

    constructor()
      ensures Valid()
      ensures stallholders == [] && filtered == [] && nextStallId == 1 && currentCampus == "cambridge"
      ensures !hasUnsavedChanges && searchInput == "" && filterValue == ""
    {
      stallholders := [];
      filtered := [];
      nextStallId := 1;
      currentCampus := "cambridge";
      hasUnsavedChanges := false;
      searchInput := "";
      filterValue := "";
    }

    /** `detectCampusFromURL`: a known `campus` parameter selects that campus. */
    method DetectCampus(param: string)
      requires Valid()
      modifies this`currentCampus
      ensures Valid()
      ensures currentCampus == (if KnownCampus(param) then param else old(currentCampus))
      ensures stallholders == old(stallholders) && filtered == old(filtered) && nextStallId == old(nextStallId)
              && hasUnsavedChanges == old(hasUnsavedChanges)
    {
      if param != "" && KnownCampus(param) {
        currentCampus := param;
      }
    }

    /**
     * `loadData` given the parsed response: anything but an array is refused and
     * changes nothing; an array replaces the records, shows all of them, resets the
     * counter and clears the unsaved flag.
     */
    method LoadData(data: JsVal) returns (ok: bool)
      requires Valid()
      modifies this`stallholders, this`filtered, this`nextStallId, this`hasUnsavedChanges, this`filterValue
      ensures Valid()
      ensures ok <==> data.Arr?
      ensures !ok ==> stallholders == old(stallholders) && filtered == old(filtered)
                      && nextStallId == old(nextStallId) && hasUnsavedChanges == old(hasUnsavedChanges)
                      && filterValue == old(filterValue)
      ensures ok ==> stallholders == ValidateAndSanitizeData(currentCampus, data.items)
                     && filtered == AllPositions(|stallholders|)
                     && nextStallId == NextStallId(stallholders) && !hasUnsavedChanges
                     && filterValue == ""
      ensures ok && KnownCampus(currentCampus) ==> forall k :: 0 <= k < |stallholders| ==> stallholders[k].location in ValidLocations(currentCampus)
      ensures currentCampus == old(currentCampus) && searchInput == old(searchInput)
    {
      if !data.Arr? {
        return false;
      }
      var records := LoadedRecords(currentCampus, data.items);
      NextStallIdFresh(records);
      // `updateLocationFilter` rebuilds the select, which leaves "All Locations" selected.
      stallholders, filtered, nextStallId, hasUnsavedChanges, filterValue :=
        records, AllPositions(|records|), NextStallId(records), false, "";
      ok := true;
    }

    /** The campus selector: with unsaved changes a refusal keeps everything; otherwise the campus switches and its data loads. */
    method SwitchCampus(campus: string, confirmed: bool, data: JsVal) returns (switched: bool)
      requires Valid()
      modifies this`currentCampus, this`stallholders, this`filtered, this`nextStallId, this`hasUnsavedChanges, this`filterValue
      ensures Valid()
      ensures switched <==> !old(hasUnsavedChanges) || confirmed
      ensures currentCampus == if switched then campus else old(currentCampus)
      ensures switched && data.Arr? ==>
                stallholders == ValidateAndSanitizeData(campus, data.items) && filtered == AllPositions(|stallholders|)
                && nextStallId == NextStallId(stallholders) && !hasUnsavedChanges && filterValue == ""
      ensures !(switched && data.Arr?) ==>
                stallholders == old(stallholders) && filtered == old(filtered)
                && nextStallId == old(nextStallId) && hasUnsavedChanges == old(hasUnsavedChanges)
                && filterValue == old(filterValue)
    {
      if hasUnsavedChanges && !confirmed {
        return false;
      }
      currentCampus := campus;
      var _ := LoadData(data);
      switched := true;
    }

    /** `handleSearch`: re-filters with the new search text and the current location filter. */
    method HandleSearch(query: string)
      requires RecordsValid()
      modifies this`searchInput, this`filtered
      ensures Valid()
      ensures searchInput == query && filtered == Matching(stallholders, SearchTerm(query), filterValue)
      ensures stallholders == old(stallholders) && nextStallId == old(nextStallId)
              && hasUnsavedChanges == old(hasUnsavedChanges) && filterValue == old(filterValue)
              && currentCampus == old(currentCampus)
    {
      searchInput := query;
      filtered := Matching(stallholders, SearchTerm(query), filterValue);
    }

    /** `handleFilter`: re-filters with the new location and the current search text. */
    method HandleFilter(location: string)
      requires Valid()
      modifies this`filterValue, this`filtered
      ensures Valid()
      ensures filterValue == location && filtered == Matching(stallholders, SearchTerm(searchInput), location)
      ensures stallholders == old(stallholders) && nextStallId == old(nextStallId)
              && hasUnsavedChanges == old(hasUnsavedChanges) && searchInput == old(searchInput)
              && currentCampus == old(currentCampus)
    {
      filterValue := location;
      filtered := Matching(stallholders, SearchTerm(searchInput), location);
    }

    /**
     * `addNewStall`: appends one record numbered with the counter and placed at the
     * campus's first location, advances the counter, marks the list unsaved and re-filters.
     */
    method AddNewStall()
      requires Valid()
      modifies this`nextStallId, this`stallholders, this`hasUnsavedChanges, this`searchInput, this`filtered
      ensures Valid()
      ensures stallholders == old(stallholders) + [NewStall(old(nextStallId), currentCampus)]
      ensures nextStallId == old(nextStallId) + 1 && hasUnsavedChanges
      ensures filtered == Matching(stallholders, SearchTerm(searchInput), filterValue)
      ensures currentCampus == old(currentCampus) && searchInput == old(searchInput) && filterValue == old(filterValue)
    {
      NewStallSane(stallholders, nextStallId, currentCampus);
      stallholders := stallholders + [NewStall(nextStallId, currentCampus)];
      nextStallId := nextStallId + 1;
      hasUnsavedChanges := true;
      HandleSearch(searchInput);
    }

    /** `deleteStall`: on confirmation removes the one record at the splice position, keeping the order of the rest. */
    method DeleteStall(index: int, confirmed: bool)
      requires Valid()
      modifies this`stallholders, this`hasUnsavedChanges, this`searchInput, this`filtered
      ensures Valid()
      ensures !confirmed ==> stallholders == old(stallholders) && filtered == old(filtered)
                             && hasUnsavedChanges == old(hasUnsavedChanges)
      ensures confirmed ==> stallholders == Splice(old(stallholders), index) && hasUnsavedChanges
                            && filtered == Matching(stallholders, SearchTerm(searchInput), filterValue)
      ensures nextStallId == old(nextStallId) && currentCampus == old(currentCampus)
              && searchInput == old(searchInput) && filterValue == old(filterValue)
    {
      if !confirmed {
        return;
      }
      SpliceSane(stallholders, index);
      stallholders := Splice(stallholders, index);
      hasUnsavedChanges := true;
      HandleSearch(searchInput);
    }

    /**
     * `updateStall`: the records become `UpdatedRecords` (see `UpdatedRecordsSpec`) and the
     * list is marked unsaved; a refused update changes nothing. The shown records follow,
     * since they are kept as positions.
     */
    method UpdateStall(index: int, field: Field, value: string) returns (ok: bool)
      requires Valid()
      requires 0 <= index < |stallholders|
      modifies this`stallholders, this`hasUnsavedChanges
      ensures Valid()
      ensures var r := UpdatedRecords(old(stallholders), index, field, value, currentCampus);
              ok == r.Some? && stallholders == (if ok then r.value else old(stallholders))
      ensures hasUnsavedChanges == (ok || old(hasUnsavedChanges))
      ensures filtered == old(filtered)
      ensures unchanged(this`nextStallId, this`currentCampus, this`searchInput, this`filterValue)
    {
      var r := UpdatedRecords(stallholders, index, field, value, currentCampus);
      if r.None? {
        return false;
      }
      UpdatedRecordsSpec(stallholders, index, field, value, currentCampus);
      stallholders := r.value;
      hasUnsavedChanges := true;
      ok := true;
    }

    /** `exportData`: hands out the records as they stand and clears the unsaved flag. */
    method ExportData() returns (records: seq<Stallholder>)
      requires Valid()
      modifies this`hasUnsavedChanges
      ensures Valid()
      ensures records == stallholders && !hasUnsavedChanges
      ensures stallholders == old(stallholders) && filtered == old(filtered) && nextStallId == old(nextStallId)
    {
      records := stallholders;
      hasUnsavedChanges := false;
    }
  }
}
