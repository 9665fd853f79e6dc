/*
 * The staff rota lookup: "HH:MM" times as minute counts, "start-end" time
 * slots, the status of a slot and of the fair at a given time, the sanitised
 * rota, who is on a task right now, and one person's current and next slots.
 * The clock is a parameter: every operation takes the "HH:MM" text of the
 * current time.
 */
module StaffRotaModel {
  import opened JsStrings
  import opened JsValues

  // ------------------------------------------------------------------ times

  /** `timeString.split(':').map(Number)` and `hours * 60 + minutes`; a missing minutes part is `Number(undefined)`, NaN. */
  function TimeToMinutes(time: string): Num {
    var parts := Split(time, ':');
    var minutes := if |parts| >= 2 then NumberOf(parts[1]) else NaN;
    Add(Mul(NumberOf(parts[0]), Int(60)), minutes)
  }

  /** Two colon-free texts that read as whole numbers, joined by ':', give hours times sixty plus minutes. */
  lemma TimeToMinutesParts(h: string, m: string, hours: int, minutes: int)
    requires ':' !in h && ':' !in m
    requires NumberOf(h) == Int(hours) && NumberOf(m) == Int(minutes)
    ensures TimeToMinutes(h + ":" + m) == Int(hours * 60 + minutes)
  {
    SplitTwo(h, m, ':');
  }

  /** `formatTime`: the 'en-GB' 24-hour clock with two-digit hours and minutes. */
  function FormatTime(hours: nat, minutes: nat): string
    requires hours < 24 && minutes < 60
  {
    TwoDigits(hours) + ":" + TwoDigits(minutes)
  }

  function TwoDigits(n: nat): (s: string)
    requires n < 100
    ensures |s| == 2 && IsDigit(s[0]) && IsDigit(s[1])
  {
    [DigitChar(n / 10), DigitChar(n % 10)]
  }

  /** Two digits have no colon and read back as their value. */
  lemma TwoDigitsReading(n: nat)
    requires n < 100
    ensures ':' !in TwoDigits(n) && NumberOf(TwoDigits(n)) == Int(n)
  {
    var s := TwoDigits(n);
    assert s[..1][..0] == [];
    assert DigitsValue(s[..1]) == n / 10;
    assert DigitsValue(s) == 10 * (n / 10) + n % 10;
    NumberOfDigits(s);
  }

  /** The clock text of a time reads back as its minute count. */
  lemma TimeToMinutesFormat(hours: nat, minutes: nat)
    requires hours < 24 && minutes < 60
    ensures TimeToMinutes(FormatTime(hours, minutes)) == Int(hours * 60 + minutes)
  {
    TwoDigitsReading(hours);
    TwoDigitsReading(minutes);
    TimeToMinutesParts(TwoDigits(hours), TwoDigits(minutes), hours, minutes);
  }

  /** Text without a colon has no minutes part, so it never reads as a time. */
  lemma TimeWithoutColon(time: string)
    requires ':' !in time
    ensures TimeToMinutes(time) == NaN
  {
    SplitNoSeparator(time, ':');
  }

  /** The two halves of `timeSlot.split('-')`; `end` is `undefined` when there is no '-'. */
  datatype TimeRange = TimeRange(start: string, end: Option<string>)

  function ParseTimeSlot(slot: string): TimeRange {
    var parts := Split(slot, '-');
    TimeRange(parts[0], if |parts| >= 2 then Some(parts[1]) else None)
  }

  /** "start-end" parses back into its two halves. */
  lemma ParseTimeSlotJoin(start: string, end: string)
    requires '-' !in start && '-' !in end
    ensures ParseTimeSlot(start + "-" + end) == TimeRange(start, Some(end))
  {
    SplitTwo(start, end, '-');
  }

  /** A slot without '-' has no end: reading its end throws. */
  lemma ParseTimeSlotNoDash(slot: string)
    ensures ParseTimeSlot(slot).end.None? <==> '-' !in slot
  {
    var i := FindChar(slot, '-');
    FindCharFirst(slot, '-');
    if i == -1 {
      SplitNoSeparator(slot, '-');
    } else {
      SplitHead(slot, '-', i);
    }
  }

  /** `timeSlotContainsTime`: the half-open test start <= time < end; `None` where the slot has no end and the call throws. */
  function TimeSlotContainsTime(slot: string, time: string): (r: Option<bool>)
    ensures r.None? <==> ParseTimeSlot(slot).end.None?
  {
    var range := ParseTimeSlot(slot);
    if range.end.None? then None
    else
      var t := TimeToMinutes(time);
      Some(Le(TimeToMinutes(range.start), t) && Lt(t, TimeToMinutes(range.end.value)))
  }

  /** For well-formed times, containment is the half-open interval on minutes. */
  lemma ContainsTimeMinutes(start: string, end: string, time: string, a: int, b: int, t: int)
    requires '-' !in start && '-' !in end
    requires TimeToMinutes(start) == Int(a) && TimeToMinutes(end) == Int(b) && TimeToMinutes(time) == Int(t)
    ensures TimeSlotContainsTime(start + "-" + end, time) == Some(a <= t < b)
  {
    ParseTimeSlotJoin(start, end);
  }

  datatype SlotStatus = Current | Upcoming | Future | Past

  /**
   * The comparison chain of `getSlotStatus` on minute counts: current inside the
   * slot, upcoming when it starts within 120 minutes, future when later, past
   * otherwise; a NaN on either side of a comparison makes it false.
   */
  function Classify(t: Num, start: Num, end: Num): (s: SlotStatus)
    ensures t.Int? && start.Int? && end.Int? ==>
              (s == Current <==> start.v <= t.v < end.v)
              && (s == Upcoming <==> t.v < start.v && start.v - t.v <= 120)
              && (s == Future <==> start.v - t.v > 120)
              && (s == Past <==> start.v <= t.v && end.v <= t.v)
    ensures t.NaN? || start.NaN? ==> s == Past
    ensures end.NaN? && s == Current ==> false
  {
    if Le(start, t) && Lt(t, end) then Current
    else if Lt(t, start) then (if Le(Sub(start, t), Int(120)) then Upcoming else Future)
    else Past
  }

  /** `getSlotStatus`; `None` where the slot has no end and the call throws. */
  function GetSlotStatus(slot: string, time: string): (r: Option<SlotStatus>)
    ensures r.None? <==> ParseTimeSlot(slot).end.None?
  {
    var range := ParseTimeSlot(slot);
    if range.end.None? then None
    else Some(Classify(TimeToMinutes(time), TimeToMinutes(range.start), TimeToMinutes(range.end.value)))
  }

  /** A slot is current exactly when it contains the time. */
  lemma CurrentIffContains(slot: string, time: string)
    ensures GetSlotStatus(slot, time) == Some(Current) <==> TimeSlotContainsTime(slot, time) == Some(true)
  {
  }

  // ------------------------------------------------------------------ the fair

  datatype FairStatus = Before | Open | Closed

  const FairOpenMinutes := 10 * 60 + 30
  const FairCloseMinutes := 15 * 60

  /** `getFairStatus` on a minute count: before 10:30, open until 15:00, closed from then on, and closed for NaN. */
  function FairStatusAt(m: Num): (r: FairStatus)
    ensures m.Int? ==> (r == Before <==> m.v < 630) && (r == Open <==> 630 <= m.v < 900) && (r == Closed <==> 900 <= m.v)
    ensures m.NaN? ==> r == Closed
  {
    if Lt(m, Int(FairOpenMinutes)) then Before
    else if Le(Int(FairOpenMinutes), m) && Lt(m, Int(FairCloseMinutes)) then Open
    else Closed
  }

  function GetFairStatus(time: string): FairStatus {
    FairStatusAt(TimeToMinutes(time))
  }

  /** At a clock time the fair is not yet open before 10:30, open until 15:00 and closed from then on. */
  lemma FairStatusFormat(hours: nat, minutes: nat)
    requires hours < 24 && minutes < 60
    ensures var t := hours * 60 + minutes;
            GetFairStatus(FormatTime(hours, minutes)) == (if t < 630 then Before else if t < 900 then Open else Closed)
  {
    TimeToMinutesFormat(hours, minutes);
  }

  // ------------------------------------------------------------------ the rota

  datatype Slot = Slot(timeSlot: string, task: string, taskName: string)
  datatype Person = Person(name: string, schedule: seq<Slot>)

  /** `sanitizeString(v.key || '')`. */
  function TextField(v: JsVal, key: string): (r: string)
    ensures '<' !in r && '>' !in r
    ensures !Get(v, key).Str? ==> r == ""
    ensures Get(v, key).Str? ==> r == Sanitize(Get(v, key).s)
  {
    SanitizeValue(Or(Get(v, key), Str("")))
  }

  /** One schedule entry: dropped unless it is an object. */
  function SanitizeSlot(v: JsVal): (r: Option<Slot>)
    ensures r.None? <==> !IsObject(v)
  {
    if !IsObject(v) then None
    else Some(Slot(TextField(v, "timeSlot"), TextField(v, "task"), TextField(v, "taskName")))
  }

  /** A schedule that is not an array becomes empty. */
  function SanitizeSchedule(v: JsVal): seq<Slot> {
    if v.Arr? then MapPresent(SanitizeSlot, v.items) else []
  }

  /** One person: dropped unless it is an object with a non-empty sanitised name. */
  function SanitizePerson(v: JsVal): (r: Option<Person>)
    ensures r.None? <==> !IsObject(v) || TextField(v, "name") == ""
  {
    if !IsObject(v) then None
    else
      var name := TextField(v, "name");
      if name == "" then None else Some(Person(name, SanitizeSchedule(Get(v, "schedule"))))
  }

  /** `validateAndSanitizeRotaData` on the `staff` array. */
  function ValidateAndSanitizeRotaData(staff: seq<JsVal>): seq<Person> {
    MapPresent(SanitizePerson, staff)
  }

  /**
   * The sanitised rota holds exactly the objects with a non-empty name, each with a
   * name free of angle brackets and the object entries of its schedule array.
   */
  lemma ValidateRotaSpec(staff: seq<JsVal>)
    ensures forall p :: p in ValidateAndSanitizeRotaData(staff) ==>
              p.name != "" && '<' !in p.name && '>' !in p.name
              && exists i :: 0 <= i < |staff| && IsObject(staff[i]) && SanitizePerson(staff[i]) == Some(p)
    ensures forall i :: 0 <= i < |staff| && IsObject(staff[i]) && TextField(staff[i], "name") != "" ==>
              SanitizePerson(staff[i]).value in ValidateAndSanitizeRotaData(staff)
  {
    forall p | p in ValidateAndSanitizeRotaData(staff)
      ensures p.name != "" && '<' !in p.name && '>' !in p.name
      ensures exists i :: 0 <= i < |staff| && IsObject(staff[i]) && SanitizePerson(staff[i]) == Some(p)
    {
      MapPresentMembership(SanitizePerson, staff, p);
    }
    forall i | 0 <= i < |staff| && IsObject(staff[i]) && TextField(staff[i], "name") != ""
      ensures SanitizePerson(staff[i]).value in ValidateAndSanitizeRotaData(staff)
    {
      MapPresentMembership(SanitizePerson, staff, SanitizePerson(staff[i]).value);
    }
  }

  /** A schedule keeps exactly its object entries, and is empty when it is not an array. */
  lemma SanitizeScheduleSpec(v: JsVal)
    ensures !v.Arr? ==> SanitizeSchedule(v) == []
    ensures v.Arr? ==> forall s :: s in SanitizeSchedule(v) ==>
              exists j :: 0 <= j < |v.items| && IsObject(v.items[j]) && SanitizeSlot(v.items[j]) == Some(s)
    ensures v.Arr? ==> forall j :: 0 <= j < |v.items| && IsObject(v.items[j]) ==>
              SanitizeSlot(v.items[j]).value in SanitizeSchedule(v)
  {
    if v.Arr? {
      forall s | s in SanitizeSchedule(v)
        ensures exists j :: 0 <= j < |v.items| && IsObject(v.items[j]) && SanitizeSlot(v.items[j]) == Some(s)
      {
        MapPresentMembership(SanitizeSlot, v.items, s);
      }
      forall j | 0 <= j < |v.items| && IsObject(v.items[j])
        ensures SanitizeSlot(v.items[j]).value in SanitizeSchedule(v)
      {
        MapPresentMembership(SanitizeSlot, v.items, SanitizeSlot(v.items[j]).value);
      }
    }
  }

  /** `loadRotaData` after the fetch: the document needs a `staff` array, otherwise loading throws. */
  function LoadRota(data: JsVal): (r: Option<seq<Person>>)
    ensures r.Some? <==> Truthy(data) && Get(data, "staff").Arr?
  {
    var staff := Get(data, "staff");
    if !Truthy(data) || !Truthy(staff) || !staff.Arr? then None
    else Some(ValidateAndSanitizeRotaData(staff.items))
  }

  // ------------------------------------------------------------------ sorting

  /** Adjacent elements are in order of their keys. */
  predicate SortedBy<T>(xs: seq<T>, key: T -> string) {
    forall i :: 0 <= i < |xs| - 1 ==> StrLe(key(xs[i]), key(xs[i + 1]))
  }

  /** Inserts `x` before the first element whose key is not below its own, so equal keys keep their order. */
  function InsertBy<T>(x: T, sorted: seq<T>, key: T -> string): (r: seq<T>)
    requires SortedBy(sorted, key)
    ensures SortedBy(r, key) && multiset(r) == multiset(sorted) + multiset{x}
    ensures |r| == |sorted| + 1 && (r[0] == x || (sorted != [] && r[0] == sorted[0]))
  {
    if sorted == [] || StrLe(key(x), key(sorted[0])) then [x] + sorted
    else
      var t := InsertBy(x, sorted[1..], key);
      InsertByStep(x, sorted, t, key);
      [sorted[0]] + t
  }

  lemma InsertByStep<T>(x: T, sorted: seq<T>, t: seq<T>, key: T -> string)
    requires SortedBy(sorted, key) && sorted != [] && !StrLe(key(x), key(sorted[0]))
    requires SortedBy(t, key) && multiset(t) == multiset(sorted[1..]) + multiset{x}
    requires |t| == |sorted| && (t[0] == x || (|sorted| > 1 && t[0] == sorted[1..][0]))
    ensures SortedBy([sorted[0]] + t, key) && multiset([sorted[0]] + t) == multiset(sorted) + multiset{x}
  {
    assert sorted == [sorted[0]] + sorted[1..];
    StrLeTotal(key(x), key(sorted[0]));
    var r := [sorted[0]] + t;
    forall i | 0 <= i < |r| - 1
      ensures StrLe(key(r[i]), key(r[i + 1]))
    {
      if i > 0 {
        assert r[i] == t[i - 1] && r[i + 1] == t[i];
      }
    }
  }

  /** `Array.prototype.sort` with a key comparison: a sorted permutation, stable for equal keys. */
  function SortBy<T>(xs: seq<T>, key: T -> string): (r: seq<T>)
    ensures SortedBy(r, key) && multiset(r) == multiset(xs)
  {
    if xs == [] then []
    else
      assert xs == [xs[0]] + xs[1..];
      InsertBy(xs[0], SortBy(xs[1..], key), key)
  }

  /** The elements whose key is `v`, in order. */
  function WithKey<T>(xs: seq<T>, key: T -> string, v: string): (r: seq<T>)
    ensures |r| <= |xs|
  {
    if xs == [] then [] else (if key(xs[0]) == v then [xs[0]] else []) + WithKey(xs[1..], key, v)
  }

  lemma WithKeyCons<T>(h: T, t: seq<T>, key: T -> string, v: string)
    ensures WithKey([h] + t, key, v) == (if key(h) == v then [h] else []) + WithKey(t, key, v)
  {
    assert ([h] + t)[1..] == t;
  }

  /** An element whose key is not at most the first one's goes after it. */
  lemma InsertByLater<T>(x: T, sorted: seq<T>, key: T -> string)
    requires SortedBy(sorted, key) && sorted != [] && !StrLe(key(x), key(sorted[0]))
    ensures InsertBy(x, sorted, key) == [sorted[0]] + InsertBy(x, sorted[1..], key)
  {
  }

  /** Insertion goes before every element with the same key, never after one. */
  lemma {:induction false} InsertByStable<T>(x: T, sorted: seq<T>, key: T -> string, v: string)
    requires SortedBy(sorted, key)
    ensures WithKey(InsertBy(x, sorted, key), key, v) == (if key(x) == v then [x] else []) + WithKey(sorted, key, v)
    decreases |sorted|
  {
    if sorted == [] || StrLe(key(x), key(sorted[0])) {
      WithKeyCons(x, sorted, key, v);
    } else {
      var head, rest := sorted[0], sorted[1..];
      var t := InsertBy(x, rest, key);
      InsertByLater(x, sorted, key);
      InsertByStable(x, rest, key, v);
      StrLeRefl(key(x));
      WithKeyCons(head, t, key, v);
      assert sorted == [head] + rest;
      WithKeyCons(head, rest, key, v);
      PrefixesCommute(if key(x) == v then [x] else [], if key(head) == v then [head] else [], WithKey(rest, key, v));
    }
  }

  /** `SortBy` is stable: the elements sharing a key keep their relative order. */
  lemma {:induction false} SortByStable<T>(xs: seq<T>, key: T -> string, v: string)
    ensures WithKey(SortBy(xs, key), key, v) == WithKey(xs, key, v)
  {
    if xs != [] {
      SortByStable(xs[1..], key, v);
      InsertByStable(xs[0], SortBy(xs[1..], key), key, v);
    }
  }

  // ------------------------------------------------------------------ who is on a task

  /** One row of the "who is on this task now" result. */
  datatype Assignment = Assignment(name: string, timeSlot: string, task: string)

  function AssignmentName(a: Assignment): string { a.name }

  /** The slot is for the task and contains the time. */
  predicate OnTask(slot: Slot, task: string, time: string) {
    slot.taskName == task && TimeSlotContainsTime(slot.timeSlot, time) == Some(true)
  }

  /** The slot is for the task but has no end, so testing it throws. */
  predicate TaskSlotThrows(slot: Slot, task: string, time: string) {
    slot.taskName == task && TimeSlotContainsTime(slot.timeSlot, time).None?
  }

  /** What one slot adds in the inner `forEach`: a row when it is on the task now; `None` where the test throws. */
  function SlotRows(name: string, slot: Slot, task: string, time: string): (r: Option<seq<Assignment>>)
    ensures r.None? <==> TaskSlotThrows(slot, task, time)
    ensures r.Some? ==> forall a :: a in r.value <==> OnTask(slot, task, time) && a == Assignment(name, slot.timeSlot, slot.taskName)
  {
    if slot.taskName != task then Some([])
    else
      match TimeSlotContainsTime(slot.timeSlot, time)
      case None => None
      case Some(inside) => Some(if inside then [Assignment(name, slot.timeSlot, slot.taskName)] else [])
  }

  /** The inner `forEach` over one person's slots; `None` once a slot throws. */
  function SlotsAssigned(name: string, slots: seq<Slot>, task: string, time: string): Option<seq<Assignment>> {
    FlatMapAll(slot => SlotRows(name, slot, task, time), slots)
  }

  function PersonRows(p: Person, task: string, time: string): Option<seq<Assignment>> {
    SlotsAssigned(p.name, p.schedule, task, time)
  }

  /** The outer `forEach` over the rota; `None` once a slot throws. */
  function StaffAssigned(staff: seq<Person>, task: string, time: string): Option<seq<Assignment>> {
    FlatMapAll(p => PersonRows(p, task, time), staff)
  }

  /** One person's walk throws exactly when one of their slots on the task has no end. */
  lemma SlotsAssignedFails(name: string, slots: seq<Slot>, task: string, time: string)
    ensures SlotsAssigned(name, slots, task, time).None? <==>
              exists j :: 0 <= j < |slots| && TaskSlotThrows(slots[j], task, time)
  {
    FlatMapAllFails(slot => SlotRows(name, slot, task, time), slots);
  }

  /** One person's rows are exactly their slots on the task that contain the time. */
  lemma SlotsAssignedMembers(name: string, slots: seq<Slot>, task: string, time: string, a: Assignment)
    requires SlotsAssigned(name, slots, task, time).Some?
    ensures a in SlotsAssigned(name, slots, task, time).value <==>
              exists j :: 0 <= j < |slots| && OnTask(slots[j], task, time) && a == Assignment(name, slots[j].timeSlot, slots[j].taskName)
  {
    FlatMapAllMembers(slot => SlotRows(name, slot, task, time), slots, a);
  }

  /** The rota walk throws exactly when some slot on the task has no end. */
  lemma StaffAssignedFails(staff: seq<Person>, task: string, time: string)
    ensures StaffAssigned(staff, task, time).None? <==>
              exists i, j :: 0 <= i < |staff| && 0 <= j < |staff[i].schedule| && TaskSlotThrows(staff[i].schedule[j], task, time)
  {
    FlatMapAllFails(p => PersonRows(p, task, time), staff);
    forall i | 0 <= i < |staff|
      ensures PersonRows(staff[i], task, time).None? <==>
                exists j :: 0 <= j < |staff[i].schedule| && TaskSlotThrows(staff[i].schedule[j], task, time)
    {
      SlotsAssignedFails(staff[i].name, staff[i].schedule, task, time);
    }
  }

  /** The rota's rows are exactly the slots on the task that contain the time, each with its person's name. */
  lemma StaffAssignedMembers(staff: seq<Person>, task: string, time: string, a: Assignment)
    requires StaffAssigned(staff, task, time).Some?
    ensures a in StaffAssigned(staff, task, time).value <==>
              exists i, j :: 0 <= i < |staff| && 0 <= j < |staff[i].schedule| && OnTask(staff[i].schedule[j], task, time)
                             && a == Assignment(staff[i].name, staff[i].schedule[j].timeSlot, staff[i].schedule[j].taskName)
  {
    var f := p => PersonRows(p, task, time);
    FlatMapAllMembers(f, staff, a);
    if a in StaffAssigned(staff, task, time).value {
      var i :| 0 <= i < |staff| && f(staff[i]).Some? && a in f(staff[i]).value;
      SlotsAssignedMembers(staff[i].name, staff[i].schedule, task, time, a);
    }
    if exists i, j :: 0 <= i < |staff| && 0 <= j < |staff[i].schedule| && OnTask(staff[i].schedule[j], task, time)
                      && a == Assignment(staff[i].name, staff[i].schedule[j].timeSlot, staff[i].schedule[j].taskName) {
      var i, j :| 0 <= i < |staff| && 0 <= j < |staff[i].schedule| && OnTask(staff[i].schedule[j], task, time)
                  && a == Assignment(staff[i].name, staff[i].schedule[j].timeSlot, staff[i].schedule[j].taskName);
      FlatMapAllFails(f, staff);
      assert f(staff[i]).Some?;
      SlotsAssignedMembers(staff[i].name, staff[i].schedule, task, time, a);
    }
  }


  // ------------------------------------------------------------------ one person

  /** `findPersonByName`'s test: either lower-cased name contains the other. */
  predicate NameMatch(p: Person, normalized: string) {
    Includes(ToLower(p.name), normalized) || Includes(normalized, ToLower(p.name))
  }

  /** `searchName.toLowerCase().trim()`. */
  function NormalizeSearch(search: string): string {
    Trim(ToLower(search))
  }

  function FirstNameMatch(staff: seq<Person>, normalized: string, from: nat): (r: int)
    requires from <= |staff|
    ensures r == -1 || (from <= r < |staff| && NameMatch(staff[r], normalized))
    ensures forall i :: from <= i < |staff| && (r == -1 || i < r) ==> !NameMatch(staff[i], normalized)
    decreases |staff| - from
  {
    if from == |staff| then -1
    else if NameMatch(staff[from], normalized) then from
    else FirstNameMatch(staff, normalized, from + 1)
  }

  /** `findPersonByName`: the first person whose name matches, if any. */
  function FindPersonByName(staff: seq<Person>, search: string): (r: Option<Person>)
    ensures var n := NormalizeSearch(search);
            (r.Some? ==> exists i :: 0 <= i < |staff| && staff[i] == r.value && NameMatch(staff[i], n)
                                     && forall j :: 0 <= j < i ==> !NameMatch(staff[j], n))
            && (r.None? ==> forall i :: 0 <= i < |staff| ==> !NameMatch(staff[i], n))
  {
    var i := FirstNameMatch(staff, NormalizeSearch(search), 0);
    if i == -1 then None else Some(staff[i])
  }

  /** A slot with its status, as `displayPersonResults` lists them. */
  datatype Entry = Entry(slot: Slot, status: SlotStatus)

  function EntryTimeSlot(e: Entry): string { e.slot.timeSlot }

  /** One slot with its status; `None` where the status throws. */
  function SlotEntry(slot: Slot, time: string): (r: Option<Entry>)
    ensures r.None? <==> GetSlotStatus(slot.timeSlot, time).None?
    ensures r.Some? ==> r.value.slot == slot && GetSlotStatus(slot.timeSlot, time) == Some(r.value.status)
  {
    match GetSlotStatus(slot.timeSlot, time)
    case None => None
    case Some(status) => Some(Entry(slot, status))
  }

  /** `schedule.map(slot => ({...slot, status}))`; `None` once a slot throws. */
  function WithStatus(slots: seq<Slot>, time: string): Option<seq<Entry>> {
    MapAll(s => SlotEntry(s, time), slots)
  }

  /** The entries with a given status, in order. */
  function Having(entries: seq<Entry>, s: SlotStatus): (r: seq<Slot>)
    ensures |r| <= |entries|
    ensures forall x :: x in r <==> Entry(x, s) in entries
  {
    if entries == [] then []
    else
      var rest := Having(entries[1..], s);
      assert entries == [entries[0]] + entries[1..];
      if entries[0].status == s then [entries[0].slot] + rest else rest
  }

  /** What the person panel shows: the current slot, at most two next ones, or the latest past one when there is neither. */
  datatype ScheduleView = ScheduleView(current: Option<Slot>, upcoming: seq<Slot>, recent: Option<Slot>)

  /** The panel built from the slots with their statuses, sorted by time slot. */
  function ScheduleViewOf(entries: seq<Entry>): ScheduleView {
    var sorted := SortBy(entries, EntryTimeSlot);
    var currents := Having(sorted, Current);
    var upcoming := Having(sorted, Upcoming);
    var pasts := Having(sorted, Past);
    var current := if currents == [] then None else Some(currents[0]);
    var next := if |upcoming| <= 2 then upcoming else upcoming[..2];
    var recent := if current.None? && next == [] && pasts != [] then Some(pasts[|pasts| - 1]) else None;
    ScheduleView(current, next, recent)
  }

  /** `displayPersonResults` up to the page; `None` where a status throws. */
  function PersonView(slots: seq<Slot>, time: string): Option<ScheduleView> {
    match WithStatus(slots, time)
    case None => None
    case Some(entries) => Some(ScheduleViewOf(entries))
  }

  /** The slots are in time-slot order, each no later than every one after it. */
  predicate InTimeOrder(xs: seq<Slot>) {
    forall i, j :: 0 <= i < j < |xs| ==> StrLe(xs[i].timeSlot, xs[j].timeSlot)
  }

  /** The panel's current slot: the earliest current one, present exactly when some slot is current. */
  ghost predicate ShowsCurrent(current: Option<Slot>, entries: seq<Entry>) {
    (current.Some? <==> exists x :: Entry(x, Current) in entries)
    && (current.Some? ==> Entry(current.value, Current) in entries
                          && forall x :: Entry(x, Current) in entries ==> StrLe(current.value.timeSlot, x.timeSlot))
  }

  /** The panel's next slots: the earliest upcoming ones, at most two, in time order. */
  ghost predicate ShowsUpcoming(upcoming: seq<Slot>, entries: seq<Entry>) {
    |upcoming| <= 2 && InTimeOrder(upcoming)
    && (forall x :: x in upcoming ==> Entry(x, Upcoming) in entries)
    && (upcoming == [] <==> forall x :: Entry(x, Upcoming) !in entries)
    && (|upcoming| < 2 ==> forall x :: Entry(x, Upcoming) in entries ==> x in upcoming)
    && (forall x, y :: Entry(x, Upcoming) in entries && x !in upcoming && y in upcoming ==> StrLe(y.timeSlot, x.timeSlot))
  }

  /** The panel's recent slot: the latest past one, shown only when nothing is current or upcoming. */
  ghost predicate ShowsRecent(v: ScheduleView, entries: seq<Entry>) {
    (v.recent.Some? <==> v.current.None? && v.upcoming == [] && exists x :: Entry(x, Past) in entries)
    && (v.recent.Some? ==> Entry(v.recent.value, Past) in entries
                           && forall x :: Entry(x, Past) in entries ==> StrLe(x.timeSlot, v.recent.value.timeSlot))
  }

  /** What the panel must show for slots with these statuses. */
  ghost predicate ShowsSchedule(v: ScheduleView, entries: seq<Entry>) {
    ShowsCurrent(v.current, entries) && ShowsUpcoming(v.upcoming, entries) && ShowsRecent(v, entries)
  }

  /** In a list sorted by time slot, every entry is no later than every one after it. */
  lemma {:induction false} SortedPairs(es: seq<Entry>)
    requires SortedBy(es, EntryTimeSlot)
    ensures forall i, j :: 0 <= i < j < |es| ==> StrLe(es[i].slot.timeSlot, es[j].slot.timeSlot)
  {
    if |es| > 1 {
      SortedPairs(es[1..]);
      forall j | 1 < j < |es|
        ensures StrLe(es[0].slot.timeSlot, es[j].slot.timeSlot)
      {
        assert es[1..][0] == es[1] && es[1..][j - 1] == es[j];
        StrLeTrans(es[0].slot.timeSlot, es[1].slot.timeSlot, es[j].slot.timeSlot);
      }
      forall i, j | 0 < i < j < |es|
        ensures StrLe(es[i].slot.timeSlot, es[j].slot.timeSlot)
      {
        assert es[1..][i - 1] == es[i] && es[1..][j - 1] == es[j];
      }
    }
  }

  /** The slots of one status, taken from entries sorted by time slot, are in time order. */
  lemma {:induction false} HavingInOrder(es: seq<Entry>, s: SlotStatus)
    requires forall i, j :: 0 <= i < j < |es| ==> StrLe(es[i].slot.timeSlot, es[j].slot.timeSlot)
    ensures InTimeOrder(Having(es, s))
    decreases |es|
  {
    if es != [] {
      var tail := es[1..];
      forall i, j | 0 <= i < j < |tail|
        ensures StrLe(tail[i].slot.timeSlot, tail[j].slot.timeSlot)
      {
        assert tail[i] == es[i + 1] && tail[j] == es[j + 1];
      }
      HavingInOrder(tail, s);
      var rest := Having(tail, s);
      if es[0].status == s {
        var r := [es[0].slot] + rest;
        forall j | 0 <= j < |rest|
          ensures StrLe(es[0].slot.timeSlot, rest[j].timeSlot)
        {
          assert Entry(rest[j], s) in tail;
          var k :| 0 <= k < |tail| && tail[k] == Entry(rest[j], s);
          assert es[k + 1] == tail[k];
        }
        forall i, j | 0 <= i < j < |r|
          ensures StrLe(r[i].timeSlot, r[j].timeSlot)
        {
          if i > 0 {
            assert r[i] == rest[i - 1] && r[j] == rest[j - 1];
          } else {
            assert r[j] == rest[j - 1];
          }
        }
      }
    }
  }

  /** The first of slots in time order is no later than any of them. */
  lemma FirstIsEarliest(xs: seq<Slot>)
    requires InTimeOrder(xs) && xs != []
    ensures forall x :: x in xs ==> StrLe(xs[0].timeSlot, x.timeSlot)
  {
    forall x | x in xs
      ensures StrLe(xs[0].timeSlot, x.timeSlot)
    {
      if x == xs[0] { StrLeRefl(x.timeSlot); }
    }
  }

  /** The last of slots in time order is no earlier than any of them. */
  lemma LastIsLatest(xs: seq<Slot>)
    requires InTimeOrder(xs) && xs != []
    ensures forall x :: x in xs ==> StrLe(x.timeSlot, xs[|xs| - 1].timeSlot)
  {
    forall x | x in xs
      ensures StrLe(x.timeSlot, xs[|xs| - 1].timeSlot)
    {
      if x == xs[|xs| - 1] { StrLeRefl(x.timeSlot); }
    }
  }

  /** A prefix of slots in time order is in time order and no later than the slots it leaves out. */
  lemma PrefixIsEarliest(xs: seq<Slot>, n: nat)
    requires InTimeOrder(xs) && n <= |xs|
    ensures InTimeOrder(xs[..n])
    ensures forall x, y :: x in xs && x !in xs[..n] && y in xs[..n] ==> StrLe(y.timeSlot, x.timeSlot)
  {
    assert forall k :: 0 <= k < n ==> xs[k] == xs[..n][k];
    forall x, y | x in xs && x !in xs[..n] && y in xs[..n]
      ensures StrLe(y.timeSlot, x.timeSlot)
    {
      var j :| 0 <= j < |xs| && xs[j] == x;
      var i :| 0 <= i < n && xs[..n][i] == y;
    }
  }

  /** Sorting the entries by time slot keeps them and puts each status's slots in time order. */
  lemma SortedEntries(entries: seq<Entry>, sorted: seq<Entry>)
    requires sorted == SortBy(entries, EntryTimeSlot)
    ensures forall e :: e in sorted <==> e in entries
    ensures InTimeOrder(Having(sorted, Current)) && InTimeOrder(Having(sorted, Upcoming)) && InTimeOrder(Having(sorted, Past))
  {
    forall e
      ensures e in sorted <==> e in entries
    {
      assert e in sorted <==> e in multiset(sorted);
      assert e in entries <==> e in multiset(entries);
    }
    SortedPairs(sorted);
    HavingInOrder(sorted, Current);
    HavingInOrder(sorted, Upcoming);
    HavingInOrder(sorted, Past);
  }

  lemma CurrentShown(entries: seq<Entry>, currents: seq<Slot>)
    requires InTimeOrder(currents) && forall x :: x in currents <==> Entry(x, Current) in entries
    ensures ShowsCurrent(if currents == [] then None else Some(currents[0]), entries)
  {
    if currents != [] {
      assert currents[0] in currents;
      FirstIsEarliest(currents);
    }
  }

  lemma UpcomingShown(entries: seq<Entry>, upcoming: seq<Slot>)
    requires InTimeOrder(upcoming) && forall x :: x in upcoming <==> Entry(x, Upcoming) in entries
    ensures ShowsUpcoming(if |upcoming| <= 2 then upcoming else upcoming[..2], entries)
  {
    var n := if |upcoming| <= 2 then |upcoming| else 2;
    var shown := if |upcoming| <= 2 then upcoming else upcoming[..2];
    assert shown == upcoming[..n];
    PrefixIsEarliest(upcoming, n);
    forall x | x in shown
      ensures Entry(x, Upcoming) in entries
    {
      assert x in upcoming;
    }
    if upcoming != [] {
      assert upcoming[0] in upcoming && upcoming[0] == shown[0];
    }
  }

  lemma RecentShown(entries: seq<Entry>, pasts: seq<Slot>, v: ScheduleView)
    requires InTimeOrder(pasts) && forall x :: x in pasts <==> Entry(x, Past) in entries
    requires v.recent == if v.current.None? && v.upcoming == [] && pasts != [] then Some(pasts[|pasts| - 1]) else None
    ensures ShowsRecent(v, entries)
  {
    if pasts != [] {
      assert pasts[|pasts| - 1] in pasts;
      LastIsLatest(pasts);
    }
  }

  /** The panel is what `ShowsSchedule` asks of the entries' statuses. */
  lemma ScheduleViewSpec(entries: seq<Entry>)
    ensures ShowsSchedule(ScheduleViewOf(entries), entries)
  {
    var sorted := SortBy(entries, EntryTimeSlot);
    SortedEntries(entries, sorted);
    var v := ScheduleViewOf(entries);
    CurrentShown(entries, Having(sorted, Current));
    UpcomingShown(entries, Having(sorted, Upcoming));
    RecentShown(entries, Having(sorted, Past), v);
  }

  /** The statuses attached to a person's slots are exactly those slots' statuses. */
  lemma EntriesOfSlots(slots: seq<Slot>, time: string, entries: seq<Entry>)
    requires WithStatus(slots, time) == Some(entries)
    ensures forall x, s :: Entry(x, s) in entries <==> x in slots && GetSlotStatus(x.timeSlot, time) == Some(s)
  {
    MapAllSpec(s => SlotEntry(s, time), slots);
    forall x, s
      ensures Entry(x, s) in entries <==> x in slots && GetSlotStatus(x.timeSlot, time) == Some(s)
    {
      if Entry(x, s) in entries {
        var k :| 0 <= k < |entries| && entries[k] == Entry(x, s);
        assert slots[k] == x;
      }
      if x in slots && GetSlotStatus(x.timeSlot, time) == Some(s) {
        var k :| 0 <= k < |slots| && slots[k] == x;
        assert entries[k] == Entry(x, s);
      }
    }
  }

  /**
   * The panel fails exactly when a slot has no end. Otherwise it pairs each of the
   * person's slots with its status at the time, and is what `ShowsSchedule` asks of
   * those statuses.
   */
  lemma PersonViewSpec(slots: seq<Slot>, time: string)
    ensures PersonView(slots, time).None? <==> exists k :: 0 <= k < |slots| && GetSlotStatus(slots[k].timeSlot, time).None?
    ensures PersonView(slots, time).Some? ==>
              var entries := WithStatus(slots, time).value;
              (forall x, s :: Entry(x, s) in entries <==> x in slots && GetSlotStatus(x.timeSlot, time) == Some(s))
              && ShowsSchedule(PersonView(slots, time).value, entries)
  {
    MapAllSpec(s => SlotEntry(s, time), slots);
    var ws := WithStatus(slots, time);
    if ws.Some? {
      EntriesOfSlots(slots, time, ws.value);
      ScheduleViewSpec(ws.value);
    }
  }

  // ------------------------------------------------------------------ the page

  datatype TaskOutcome = NoTaskSelected | TaskStillLoading | TaskFailed | TaskResults(staff: seq<Assignment>)

  datatype PersonOutcome =
    | NoNameEntered
    | PersonStillLoading
    | NoResults
    | PersonFailed
    | PersonResults(person: Person, view: ScheduleView)

  /** The rota page: the loaded rota and whether loading has finished. */
  class StaffRota {
    var rotaData: seq<Person>
    var dataLoaded: bool

    /** Nothing is held before the rota has loaded. */
    predicate Valid()
      reads this
    {
      !dataLoaded ==> rotaData == []
    }

    constructor()
      ensures Valid() && !dataLoaded && rotaData == []
    {
      rotaData := [];
      dataLoaded := false;
    }

    /** `loadRotaData` given the parsed document; a document without a `staff` array leaves the page as it was. */
    method LoadRotaData(data: JsVal) returns (ok: bool)
      requires Valid()
      modifies this
      ensures Valid()
      ensures ok <==> LoadRota(data).Some?
      ensures ok ==> rotaData == LoadRota(data).value && dataLoaded
      ensures !ok ==> rotaData == old(rotaData) && dataLoaded == old(dataLoaded)
    {
      var loaded := LoadRota(data);
      if loaded.None? {
        return false;
      }
      rotaData := loaded.value;
      dataLoaded := true;
      return true;
    }

    /**
     * `findStaffByTaskAtCurrentTime`: the nested walk that collects the rows for the
     * task whose slot contains the time, then the sort by name.
     */
    method FindStaffByTaskAtCurrentTime(taskName: string, time: string) returns (r: Option<seq<Assignment>>)
      ensures r.None? <==> StaffAssigned(rotaData, taskName, time).None?
      ensures r.Some? ==> r.value == SortBy(StaffAssigned(rotaData, taskName, time).value, AssignmentName)
    {
      var staffAssigned: seq<Assignment> := [];
      var i := 0;
      while i < |rotaData|
        invariant 0 <= i <= |rotaData|
        invariant StaffAssigned(rotaData[..i], taskName, time) == Some(staffAssigned)
      {
        var rows := CollectSlots(rotaData[i].name, rotaData[i].schedule, taskName, time);
        if rows.None? {
          FlatMapAllFails(p => PersonRows(p, taskName, time), rotaData);
          return None;
        }
        StaffAssignedPrefix(rotaData, taskName, time, i, staffAssigned);
        staffAssigned := staffAssigned + rows.value;
        i := i + 1;
      }
      assert rotaData[..i] == rotaData;
      return Some(SortBy(staffAssigned, AssignmentName));
    }

    /** `searchByTask`: a task must be chosen and the rota loaded. */
    method SearchByTask(selectedTask: string, time: string) returns (o: TaskOutcome)
      ensures selectedTask == "" ==> o == NoTaskSelected
      ensures selectedTask != "" && !dataLoaded ==> o == TaskStillLoading
      ensures selectedTask != "" && dataLoaded ==>
                (o == TaskFailed <==> StaffAssigned(rotaData, selectedTask, time).None?)
                && (o.TaskResults? ==> o.staff == SortBy(StaffAssigned(rotaData, selectedTask, time).value, AssignmentName))
    {
      if selectedTask == "" {
        return NoTaskSelected;
      }
      if !dataLoaded {
        return TaskStillLoading;
      }
      var r := FindStaffByTaskAtCurrentTime(selectedTask, time);
      if r.None? {
        return TaskFailed;
      }
      return TaskResults(r.value);
    }

    /** `searchByPerson`: the sanitised name must be non-empty and the rota loaded. */
    method SearchByPerson(input: string, time: string) returns (o: PersonOutcome)
      ensures Sanitize(input) == "" ==> o == NoNameEntered
      ensures Sanitize(input) != "" && !dataLoaded ==> o == PersonStillLoading
      ensures Sanitize(input) != "" && dataLoaded ==>
                (o == NoResults <==> FindPersonByName(rotaData, Sanitize(input)).None?)
                && (o.PersonResults? ==> o.person == FindPersonByName(rotaData, Sanitize(input)).value
                                         && Some(o.view) == PersonView(o.person.schedule, time))
    {
      var name := Sanitize(input);
      if name == "" {
        return NoNameEntered;
      }
      if !dataLoaded {
        return PersonStillLoading;
      }
      var person := FindPersonByName(rotaData, name);
      if person.None? {
        return NoResults;
      }
      var view := PersonView(person.value.schedule, time);
      if view.None? {
        return PersonFailed;
      }
      return PersonResults(person.value, view.value);
    }
  }

  /** The inner `forEach` of `findStaffByTaskAtCurrentTime` over one person's slots. */
  method CollectSlots(name: string, schedule: seq<Slot>, taskName: string, time: string) returns (r: Option<seq<Assignment>>)
    ensures r == SlotsAssigned(name, schedule, taskName, time)
  {
    var rows: seq<Assignment> := [];
    var j := 0;
    while j < |schedule|
      invariant 0 <= j <= |schedule|
      invariant SlotsAssigned(name, schedule[..j], taskName, time) == Some(rows)
    {
      var slot := schedule[j];
      if slot.taskName == taskName {
        var inside := TimeSlotContainsTime(slot.timeSlot, time);
        if inside.None? {
          FlatMapAllFails(s => SlotRows(name, s, taskName, time), schedule);
          return None;
        }
        SlotsAssignedPrefix(name, schedule, taskName, time, j, rows);
        if inside.value {
          rows := rows + [Assignment(name, slot.timeSlot, slot.taskName)];
        } else {
          assert rows + [] == rows;
        }
      } else {
        SlotsAssignedPrefix(name, schedule, taskName, time, j, rows);
        assert rows + [] == rows;
      }
      j := j + 1;
    }
    assert schedule[..j] == schedule;
    return Some(rows);
  }

  lemma SlotsAssignedPrefix(name: string, slots: seq<Slot>, task: string, time: string, j: int, rows: seq<Assignment>)
    requires 0 <= j < |slots| && SlotsAssigned(name, slots[..j], task, time) == Some(rows)
    requires SlotRows(name, slots[j], task, time).Some?
    ensures SlotsAssigned(name, slots[..j + 1], task, time) == Some(rows + SlotRows(name, slots[j], task, time).value)
  {
    FlatMapAllPrefix(slot => SlotRows(name, slot, task, time), slots, j, rows, SlotRows(name, slots[j], task, time).value);
  }

  lemma StaffAssignedPrefix(staff: seq<Person>, task: string, time: string, i: int, acc: seq<Assignment>)
    requires 0 <= i < |staff| && StaffAssigned(staff[..i], task, time) == Some(acc)
    requires PersonRows(staff[i], task, time).Some?
    ensures StaffAssigned(staff[..i + 1], task, time) == Some(acc + PersonRows(staff[i], task, time).value)
  {
    FlatMapAllPrefix(p => PersonRows(p, task, time), staff, i, acc, PersonRows(staff[i], task, time).value);
  }

  /** A task slot without an end stops the whole walk. */
  lemma StaffThrowsAt(staff: seq<Person>, task: string, time: string, i: int, j: int)
    requires 0 <= i < |staff| && 0 <= j < |staff[i].schedule| && TaskSlotThrows(staff[i].schedule[j], task, time)
    ensures StaffAssigned(staff, task, time).None?
  {
    StaffAssignedFails(staff, task, time);
  }
}
