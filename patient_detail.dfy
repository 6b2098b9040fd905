/**
 * `PatientDetailComponent`: one patient's fluid balances. The backend publishes the active
 * times of day ("HH:MM" strings); a balance may only be recorded at one of them, on the day
 * being edited (today for a new balance). The times are turned into slots, a slot holding
 * the exact date-time and its normalized "HH:MM" text, and a form's date is accepted only
 * when its time value equals that of one of the slots.
 *
 * The slots' display label (`Intl.DateTimeFormat`) is not modelled, except that formatting
 * it throws for an invalid date. The service calls are reported as requests; their replies
 * are separate methods.
 */
module PatientDetail {
  import opened Js
  import opened Wrappers
  import opened Dates
  import opened Panels
  import opened CalculatedFluidBalance

  // ---------------------------------------------------------------------------
  // Slots
  // ---------------------------------------------------------------------------

  /** An `ActiveSlot` without its label. A slot is only ever composed on a valid base (on an
      invalid one, formatting the label throws), so its date is always a valid `Date`. */
  datatype Slot = Slot(at: Civil, rawTime: string) {
    const date: JsDate := ValidDate(at)
  }

  /** The text before the first ':' of a time string. */
  function HoursPart(rawTime: string): string {
    Split(rawTime, ':')[0]
  }

  /** The text between the first and the second ':', or '0' when there is no ':'. */
  function MinutesPart(rawTime: string): string {
    var parts := Split(rawTime, ':');
    if |parts| >= 2 then parts[1] else "0"
  }

  /** `Number.isFinite(n) && n >= 0 && n <= max` */
  predicate InRange(n: JsNumber, max: int) {
    n.Finite? && 0 <= n.value <= max
  }

  /** `new Date(base.getFullYear(), base.getMonth(), base.getDate(), h, m, 0, 0)` on a valid
      base. The constructor reads a year from 0 to 99 as 1900 plus that year, so the slot lies
      on `ConstructedDay(base)`, the base's day in all other years. */
  function SlotDate(base: Civil, h: nat, m: nat): (d: Civil)
    requires h < 24 && m < 60
    ensures SameDay(d, ConstructedDay(base)) && d.hour == h && d.minute == m
            && d.second == 0 && d.millis == 0
    ensures !(0 <= base.year <= 99) ==> SameDay(d, base)
  {
    AtTime(base, h, m)
  }

  /** `${h}`.padStart(2, '0') + ':' + `${m}`.padStart(2, '0') */
  function FormatTime(h: nat, m: nat): (r: string)
    requires h < 100 && m < 100
    ensures r == TwoDigits(h) + ":" + TwoDigits(m)
  {
    PadStartTwoDigits(h);
    PadStartTwoDigits(m);
    PadStart(NatToString(h), 2) + ":" + PadStart(NatToString(m), 2)
  }

  /** The slot at hour h and minute m of the day the constructor gives for the base: its
      text is "HH:MM" and its date is at exactly that time of that day. */
  function SlotAt(base: Civil, h: nat, m: nat): (s: Slot)
    requires h < 24 && m < 60
    ensures |s.rawTime| == 5 && s.rawTime[2] == ':'
    ensures s.rawTime[..2] == TwoDigits(h) && s.rawTime[3..] == TwoDigits(m)
    ensures SameDay(s.at, ConstructedDay(base)) && s.at.second == 0 && s.at.millis == 0
            && s.at.hour == DigitsValue(s.rawTime[..2])
            && s.at.minute == DigitsValue(s.rawTime[3..])
    ensures !(0 <= base.year <= 99) ==> SameDay(s.at, base)
  {
    var t := FormatTime(h, m);
    assert t[..2] == TwoDigits(h) && t[3..] == TwoDigits(m);
    Slot(SlotDate(base, h, m), t)
  }

  /** A time `composeSlot` goes on to build a slot for: non-empty, its hour a number in 0..23
      and its minute a number in 0..59. */
  predicate InRangeTime(rawTime: string) {
    rawTime != "" && InRange(StringToNumber(HoursPart(rawTime)), 23)
    && InRange(StringToNumber(MinutesPart(rawTime)), 59)
  }

  /** `composeSlot(base, rawTime)` on a valid base: no slot for an empty string, or for an
      hour outside 0..23 or a minute outside 0..59; otherwise the slot at that time of the
      base's day. */
  function ComposeSlot(base: Civil, rawTime: string): (r: Option<Slot>)
    ensures rawTime == "" ==> r.None?
    ensures r.Some? ==> InRange(StringToNumber(HoursPart(rawTime)), 23)
                        && InRange(StringToNumber(MinutesPart(rawTime)), 59)
                        && r.value == SlotAt(base, StringToNumber(HoursPart(rawTime)).value,
                                                   StringToNumber(MinutesPart(rawTime)).value)
  {
    if rawTime == "" then None
    else
      var hours := StringToNumber(HoursPart(rawTime));
      var minutes := StringToNumber(MinutesPart(rawTime));
      if hours.NaN? || hours.value < 0 || hours.value > 23 then None
      else if minutes.NaN? || minutes.value < 0 || minutes.value > 59 then None
      else Some(SlotAt(base, hours.value, minutes.value))
  }

  /** A non-empty time gives a slot exactly when both fields are numbers in range. */
  lemma ComposeSlotSpec(base: Civil, rawTime: string)
    ensures ComposeSlot(base, rawTime).Some? <==> InRangeTime(rawTime)
  {
  }

  /** A string of digits is read back as its value. */
  lemma StringToNumberOfDigits(s: string)
    requires s != [] && AllDigits(s)
    ensures StringToNumber(s) == Finite(DigitsValue(s))
  {
    assert !IsWhitespace(s[0]) && !IsWhitespace(s[|s| - 1]);
    assert TrimStart(s) == s;
    assert TrimEnd(s) == s;
  }

  /** A time written as two two-digit fields is composed from exactly those fields. */
  lemma ComposeSlotOfFields(base: Civil, h: nat, m: nat)
    requires h < 100 && m < 100
    ensures ComposeSlot(base, TwoDigits(h) + ":" + TwoDigits(m)) ==
              if h < 24 && m < 60 then Some(SlotAt(base, h, m)) else None
  {
    var hh, mm := TwoDigits(h), TwoDigits(m);
    AllDigitsNoChar(hh, ':');
    AllDigitsNoChar(mm, ':');
    SplitFirst(hh, ':', mm);
    SplitNoSeparator(mm, ':');
    assert hh + ":" + mm == hh + [':'] + mm;
    StringToNumberOfDigits(hh);
    StringToNumberOfDigits(mm);
  }

  /** Composing a slot's own text again, on the same base, gives the same slot: the text is
      the normal form of the time. */
  lemma ComposeSlotNormalizes(base: Civil, rawTime: string)
    requires ComposeSlot(base, rawTime).Some?
    ensures ComposeSlot(base, ComposeSlot(base, rawTime).value.rawTime) == ComposeSlot(base, rawTime)
  {
    var h := StringToNumber(HoursPart(rawTime)).value;
    var m := StringToNumber(MinutesPart(rawTime)).value;
    ComposeSlotOfFields(base, h, m);
  }

  /** A time without ':' is an hour on the hour: the missing minute part reads as 0. */
  lemma ComposeSlotHourOnly(base: Civil, d: nat)
    requires d < 10
    ensures ComposeSlot(base, [DigitChar(d)]) == Some(SlotAt(base, d, 0))
  {
    var t := [DigitChar(d)];
    SplitNoSeparator(t, ':');
    assert HoursPart(t) == t && MinutesPart(t) == "0";
    StringToNumberOfDigits(t);
    assert DigitsValue(t) == d by { assert t[..0] == []; }
    StringToNumberOfDigits("0");
    assert DigitsValue("0") == 0 by { assert "0"[..0] == []; }
    ComposeSlotOfNumbers(base, t, d, 0);
  }

  /** A time whose fields read as an in-range hour and minute is the slot at that time. */
  lemma ComposeSlotOfNumbers(base: Civil, rawTime: string, h: nat, m: nat)
    requires rawTime != "" && h < 24 && m < 60
    requires StringToNumber(HoursPart(rawTime)) == Finite(h) && StringToNumber(MinutesPart(rawTime)) == Finite(m)
    ensures ComposeSlot(base, rawTime) == Some(SlotAt(base, h, m))
  {
  }

  /** A slot depends on the time string only through its hour and minute parts. */
  lemma ComposeSlotOfParts(base: Civil, r1: string, r2: string)
    requires r1 != "" && r2 != ""
    requires HoursPart(r1) == HoursPart(r2) && MinutesPart(r1) == MinutesPart(r2)
    ensures ComposeSlot(base, r1) == ComposeSlot(base, r2)
  {
  }

  /** Anything after a second ':' (seconds, say) is ignored. */
  lemma ComposeSlotIgnoresExtraParts(base: Civil, h: nat, m: nat, rest: string)
    requires h < 100 && m < 100
    ensures ComposeSlot(base, TwoDigits(h) + ":" + TwoDigits(m) + ":" + rest)
            == ComposeSlot(base, TwoDigits(h) + ":" + TwoDigits(m))
  {
    var hh, mm := TwoDigits(h), TwoDigits(m);
    var long, short := hh + ":" + mm + ":" + rest, hh + ":" + mm;
    AllDigitsNoChar(hh, ':');
    AllDigitsNoChar(mm, ':');
    SplitFirst(hh, ':', mm + [':'] + rest);
    SplitFirst(mm, ':', rest);
    SplitFirst(hh, ':', mm);
    SplitNoSeparator(mm, ':');
    assert long == hh + [':'] + (mm + [':'] + rest);
    assert short == hh + [':'] + mm;
    assert Split(long, ':') == [hh] + ([mm] + Split(rest, ':'));
    assert Split(short, ':') == [hh] + [mm];
    ComposeSlotOfParts(base, long, short);
  }

  /** The texts of the slots at 08:00, 14:30 and of the out-of-range 23:75. */
  lemma TimeTexts()
    ensures TwoDigits(8) + ":" + TwoDigits(0) == "08:00"
    ensures TwoDigits(14) + ":" + TwoDigits(30) == "14:30"
    ensures TwoDigits(23) + ":" + TwoDigits(75) == "23:75"
  {
    assert TwoDigits(8) == "08" && TwoDigits(0) == "00";
    assert TwoDigits(14) == "14" && TwoDigits(30) == "30";
    assert TwoDigits(23) == "23" && TwoDigits(75) == "75";
  }

  /** "8" is the slot 08:00. */
  lemma ComposeSlotExampleHour(base: Civil)
    ensures ComposeSlot(base, "8") == Some(SlotAt(base, 8, 0))
    ensures SlotAt(base, 8, 0).rawTime == "08:00"
  {
    ComposeSlotHourOnly(base, 8);
    assert [DigitChar(8)] == "8";
    TimeTexts();
  }

  /** Two slots composed on one valid base are at the same instant exactly when their texts
      agree: matching by time value is matching by "HH:MM". */
  lemma SameTimeIffSameText(base: Civil, a: string, b: string)
    requires ComposeSlot(base, a).Some? && ComposeSlot(base, b).Some?
    ensures var sa, sb := ComposeSlot(base, a).value, ComposeSlot(base, b).value;
            GetTime(sa.date) == GetTime(sb.date) <==> sa.rawTime == sb.rawTime
  {
    var ha, ma := StringToNumber(HoursPart(a)).value, StringToNumber(MinutesPart(a)).value;
    var hb, mb := StringToNumber(HoursPart(b)).value, StringToNumber(MinutesPart(b)).value;
    SlotAtSameTime(base, ha, ma, hb, mb);
    SlotAtSameText(base, ha, ma, hb, mb);
  }

  /** Two slots of one valid day are at the same instant exactly when hour and minute agree. */
  lemma SlotAtSameTime(base: Civil, h1: nat, m1: nat, h2: nat, m2: nat)
    requires h1 < 24 && m1 < 60 && h2 < 24 && m2 < 60
    ensures GetTime(SlotAt(base, h1, m1).date) == GetTime(SlotAt(base, h2, m2).date)
            <==> h1 == h2 && m1 == m2
  {
    var s1, s2 := SlotAt(base, h1, m1), SlotAt(base, h2, m2);
    assert s1.at.hour == h1 && s1.at.minute == m1;
    assert s2.at.hour == h2 && s2.at.minute == m2;
    SameDayTimeValue(s1.at, s2.at);
    if GetTime(s1.date) == GetTime(s2.date) {
      MsOfDayInjective(s1.at, s2.at);
    }
  }

  /** Two slots have the same text exactly when hour and minute agree. */
  lemma SlotAtSameText(base: Civil, h1: nat, m1: nat, h2: nat, m2: nat)
    requires h1 < 24 && m1 < 60 && h2 < 24 && m2 < 60
    ensures SlotAt(base, h1, m1).rawTime == SlotAt(base, h2, m2).rawTime <==> h1 == h2 && m1 == m2
  {
    var t1, t2 := SlotAt(base, h1, m1).rawTime, SlotAt(base, h2, m2).rawTime;
    if t1 == t2 {
      assert TwoDigits(h1) == TwoDigits(h2) && TwoDigits(m1) == TwoDigits(m2);
    }
  }

  // ---------------------------------------------------------------------------
  // buildSlotsForDate
  // ---------------------------------------------------------------------------

  /** The comparator's key: `date.getTime()`. */
  function SlotKey(s: Slot): int {
    TimeValue(s.at)
  }

  /** Ascending by a key. */
  predicate SortedBy<T>(s: seq<T>, key: T -> int) {
    forall i, j | 0 <= i < j < |s| :: key(s[i]) <= key(s[j])
  }

  predicate SortedByTime(slots: seq<Slot>) {
    SortedBy(slots, SlotKey)
  }

  /** `times.map(time => composeSlot(base, time))` */
  function MapCompose(times: seq<string>, base: Civil): (r: seq<Option<Slot>>)
    ensures |r| == |times|
    ensures forall i | 0 <= i < |times| :: r[i] == ComposeSlot(base, times[i])
  {
    seq(|times|, i requires 0 <= i < |times| => ComposeSlot(base, times[i]))
  }

  /** `.filter((slot): slot is ActiveSlot => !!slot)`: the present slots, in order. */
  function Present(opts: seq<Option<Slot>>): (r: seq<Slot>)
    ensures |r| <= |opts|
  {
    if opts == [] then []
    else if opts[0].Some? then [opts[0].value] + Present(opts[1..])
    else Present(opts[1..])
  }

  /** A slot survives the filter exactly when it was present. */
  lemma {:induction false} PresentSpec(opts: seq<Option<Slot>>)
    ensures forall s :: s in Present(opts) <==> Some(s) in opts
  {
    if opts != [] {
      PresentSpec(opts[1..]);
      assert opts == [opts[0]] + opts[1..];
    }
  }

  /** `times.map(composeSlot).filter(Boolean)`: the slots of the valid times, in order. */
  function ComposedSlots(times: seq<string>, base: Civil): (r: seq<Slot>)
    ensures |r| <= |times|
  {
    Present(MapCompose(times, base))
  }

  /** Every composed slot comes from one of the times, and every valid time gives its slot. */
  lemma ComposedSlotsSpec(times: seq<string>, base: Civil)
    ensures forall s | s in ComposedSlots(times, base) :: exists t | t in times :: ComposeSlot(base, t) == Some(s)
    ensures forall t | t in times && ComposeSlot(base, t).Some? :: ComposeSlot(base, t).value in ComposedSlots(times, base)
  {
    var opts := MapCompose(times, base);
    PresentSpec(opts);
    forall s | s in ComposedSlots(times, base) ensures exists t | t in times :: ComposeSlot(base, t) == Some(s) {
      var i :| 0 <= i < |opts| && opts[i] == Some(s);
      assert times[i] in times;
    }
    forall t | t in times && ComposeSlot(base, t).Some? ensures ComposeSlot(base, t).value in ComposedSlots(times, base) {
      var i :| 0 <= i < |times| && times[i] == t;
      assert opts[i] == ComposeSlot(base, t);
    }
  }

  /** Inserting before the first element whose key is not smaller keeps equal keys in
      their input order. */
  function InsertBy<T>(x: T, sorted: seq<T>, key: T -> int): (r: seq<T>)
    requires SortedBy(sorted, key)
    ensures SortedBy(r, key)
    ensures multiset(r) == multiset(sorted) + multiset{x}
    ensures |r| == |sorted| + 1 && (r[0] == x || (sorted != [] && r[0] == sorted[0]))
  {
    if sorted == [] || key(x) <= key(sorted[0]) then
      SortedCons(x, sorted, key);
      [x] + sorted
    else
      var tail := InsertBy(x, sorted[1..], key);
      SortedCons(sorted[0], tail, key);
      assert sorted == [sorted[0]] + sorted[1..];
      assert multiset([sorted[0]] + tail) == multiset{sorted[0]} + multiset(tail);
      [sorted[0]] + tail
  }

  /** A sorted sequence stays sorted behind a head no larger than its first element. */
  lemma SortedCons<T>(h: T, t: seq<T>, key: T -> int)
    requires SortedBy(t, key) && (t == [] || key(h) <= key(t[0]))
    ensures SortedBy([h] + t, key)
  {
    var s := [h] + t;
    forall i, j | 0 <= i < j < |s| ensures key(s[i]) <= key(s[j]) {
      if i == 0 {
        assert s[j] == t[j - 1];
        assert key(t[0]) <= key(t[j - 1]) || j == 1;
      } else {
        assert s[i] == t[i - 1] && s[j] == t[j - 1];
      }
    }
  }

  /** A stable insertion sort by a key. */
  function SortBy<T>(s: seq<T>, key: T -> int): (r: seq<T>)
    ensures SortedBy(r, key)
    ensures multiset(r) == multiset(s)
  {
    if s == [] then []
    else
      assert s == [s[0]] + s[1..];
      InsertBy(s[0], SortBy(s[1..], key), key)
  }

  /** `.sort((a, b) => a.date.getTime() - b.date.getTime())`, which is stable. */
  function SortByTime(slots: seq<Slot>): (r: seq<Slot>)
    ensures SortedByTime(r)
    ensures multiset(r) == multiset(slots)
  {
    SortBy(slots, SlotKey)
  }

  /** `buildSlotsForDate(base)` over the given active times. */
  function BuildSlotsForDate(times: seq<string>, base: Civil): seq<Slot> {
    SortByTime(ComposedSlots(times, base))
  }

  /** The slots of a day are sorted, a permutation of the composed ones, no more than the
      times, each composed from one of the times, and every valid time has its slot among
      them. */
  lemma BuildSlotsForDateSpec(times: seq<string>, base: Civil)
    ensures SortedByTime(BuildSlotsForDate(times, base))
    ensures multiset(BuildSlotsForDate(times, base)) == multiset(ComposedSlots(times, base))
    ensures |BuildSlotsForDate(times, base)| <= |times|
    ensures forall s | s in BuildSlotsForDate(times, base) :: exists t | t in times :: ComposeSlot(base, t) == Some(s)
    ensures forall t | t in times && ComposeSlot(base, t).Some? :: ComposeSlot(base, t).value in BuildSlotsForDate(times, base)
  {
    var r, c := BuildSlotsForDate(times, base), ComposedSlots(times, base);
    assert |r| == |multiset(r)| == |multiset(c)| == |c|;
    ComposedSlotsSpec(times, base);
    forall s | s in r ensures s in c { assert s in multiset(r); }
    forall s | s in c ensures s in r { assert s in multiset(c); }
  }

  /** The slots of one base are all on that day, at whole minutes. */
  predicate SlotsOfDay(slots: seq<Slot>, day: Civil) {
    forall s | s in slots :: SameDay(s.at, day) && s.at.second == 0 && s.at.millis == 0
  }

  /** The slots built for a base lie on the day the constructor gives for it, which is the
      base's own day outside years 0 to 99. */
  lemma BuildSlotsForDateOfDay(times: seq<string>, day: Civil)
    ensures SlotsOfDay(BuildSlotsForDate(times, day), ConstructedDay(day))
    ensures !(0 <= day.year <= 99) ==> SlotsOfDay(BuildSlotsForDate(times, day), day)
  {
    BuildSlotsForDateSpec(times, day);
  }

  /** Filtering two present slots and an absent one keeps the two. */
  lemma PresentOfThree(x: Slot, y: Slot)
    ensures Present([Some(x), Some(y), None]) == [x, y]
  {
    var none: seq<Option<Slot>> := [None];
    assert Present(none) == [] by { assert none[1..] == []; }
    var two: seq<Option<Slot>> := [Some(y), None];
    assert Present(two) == [y] by { assert two[1..] == none; }
    var opts: seq<Option<Slot>> := [Some(x), Some(y), None];
    assert opts[1..] == two;
  }

  /** Sorting two slots in the wrong order swaps them. */
  lemma SortByTimeSwaps(a: Slot, b: Slot)
    requires SlotKey(a) < SlotKey(b)
    ensures SortByTime([b, a]) == [a, b]
  {
    assert [b, a][1..] == [a];
    assert [a][1..] == [];
    assert SortBy([a], SlotKey) == [a];
    assert InsertBy(b, [a], SlotKey) == [a] + InsertBy(b, [], SlotKey);
  }

  /** On one day, an earlier time of day is an earlier slot. */
  lemma SlotAtOrder(day: Civil, h1: nat, m1: nat, h2: nat, m2: nat)
    requires h1 < 24 && m1 < 60 && h2 < 24 && m2 < 60
    requires h1 * 60 + m1 < h2 * 60 + m2
    ensures SlotKey(SlotAt(day, h1, m1)) < SlotKey(SlotAt(day, h2, m2))
  {
    var a, b := SlotAt(day, h1, m1).at, SlotAt(day, h2, m2).at;
    SameDayTimeValue(a, b);
  }

  /** Two valid times listed late first, and an out-of-range one, give the two slots in
      time order (for instance "14:30", "08:00", "23:75" give 08:00 and 14:30). */
  lemma BuildSlotsForDateExample(day: Civil, h1: nat, m1: nat, h2: nat, m2: nat, h3: nat, m3: nat)
    requires h1 < 24 && m1 < 60 && h2 < 24 && m2 < 60 && h3 < 100 && 60 <= m3 < 100
    requires h1 * 60 + m1 < h2 * 60 + m2
    ensures var times := [TwoDigits(h2) + ":" + TwoDigits(m2), TwoDigits(h1) + ":" + TwoDigits(m1),
                          TwoDigits(h3) + ":" + TwoDigits(m3)];
            BuildSlotsForDate(times, day) == [SlotAt(day, h1, m1), SlotAt(day, h2, m2)]
  {
    var base := day;
    var t1, t2, t3 := TwoDigits(h2) + ":" + TwoDigits(m2), TwoDigits(h1) + ":" + TwoDigits(m1),
                      TwoDigits(h3) + ":" + TwoDigits(m3);
    var a, b := SlotAt(base, h1, m1), SlotAt(base, h2, m2);
    assert ComposeSlot(base, t1) == Some(b) by { ComposeSlotOfFields(base, h2, m2); }
    assert ComposeSlot(base, t2) == Some(a) by { ComposeSlotOfFields(base, h1, m1); }
    assert ComposeSlot(base, t3) == None by { ComposeSlotOfFields(base, h3, m3); }
    SlotAtOrder(day, h1, m1, h2, m2);
    BuildSlotsOfThree(base, t1, t2, t3, a, b);
  }

  /** Three times, the first later than the second and the last invalid. */
  lemma BuildSlotsOfThree(base: Civil, t1: string, t2: string, t3: string, a: Slot, b: Slot)
    requires ComposeSlot(base, t1) == Some(b) && ComposeSlot(base, t2) == Some(a) && ComposeSlot(base, t3) == None
    requires SlotKey(a) < SlotKey(b)
    ensures BuildSlotsForDate([t1, t2, t3], base) == [a, b]
  {
    MapComposeOfThree(base, t1, t2, t3, a, b);
    PresentOfThree(b, a);
    SortByTimeSwaps(a, b);
  }

  /** A sequence of three elements is the display of its elements. */
  lemma SeqOfThree<T>(s: seq<T>)
    requires |s| == 3
    ensures s == [s[0], s[1], s[2]]
  {
  }

  lemma MapComposeOfThree(base: Civil, t1: string, t2: string, t3: string, a: Slot, b: Slot)
    requires ComposeSlot(base, t1) == Some(b) && ComposeSlot(base, t2) == Some(a) && ComposeSlot(base, t3) == None
    ensures MapCompose([t1, t2, t3], base) == [Some(b), Some(a), None]
  {
    var times := [t1, t2, t3];
    var mapped := MapCompose(times, base);
    assert times[0] == t1 && times[1] == t2 && times[2] == t3;
    assert mapped[0] == Some(b) && mapped[1] == Some(a) && mapped[2] == None;
    SeqOfThree(mapped);
  }

  // ---------------------------------------------------------------------------
  // findSlotForValue / isAllowedSlot
  // ---------------------------------------------------------------------------

  /** `normalizeToDate(value)`: nothing for a falsy value; a copy of a `Date`, even an
      invalid one; a string or number converted, unless the conversion is invalid; nothing
      for any other value. */
  function NormalizeToDate(v: DateValue): (r: Option<JsDate>)
    ensures v.Falsy? || v.Other? ==> r.None?
    ensures v.DateObject? ==> r == Some(v.date)
    ensures v.Text? ==> (r.Some? <==> v.parsed.ValidDate?) && (r.Some? ==> r.value == v.parsed)
  {
    match v
    case Falsy => None
    case DateObject(d) => Some(d)
    case Text(p) => if GetTime(p).NaN? then None else Some(p)
    case Other(_) => None
  }

  /** `sourceSlots.find(slot => slot.date.getTime() === timestamp)` */
  function FindByTime(slots: seq<Slot>, timestamp: JsNumber): (r: Option<Slot>)
    ensures r.None? <==> forall s | s in slots :: !StrictEqualsNumber(GetTime(s.date), timestamp)
    ensures r.Some? ==> r.value in slots && StrictEqualsNumber(GetTime(r.value.date), timestamp)
  {
    if slots == [] then None
    else if StrictEqualsNumber(GetTime(slots[0].date), timestamp) then Some(slots[0])
    else
      assert forall s | s in slots :: s == slots[0] || s in slots[1..];
      FindByTime(slots[1..], timestamp)
  }

  /** The slot found is the first one at that instant. */
  lemma {:induction false} FindByTimeIsFirst(slots: seq<Slot>, timestamp: JsNumber)
    requires FindByTime(slots, timestamp).Some?
    ensures exists i | 0 <= i < |slots| :: slots[i] == FindByTime(slots, timestamp).value
              && forall j | 0 <= j < i :: !StrictEqualsNumber(GetTime(slots[j].date), timestamp)
  {
    if StrictEqualsNumber(GetTime(slots[0].date), timestamp) {
      assert slots[0] == FindByTime(slots, timestamp).value;
    } else {
      var tail := slots[1..];
      FindByTimeIsFirst(tail, timestamp);
      var i :| 0 <= i < |tail| && tail[i] == FindByTime(tail, timestamp).value
               && forall j | 0 <= j < i :: !StrictEqualsNumber(GetTime(tail[j].date), timestamp);
      assert slots[i + 1] == FindByTime(slots, timestamp).value;
      forall j | 0 <= j < i + 1 ensures !StrictEqualsNumber(GetTime(slots[j].date), timestamp) {
        if j > 0 { assert slots[j] == tail[j - 1]; }
      }
    }
  }

  /** `findSlotForValue(value, slots)` */
  function FindSlotForValue(v: DateValue, slots: seq<Slot>): (r: Option<Slot>)
    ensures r.Some? ==> r.value in slots && r.value.date.ValidDate?
    ensures r.Some? ==> NormalizeToDate(v).Some? && GetTime(r.value.date) == GetTime(NormalizeToDate(v).value)
  {
    match NormalizeToDate(v)
    case None => None
    case Some(comparable) => FindByTime(slots, GetTime(comparable))
  }

  /** `isAllowedSlot(value, slots)` */
  predicate IsAllowedSlot(v: DateValue, slots: seq<Slot>) {
    FindSlotForValue(v, slots).Some?
  }

  /** A value is allowed exactly when it converts to a valid date at the instant of one of
      the slots; an invalid date never is, a slot's own date always is. */
  lemma IsAllowedSlotSpec(v: DateValue, slots: seq<Slot>)
    ensures IsAllowedSlot(v, slots) <==>
              NormalizeToDate(v).Some? && NormalizeToDate(v).value.ValidDate?
              && exists s | s in slots :: GetTime(s.date) == GetTime(NormalizeToDate(v).value)
    ensures forall s | s in slots && s.date.ValidDate? :: IsAllowedSlot(DateObject(s.date), slots)
    ensures v == DateObject(InvalidDate) ==> !IsAllowedSlot(v, slots)
  {
  }

  /** Among slots of one day, a slot found for a slot's date carries that very date. */
  lemma FindSlotOfOwnDate(slots: seq<Slot>, day: Civil, s: Slot)
    requires SlotsOfDay(slots, day) && s in slots
    ensures FindSlotForValue(DateObject(s.date), slots).Some?
    ensures FindSlotForValue(DateObject(s.date), slots).value.date == s.date
  {
    assert NormalizeToDate(DateObject(s.date)) == Some(s.date);
    assert StrictEqualsNumber(GetTime(s.date), GetTime(s.date));
    var f := FindSlotForValue(DateObject(s.date), slots).value;
    assert f in slots;
    assert TimeValue(f.at) == TimeValue(s.at);
    SameDayTimeValue(f.at, s.at);
    MsOfDayInjective(f.at, s.at);
    assert f.at == s.at;
  }

  // ---------------------------------------------------------------------------
  // Data
  // ---------------------------------------------------------------------------

  /** A `FluidBalanceRecord` as the list shows it; `fluidBalanceId` is the alternative id
      field some replies carry. */
  datatype BalanceRecord = BalanceRecord(id: JsValue, fluidBalanceId: JsValue, date: DateValue,
                                         infused: JsValue, drained: JsValue, descriptionFluid: JsValue)

  /** The values of the create and edit forms. */
  datatype BalanceForm = BalanceForm(date: DateValue, infused: JsValue, drained: JsValue, descriptionFluid: JsValue)

  /** The payload sent to the service. */
  datatype FluidBalance = FluidBalance(date: Option<JsDate>, infused: JsNumber, drained: JsNumber,
                                       descriptionFluid: JsValue, patientId: int)

  datatype FilterForm = FilterForm(startDate: Option<JsDate>, endDate: Option<JsDate>)

  datatype BalancesRequest = AllBalances(patient: int)
                           | BalancesBetween(patient: int, start: Option<JsDate>, end: Option<JsDate>)

  datatype UpdateRequest = UpdateRequest(balanceId: JsValue, payload: FluidBalance)

  /** `balance.id ?? balance.fluidBalanceId ?? null` */
  function ExtractBalanceId(b: BalanceRecord): (r: JsValue)
    ensures !Nullish(b.id) ==> r == b.id
    ensures Nullish(b.id) && !Nullish(b.fluidBalanceId) ==> r == b.fluidBalanceId
    ensures r == Null <==> Nullish(b.id) && Nullish(b.fluidBalanceId)
    ensures !r.Undefined?
  {
    Coalesce(Coalesce(b.id, b.fluidBalanceId), Null)
  }

  /** `a === b`; two object references are taken to be distinct objects. */
  predicate StrictEquals(a: JsValue, b: JsValue) {
    a == b && !a.NaNValue? && !a.Obj?
  }

  /** `mapFormToPayload(form)`: the normalized date, the amounts as numbers and the
      description, '' when absent. */
  function MapFormToPayload(f: BalanceForm, patientId: int): (p: FluidBalance)
    ensures p.date == NormalizeToDate(f.date)
    ensures p.infused == ToNumber(f.infused) && p.drained == ToNumber(f.drained)
    ensures !Nullish(p.descriptionFluid)
    ensures !Nullish(f.descriptionFluid) ==> p.descriptionFluid == f.descriptionFluid
    ensures p.patientId == patientId
  {
    FluidBalance(NormalizeToDate(f.date), ToNumber(f.infused), ToNumber(f.drained),
                 Coalesce(f.descriptionFluid, Str("")), patientId)
  }

  /** `normalizeBalances`: every date becomes a `Date` or null, nothing else changes. */
  function NormalizeBalances(list: seq<BalanceRecord>): (r: seq<BalanceRecord>)
    ensures |r| == |list|
    ensures forall i | 0 <= i < |r| :: r[i] == list[i].(date := NormalizedDate(list[i].date))
  {
    seq(|list|, i requires 0 <= i < |list| => list[i].(date := NormalizedDate(list[i].date)))
  }

  /** `times.map(time => composeSlot(base, time))` on an invalid base: a time out of range
      gives null, and the first time in range throws, since its label formats an invalid
      `Date` (a RangeError). */
  predicate ThrowsOnInvalidBase(times: seq<string>)
    decreases |times|
  {
    times != [] && (InRangeTime(times[0]) || ThrowsOnInvalidBase(times[1..]))
  }

  /** The map throws exactly when some time is in range. */
  lemma {:induction false} ThrowsOnInvalidBaseSpec(times: seq<string>)
    ensures ThrowsOnInvalidBase(times) <==> exists t | t in times :: InRangeTime(t)
  {
    if times != [] {
      ThrowsOnInvalidBaseSpec(times[1..]);
      assert forall t | t in times :: t == times[0] || t in times[1..];
    }
  }

  /** `buildSlotsForDate(base)` on any `Date`: None when it throws, which happens exactly on
      an invalid base with a time in range; an invalid base without one gives no slots. */
  function BuildSlotsFromDate(times: seq<string>, base: JsDate): (r: Option<seq<Slot>>)
    ensures r.None? <==> base.InvalidDate? && exists t | t in times :: InRangeTime(t)
    ensures r.Some? && base.ValidDate? ==> r.value == BuildSlotsForDate(times, base.at)
    ensures r.Some? && base.InvalidDate? ==> r.value == []
  {
    ThrowsOnInvalidBaseSpec(times);
    match base
    case ValidDate(c) => Some(BuildSlotsForDate(times, c))
    case InvalidDate => if ThrowsOnInvalidBase(times) then None else Some([])
  }

  /** `buildSlotsForDateFromValue(value)`: no slots without a date, otherwise the slots of
      that date's day; None when it throws, which is exactly for an invalid `Date` object
      while some active time is in range. */
  function SlotsForValue(v: DateValue, times: seq<string>): (r: Option<seq<Slot>>)
    ensures r.None? <==> v == DateObject(InvalidDate) && exists t | t in times :: InRangeTime(t)
    ensures NormalizeToDate(v).None? ==> r == Some([])
    ensures NormalizeToDate(v).Some? && NormalizeToDate(v).value.ValidDate? ==>
              r == Some(BuildSlotsForDate(times, NormalizeToDate(v).value.at))
  {
    match NormalizeToDate(v)
    case None => Some([])
    case Some(d) => BuildSlotsFromDate(times, d)
  }

  /** "08:00" is in range and "23:75" is not. */
  lemma ExampleTimesInRange()
    ensures InRangeTime("08:00") && !InRangeTime("23:75")
  {
    var base: Civil := CivilTime(1970, 0, 1, 0, 0, 0, 0);
    ComposeSlotOfFields(base, 8, 0);
    ComposeSlotOfFields(base, 23, 75);
    TimeTexts();
    ComposeSlotSpec(base, "08:00");
    ComposeSlotSpec(base, "23:75");
  }

  /** A balance whose date did not parse is an invalid `Date` after normalizing: editing it
      throws while "08:00" is active, and gives no slots when only "23:75" is. */
  lemma InvalidBalanceDateThrows()
    ensures SlotsForValue(DateObject(InvalidDate), ["08:00"]).None?
    ensures SlotsForValue(DateObject(InvalidDate), ["23:75"]) == Some([])
  {
    ExampleTimesInRange();
    assert "08:00" in ["08:00"];
    assert forall t | t in ["23:75"] :: t == "23:75";
  }

  /** `initialSlot?.date ?? balance.date ?? null`: the date of the slot matching the
      balance's date, else that date as it is. */
  function InitialEditDate(date: DateValue, slots: seq<Slot>): (r: DateValue)
    ensures IsAllowedSlot(date, slots) ==> r == DateObject(FindSlotForValue(date, slots).value.date)
    ensures !IsAllowedSlot(date, slots) ==> r == date
  {
    match FindSlotForValue(date, slots)
    case Some(s) => DateObject(s.date)
    case None => date
  }

  /** `startDate > endDate` on two dates: false when either is invalid. */
  predicate StartAfterEnd(f: FilterForm) {
    f.startDate.Some? && f.endDate.Some?
    && GetTime(f.startDate.value).Finite? && GetTime(f.endDate.value).Finite?
    && GetTime(f.startDate.value).value > GetTime(f.endDate.value).value
  }

  /** The value `updateCreateDateControlState(previous)` leaves in the date control: null
      without slots, otherwise the date of the slot matching the previous value, or null. */
  function UpdatedDateValue(previous: DateValue, slots: seq<Slot>): (r: DateValue)
    ensures slots == [] || !IsAllowedSlot(previous, slots) ==> r == Falsy
    ensures slots != [] && IsAllowedSlot(previous, slots) ==> r == DateObject(FindSlotForValue(previous, slots).value.date)
  {
    if slots == [] then Falsy
    else
      match FindSlotForValue(previous, slots)
      case Some(s) => DateObject(s.date)
      case None => Falsy
  }

  /** The control ends up holding a value exactly when the previous one was allowed, and
      then a value that is itself allowed, at the previous value's instant. */
  lemma UpdatedDateValueSpec(previous: DateValue, slots: seq<Slot>)
    ensures UpdatedDateValue(previous, slots) != Falsy <==> IsAllowedSlot(previous, slots)
    ensures UpdatedDateValue(previous, slots) != Falsy ==>
              var r := UpdatedDateValue(previous, slots);
              IsAllowedSlot(r, slots) && GetTime(r.date) == GetTime(NormalizeToDate(previous).value)
  {
    if IsAllowedSlot(previous, slots) {
      IsAllowedSlotSpec(UpdatedDateValue(previous, slots), slots);
    }
  }

  /** On slots of one day, updating the control a second time changes nothing. */
  lemma UpdatedDateValueIdempotent(previous: DateValue, slots: seq<Slot>, day: Civil)
    requires SlotsOfDay(slots, day)
    ensures UpdatedDateValue(UpdatedDateValue(previous, slots), slots) == UpdatedDateValue(previous, slots)
  {
    var r := UpdatedDateValue(previous, slots);
    if r != Falsy {
      var s := FindSlotForValue(previous, slots).value;
      FindSlotOfOwnDate(slots, day, s);
    }
  }

  /** A balance recorded on a whole minute that is one of the active times can be edited
      without changing its date: the edit form starts on the slot at that very instant.
      This holds outside years 0 to 99; in those years the slots are built in 1900 plus the
      year, and no slot is found. */
  lemma EditStartsOnRecordedSlot(c: Civil, times: seq<string>)
    requires c.second == 0 && c.millis == 0
    requires TwoDigits(c.hour) + ":" + TwoDigits(c.minute) in times
    ensures SlotsForValue(DateObject(ValidDate(c)), times).Some?
    ensures var slots := SlotsForValue(DateObject(ValidDate(c)), times).value;
            !(0 <= c.year <= 99) ==>
              FindSlotForValue(DateObject(ValidDate(c)), slots).Some?
              && FindSlotForValue(DateObject(ValidDate(c)), slots).value.date == ValidDate(c)
    ensures 0 <= c.year <= 99 ==>
              FindSlotForValue(DateObject(ValidDate(c)), SlotsForValue(DateObject(ValidDate(c)), times).value).None?
  {
    var base := c;
    BuildSlotsForDateOfDay(times, c);
    var slots := BuildSlotsForDate(times, base);
    if 0 <= c.year <= 99 {
      EarlyDateFindsNoSlot(c, slots);
    } else {
      var t := TwoDigits(c.hour) + ":" + TwoDigits(c.minute);
      ComposeSlotOfFields(base, c.hour, c.minute);
      BuildSlotsForDateSpec(times, base);
      var s := ComposeSlot(base, t).value;
      assert s.date == ValidDate(c);
      FindSlotOfOwnDate(slots, c, s);
    }
  }

  /** A date in years 0 to 99 matches no slot built from it. */
  lemma EarlyDateFindsNoSlot(c: Civil, slots: seq<Slot>)
    requires 0 <= c.year <= 99 && SlotsOfDay(slots, ConstructedDay(c))
    ensures FindSlotForValue(DateObject(ValidDate(c)), slots).None?
  {
    assert NormalizeToDate(DateObject(ValidDate(c))) == Some(ValidDate(c));
    forall s | s in slots
      ensures !StrictEqualsNumber(GetTime(s.date), GetTime(ValidDate(c)))
    {
      EarlyYearsBefore1900(c, s.at);
    }
  }

  /** A filter whose start is not after its end is sent; so is one with an invalid date,
      which the comparison does not catch. */
  lemma StartAfterEndCases(s: Civil, e: Civil)
    ensures TimeValue(s) <= TimeValue(e) ==> !StartAfterEnd(FilterForm(Some(ValidDate(s)), Some(ValidDate(e))))
    ensures TimeValue(s) > TimeValue(e) ==> StartAfterEnd(FilterForm(Some(ValidDate(s)), Some(ValidDate(e))))
    ensures !StartAfterEnd(FilterForm(Some(InvalidDate), Some(ValidDate(e))))
    ensures !StartAfterEnd(FilterForm(None, Some(ValidDate(e))))
  {
  }

  // ---------------------------------------------------------------------------
  // The component
  // ---------------------------------------------------------------------------

  const NullForm := BalanceForm(Falsy, Null, Null, Null)

  class PatientDetailComponent {
    var patientId: int
    var patientLabel: string
    var balances: seq<BalanceRecord>
    var filterForm: FilterForm
    var filterTouched: bool
    var createForm: BalanceForm
    /** Whether the create form's date control is enabled. */
    var createDateEnabled: bool
    var createTouched: bool
    var createDateTouched: bool
    /** The `inactiveDate` error on the create form's date control. */
    var createDateInactive: bool
    var editForm: BalanceForm
    var editTouched: bool
    var editDateInactive: bool
    var editFormSlots: seq<Slot>
    /** null is `Null`. */
    var editingBalanceId: JsValue
    var savingBalanceId: JsValue
    var loading: bool
    var creating: bool
    var activeDatesLoading: bool
    var activeSlots: seq<Slot>
    var activeTimeStrings: seq<string>

    /** The create date control is enabled exactly when there are active slots, and holds
        nothing while disabled. */
    predicate Valid()
      reads this`createDateEnabled, this`activeSlots, this`createForm
    {
      (createDateEnabled <==> |activeSlots| > 0)
      && (!createDateEnabled ==> createForm.date == Falsy)
    }

    /** The forms start empty (the create description ''), the create date control
        disabled, and no slots. */
    constructor()
      ensures patientLabel == "Paciente" && balances == [] && filterForm == FilterForm(None, None)
      ensures createForm == BalanceForm(Falsy, Null, Null, Str("")) && !createDateEnabled
      ensures editForm == BalanceForm(Falsy, Null, Null, Str("")) && editFormSlots == []
      ensures editingBalanceId == Null && savingBalanceId == Null
      ensures !loading && !creating && !activeDatesLoading
      ensures activeSlots == [] && activeTimeStrings == []
      ensures !createTouched && !createDateTouched && !createDateInactive && !editTouched && !editDateInactive
      ensures !filterTouched
      ensures Valid()
    {
      patientId := 0;
      patientLabel := "Paciente";
      balances := [];
      filterForm := FilterForm(None, None);
      filterTouched := false;
      createForm := BalanceForm(Falsy, Null, Null, Str(""));
      createDateEnabled := false;
      createTouched := false;
      createDateTouched := false;
      createDateInactive := false;
      editForm := BalanceForm(Falsy, Null, Null, Str(""));
      editTouched := false;
      editDateInactive := false;
      editFormSlots := [];
      editingBalanceId := Null;
      savingBalanceId := Null;
      loading := false;
      creating := false;
      activeDatesLoading := false;
      activeSlots := [];
      activeTimeStrings := [];
    }

    /** `hasActiveDates` */
    function HasActiveDates(): (r: bool)
      reads this`createDateEnabled, this`activeSlots, this`createForm
      requires Valid()
      ensures r <==> createDateEnabled
    {
      |activeSlots| > 0
    }

    /** The route's `patientId` (and `patientName`) change: an id that is not a positive
        number sends the user to the dashboard; otherwise the label is the query's name,
        else the route's, when non-empty, and the active times and the balances are loaded. */
    method OnRouteParams(idParam: Option<string>, queryName: Option<string>, routeName: Option<string>)
      returns (toDashboard: bool, request: Option<BalancesRequest>)
      requires Valid()
      modifies this`patientId, this`patientLabel, this`loading, this`activeDatesLoading
      ensures toDashboard <==> ResolvePatientId(idParam).None?
      ensures toDashboard ==> request.None? && patientId == old(patientId) && patientLabel == old(patientLabel)
                              && loading == old(loading) && activeDatesLoading == old(activeDatesLoading)
      ensures !toDashboard ==> patientId == ResolvePatientId(idParam).value
                               && request == Some(AllBalances(patientId)) && loading && activeDatesLoading
      ensures !toDashboard ==>
                var name := if queryName.Some? then queryName else routeName;
                patientLabel == (if name.Some? && name.value != "" then name.value else old(patientLabel))
      ensures Valid()
    {
      var id := ResolvePatientId(idParam);
      if id.None? {
        return true, None;
      }
      patientId := id.value;
      var name := if queryName.Some? then queryName else routeName;
      if name.Some? && name.value != "" {
        patientLabel := name.value;
      }
      LoadActiveDates();
      var r := LoadBalances();
      return false, Some(r);
    }

    /** `loadBalances()` */
    method LoadBalances() returns (request: BalancesRequest)
      modifies this`loading
      ensures request == AllBalances(patientId) && loading
    {
      loading := true;
      request := AllBalances(patientId);
    }

    /** The balances arrived. */
    method OnBalancesLoaded(list: seq<BalanceRecord>)
      requires Valid()
      modifies this`balances, this`loading
      ensures balances == NormalizeBalances(list) && !loading
      ensures Valid()
    {
      balances := NormalizeBalances(list);
      loading := false;
    }

    /** Loading the balances failed: the list stays as it was. */
    method OnBalancesError()
      requires Valid()
      modifies this`loading
      ensures !loading
      ensures Valid()
    {
      loading := false;
    }

    /** `loadActiveDates()` */
    method LoadActiveDates()
      modifies this`activeDatesLoading
      ensures activeDatesLoading
    {
      activeDatesLoading := true;
    }

    /** `setActiveDates(times)` with `new Date()` as `now`: the slots are today's; the date
        control is disabled and emptied without slots, otherwise enabled and moved to the
        slot of its previous value, or emptied when none matches. Setting a value clears the
        `inactiveDate` error. */
    method SetActiveDates(times: seq<string>, now: Civil)
      requires Valid()
      modifies this`activeTimeStrings, this`activeSlots, this`createForm, this`createDateEnabled, this`createDateInactive
      ensures activeTimeStrings == times
      ensures activeSlots == BuildSlotsForDate(times, now)
      ensures SlotsOfDay(activeSlots, ConstructedDay(now))
      ensures createDateEnabled <==> |activeSlots| > 0
      ensures createForm == old(createForm).(date := UpdatedDateValue(old(createForm.date), activeSlots))
      ensures !createDateInactive
      ensures Valid()
    {
      activeTimeStrings := times;
      var previous := createForm.date;
      activeSlots := BuildSlotsForDate(times, now);
      BuildSlotsForDateOfDay(times, now);
      UpdateCreateDateControlState(previous);
    }

    /** The active times arrived. */
    method OnActiveDatesLoaded(times: seq<string>, now: Civil)
      requires Valid()
      modifies this`activeTimeStrings, this`activeSlots, this`createForm, this`createDateEnabled
      modifies this`createDateInactive, this`activeDatesLoading
      ensures activeTimeStrings == times && activeSlots == BuildSlotsForDate(times, now)
      ensures createDateEnabled <==> |activeSlots| > 0
      ensures createForm == old(createForm).(date := UpdatedDateValue(old(createForm.date), activeSlots))
      ensures !createDateInactive && !activeDatesLoading
      ensures Valid()
    {
      SetActiveDates(times, now);
      activeDatesLoading := false;
    }

    /** Loading the active times failed: as if there were none. */
    method OnActiveDatesError(now: Civil)
      requires Valid()
      modifies this`activeTimeStrings, this`activeSlots, this`createForm, this`createDateEnabled
      modifies this`createDateInactive, this`activeDatesLoading
      ensures activeTimeStrings == [] && activeSlots == []
      ensures !createDateEnabled && createForm == old(createForm).(date := Falsy)
      ensures !createDateInactive && !activeDatesLoading
      ensures Valid()
    {
      SetActiveDates([], now);
      activeDatesLoading := false;
    }

    /** `updateCreateDateControlState(previous)` */
    method UpdateCreateDateControlState(previous: DateValue)
      modifies this`createForm, this`createDateEnabled, this`createDateInactive
      ensures createDateEnabled <==> |activeSlots| > 0
      ensures createForm == old(createForm).(date := UpdatedDateValue(previous, activeSlots))
      ensures !createDateInactive
      ensures Valid()
    {
      if |activeSlots| == 0 {
        createForm := createForm.(date := Falsy);
        createDateEnabled := false;
        createDateInactive := false;
        return;
      }
      createDateEnabled := true;
      var candidate := FindSlotForValue(previous, activeSlots);
      if candidate.Some? {
        createForm := createForm.(date := DateObject(candidate.value.date));
      } else {
        createForm := createForm.(date := Falsy);
      }
      createDateInactive := false;
    }

    /** The user fills the create form; a disabled date control keeps its value, and a new
        date value is validated again, which drops the `inactiveDate` error. */
    method EnterCreateForm(f: BalanceForm)
      requires Valid()
      modifies this`createForm, this`createDateInactive
      ensures createForm == (if createDateEnabled then f else f.(date := old(createForm).date))
      ensures createDateInactive == (old(createDateInactive) && !createDateEnabled)
      ensures Valid()
    {
      if createDateEnabled {
        createForm := f;
        createDateInactive := false;
      } else {
        createForm := f.(date := createForm.date);
      }
    }

    /** `submitCreate()` with the validity of the form's validators: an invalid form is
        marked touched; a date that is not at an active slot gets the `inactiveDate` error;
        otherwise the balance is created at the matching slot's date. */
    method SubmitCreate(formValid: bool) returns (request: Option<FluidBalance>)
      requires Valid()
      modifies this`createTouched, this`createDateTouched, this`createDateInactive, this`creating
      ensures request.Some? <==> formValid && IsAllowedSlot(createForm.date, activeSlots)
      ensures !formValid ==> createTouched && createDateTouched && createDateInactive == old(createDateInactive)
      ensures formValid && !IsAllowedSlot(createForm.date, activeSlots) ==>
                createDateInactive && createDateTouched && createTouched == old(createTouched)
      ensures request.Some? ==>
                var s := FindSlotForValue(createForm.date, activeSlots).value;
                request.value == MapFormToPayload(createForm.(date := DateObject(s.date)), patientId)
                && request.value.date == Some(s.date) && s in activeSlots
                && GetTime(s.date) == GetTime(NormalizeToDate(createForm.date).value)
                && creating && createTouched == old(createTouched) && createDateInactive == old(createDateInactive)
      ensures request.None? ==> creating == old(creating)
      ensures Valid()
    {
      if !formValid {
        createTouched := true;
        createDateTouched := true;
        return None;
      }
      // The source checks `isAllowedSlot` and then looks the slot up again; both are this
      // one lookup, so its second failure branch cannot be taken.
      var selected := FindSlotForValue(createForm.date, activeSlots);
      if selected.None? {
        createDateInactive := true;
        createDateTouched := true;
        return None;
      }
      var payload := MapFormToPayload(createForm.(date := DateObject(selected.value.date)), patientId);
      creating := true;
      request := Some(payload);
    }

    /** The balance was created: the form is reset to nulls, its date control follows the
        slots, and the active times and the balances are reloaded. */
    method OnCreateSuccess() returns (request: BalancesRequest)
      requires Valid()
      modifies this`createForm, this`createDateEnabled, this`createTouched, this`createDateTouched
      modifies this`createDateInactive, this`creating, this`activeDatesLoading, this`loading
      ensures createForm == NullForm
      ensures createDateEnabled <==> |activeSlots| > 0
      ensures !createTouched && !createDateTouched && !createDateInactive && !creating
      ensures activeDatesLoading && loading && request == AllBalances(patientId)
      ensures Valid()
    {
      createForm := NullForm;
      createTouched := false;
      createDateTouched := false;
      createDateInactive := false;
      UpdateCreateDateControlState(Falsy);
      LoadActiveDates();
      request := LoadBalances();
      creating := false;
    }

    /** Creating failed: the form keeps its values. */
    method OnCreateError()
      requires Valid()
      modifies this`creating
      ensures !creating
      ensures Valid()
    {
      creating := false;
    }

    /** `startEdit(balance)`: the balance's id is remembered, its day's slots become the edit
        slots and the edit form starts on the slot matching the balance's date, else on the
        date as it is. Building the slots throws for an invalid `Date` while a time is in
        range (`threw`); the id is then already set, and the slots and the form keep their
        values. */
    method StartEdit(b: BalanceRecord) returns (threw: bool)
      requires Valid()
      modifies this`editingBalanceId, this`editFormSlots, this`editForm, this`editTouched, this`editDateInactive
      ensures editingBalanceId == ExtractBalanceId(b)
      ensures threw <==> b.date == DateObject(InvalidDate) && exists t | t in activeTimeStrings :: InRangeTime(t)
      ensures threw ==> editFormSlots == old(editFormSlots) && editForm == old(editForm)
                        && editTouched == old(editTouched) && editDateInactive == old(editDateInactive)
      ensures !threw ==> editFormSlots == SlotsForValue(b.date, activeTimeStrings).value
      ensures !threw ==> editForm == BalanceForm(InitialEditDate(b.date, editFormSlots), b.infused, b.drained, b.descriptionFluid)
      ensures !threw ==> !editTouched && !editDateInactive
      ensures Valid()
    {
      editingBalanceId := ExtractBalanceId(b);
      var available := SlotsForValue(b.date, activeTimeStrings);
      if available.None? {
        return true;
      }
      threw := false;
      editFormSlots := available.value;
      editForm := BalanceForm(InitialEditDate(b.date, editFormSlots), b.infused, b.drained, b.descriptionFluid);
      editTouched, editDateInactive := false, false;
      assert createDateEnabled == old(createDateEnabled) && activeSlots == old(activeSlots)
             && createForm == old(createForm);
    }

    /** `cancelEdit()` */
    method CancelEdit()
      requires Valid()
      modifies this`editForm, this`editTouched, this`editDateInactive, this`editingBalanceId, this`editFormSlots
      ensures editForm == NullForm && editingBalanceId == Null && editFormSlots == []
      ensures !editTouched && !editDateInactive
      ensures Valid()
    {
      editForm := NullForm;
      editTouched := false;
      editDateInactive := false;
      editingBalanceId := Null;
      editFormSlots := [];
    }

    /** The user fills the edit form. */
    method EnterEditForm(f: BalanceForm)
      requires Valid()
      modifies this`editForm, this`editDateInactive
      ensures editForm == f && !editDateInactive
      ensures Valid()
    {
      editForm := f;
      editDateInactive := false;
    }

    /** `submitEdit()`: an invalid form or a falsy balance id marks the form touched; a date
        not at one of the edit slots gets the `inactiveDate` error; otherwise the update is
        requested at the matching slot's date. */
    method SubmitEdit(formValid: bool) returns (request: Option<UpdateRequest>)
      requires Valid()
      modifies this`editTouched, this`editDateInactive, this`savingBalanceId
      ensures request.Some? <==> formValid && Truthy(editingBalanceId) && IsAllowedSlot(editForm.date, editFormSlots)
      ensures !(formValid && Truthy(editingBalanceId)) ==> editTouched && editDateInactive == old(editDateInactive)
      ensures formValid && Truthy(editingBalanceId) && !IsAllowedSlot(editForm.date, editFormSlots) ==>
                editDateInactive && editTouched == old(editTouched)
      ensures request.Some? ==>
                var s := FindSlotForValue(editForm.date, editFormSlots).value;
                request.value == UpdateRequest(editingBalanceId, MapFormToPayload(editForm.(date := DateObject(s.date)), patientId))
                && request.value.payload.date == Some(s.date) && s in editFormSlots
                && savingBalanceId == editingBalanceId
      ensures request.None? ==> savingBalanceId == old(savingBalanceId)
      ensures Valid()
    {
      if !formValid || !Truthy(editingBalanceId) {
        editTouched := true;
        return None;
      }
      // As in `submitCreate`, the second lookup of the source is this one, so its
      // fallback to the form's own date is never used.
      var selected := FindSlotForValue(editForm.date, editFormSlots);
      if selected.None? {
        editDateInactive := true;
        return None;
      }
      var payload := MapFormToPayload(editForm.(date := DateObject(selected.value.date)), patientId);
      savingBalanceId := editingBalanceId;
      request := Some(UpdateRequest(editingBalanceId, payload));
    }

    /** The update succeeded: the edit ends and the balances are reloaded. */
    method OnEditSuccess() returns (request: BalancesRequest)
      requires Valid()
      modifies this`editForm, this`editTouched, this`editDateInactive, this`editingBalanceId, this`editFormSlots
      modifies this`loading, this`savingBalanceId
      ensures editForm == NullForm && editingBalanceId == Null && editFormSlots == []
      ensures savingBalanceId == Null && loading && request == AllBalances(patientId)
      ensures Valid()
    {
      CancelEdit();
      request := LoadBalances();
      savingBalanceId := Null;
    }

    /** The update failed: the edit stays open. */
    method OnEditError()
      requires Valid()
      modifies this`savingBalanceId
      ensures savingBalanceId == Null
      ensures Valid()
    {
      savingBalanceId := Null;
    }

    /** `deleteBalance(balance)`: the id to delete, or nothing when it is falsy. */
    method DeleteBalance(b: BalanceRecord) returns (target: Option<JsValue>)
      ensures target.Some? <==> Truthy(ExtractBalanceId(b))
      ensures target.Some? ==> target.value == ExtractBalanceId(b)
    {
      var id := ExtractBalanceId(b);
      if !Truthy(id) {
        return None;
      }
      target := Some(id);
    }

    /** The balance was deleted: the balances are reloaded. */
    method OnDeleteSuccess() returns (request: BalancesRequest)
      requires Valid()
      modifies this`loading
      ensures loading && request == AllBalances(patientId)
      ensures Valid()
    {
      request := LoadBalances();
    }

    /** `isEditingBalance(balance)` */
    function IsEditingBalance(b: BalanceRecord): (r: bool)
      reads this
      ensures r ==> ExtractBalanceId(b) != Null && editingBalanceId != Null
      ensures !Nullish(b.id) && b.id.Num? ==> (r <==> editingBalanceId == b.id)
    {
      var id := ExtractBalanceId(b);
      id != Null && StrictEquals(id, editingBalanceId)
    }

    /** The user picks the filter dates. */
    method EnterFilter(f: FilterForm)
      requires Valid()
      modifies this`filterForm
      ensures filterForm == f
      ensures Valid()
    {
      filterForm := f;
    }

    /** `applyDateFilter()`: an invalid form is marked touched, a start after the end is
        refused, otherwise the balances between the two dates are requested. */
    method ApplyDateFilter(formValid: bool) returns (request: Option<BalancesRequest>)
      requires Valid()
      modifies this`filterTouched, this`loading
      ensures request.Some? <==> formValid && !StartAfterEnd(filterForm)
      ensures request.Some? ==> request.value == BalancesBetween(patientId, filterForm.startDate, filterForm.endDate) && loading
      ensures request.None? ==> loading == old(loading)
      ensures filterTouched <==> old(filterTouched) || !formValid
      ensures Valid()
    {
      if !formValid {
        filterTouched := true;
        return None;
      }
      if StartAfterEnd(filterForm) {
        return None;
      }
      loading := true;
      request := Some(BalancesBetween(patientId, filterForm.startDate, filterForm.endDate));
    }

    /** `clearDateFilter()`: the filter is emptied and all balances are requested. */
    method ClearDateFilter() returns (request: BalancesRequest)
      requires Valid()
      modifies this`filterForm, this`filterTouched, this`loading
      ensures filterForm == FilterForm(None, None) && !filterTouched
      ensures request == AllBalances(patientId) && loading
      ensures Valid()
    {
      filterForm := FilterForm(None, None);
      filterTouched := false;
      request := LoadBalances();
    }
  }
}
