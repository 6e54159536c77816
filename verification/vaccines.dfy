/** The vaccination campaign (`Vaccines`, `Hub`, `Person`): a registry of
    people keyed by SSN, age intervals built from their breaks, vaccination
    hubs with their staff and hourly capacity, and the weekly working hours
    with their 15-minute time slots. */
module Vaccinations {
  import opened Util
  import opened JavaText
  import opened AgeIntervals

  const CURRENT_YEAR := 2021
  const HUB_EXISTS := "This hub already exists!"
  const HUB_UNDEFINED := "Hub not defined!"
  const BAD_STAFF := "One or more values are not correct!"
  const NO_STAFF := "Staff not defined for this hub!"
  const BAD_HOURS := "Hours not well defined!"

  /** How an operation ends when it does not return: with the checked
      `VaccineException`, or with one of the runtime exceptions the code lets
      escape (`UnreadableLabel` stands for the `IllegalStateException` or
      `NumberFormatException` of reading an interval label). */
  datatype Failure =
    | VaccineException(message: string)
    | IndexOutOfBounds
    | NullDereference
    | UnreadableLabel

  datatype Outcome<T> = Done(value: T) | Thrown(failure: Failure)

  datatype Person = Person(first: string, last: string, ssn: string, birthYear: int)

  function Ssns(ps: seq<Person>): (r: seq<string>)
    ensures |r| == |ps| && forall k :: 0 <= k < |ps| ==> r[k] == ps[k].ssn
  {
    seq(|ps|, k requires 0 <= k < |ps| => ps[k].ssn)
  }

  /** The age of a person: `CURRENT_YEAR - birthYear` in `int` arithmetic. */
  function AgeOf(p: Person): int {
    Wrap32(CURRENT_YEAR - p.birthYear)
  }

  // ---------------------------------------------------------------------
  // Age intervals from breaks

  /** `setAgeIntervals(breaks)`: `[0,b0)`, then `[b(i-1),b(i))` for every
      later break, then `[b(n-1),+)`. */
  function IntervalsOf(b: seq<int>): (r: seq<AgeInterval>)
    requires b != []
    ensures |r| == |b| + 1
    ensures r[0].lower == 0 && r[|b|].upper == INT_MAX
    ensures forall k :: 0 <= k < |b| ==> r[k].upper == b[k] == r[k + 1].lower
  {
    seq(|b| + 1, k requires 0 <= k <= |b| =>
      AgeInterval(if k == 0 then 0 else b[k - 1], if k == |b| then INT_MAX else b[k]))
  }

  predicate Ascending(b: seq<int>) {
    forall i, j :: 0 <= i < j < |b| ==> b[i] <= b[j]
  }

  /** With non-negative ascending breaks, the intervals cover every age
      below `Integer.MAX_VALUE`, and no age lies in two of them. */
  lemma IntervalsPartition(b: seq<int>, age: int)
    requires b != [] && 0 <= b[0] && Ascending(b)
    requires 0 <= age < INT_MAX
    ensures exists k :: 0 <= k <= |b| && IsInInterval(IntervalsOf(b)[k], age)
    ensures forall j, k ::
      (0 <= j <= |b| && 0 <= k <= |b| && IsInInterval(IntervalsOf(b)[j], age) && IsInInterval(IntervalsOf(b)[k], age)) ==> j == k
  {
    SomeIntervalFrom(b, age, 0);
    var r := IntervalsOf(b);
    forall j, k | 0 <= j < k <= |b| && IsInInterval(r[j], age)
      ensures !IsInInterval(r[k], age)
    {
      assert r[j].upper == b[j] <= b[k - 1] == r[k].lower;
    }
  }

  lemma {:induction false} SomeIntervalFrom(b: seq<int>, age: int, i: nat)
    requires b != [] && i <= |b| && 0 <= age < INT_MAX
    requires if i == 0 then 0 <= age else b[i - 1] <= age
    ensures exists k :: i <= k <= |b| && IsInInterval(IntervalsOf(b)[k], age)
    decreases |b| - i
  {
    if i == |b| || age < b[i] {
      assert IsInInterval(IntervalsOf(b)[i], age);
    } else {
      SomeIntervalFrom(b, age, i + 1);
    }
  }

  /** `getAgeIntervals`: the label of every interval, in order. */
  function Labels(ivs: seq<AgeInterval>): (r: seq<string>)
    ensures |r| == |ivs|
  {
    seq(|ivs|, k requires 0 <= k < |ivs| => Label(ivs[k]))
  }

  /** Every label listed reads back as its interval when the bounds are
      non-negative, as those built from non-negative breaks are. */
  lemma LabelsReadBack(ivs: seq<AgeInterval>)
    requires forall k :: 0 <= k < |ivs| ==> 0 <= ivs[k].lower <= INT_MAX && 0 <= ivs[k].upper <= INT_MAX
    ensures forall k :: 0 <= k < |ivs| ==> GetAgeInterval(Labels(ivs)[k]) == Some(ivs[k])
  {
    forall k | 0 <= k < |ivs| {
      LabelRoundTrip(ivs[k]);
    }
  }

  // ---------------------------------------------------------------------
  // People in an interval

  /** The SSNs of the people of `ps`, in their order, whose age lies in `a`. */
  function SsnsIn(ps: seq<Person>, a: AgeInterval): seq<string>
    decreases |ps|
  {
    if ps == [] then []
    else
      var p := ps[|ps| - 1];
      SsnsIn(ps[..|ps| - 1], a) + (if IsInInterval(a, AgeOf(p)) then [p.ssn] else [])
  }

  /** An SSN is listed exactly when its person's age lies in the interval. */
  lemma {:induction false} SsnsInMembers(ps: seq<Person>, a: AgeInterval)
    ensures forall s :: s in SsnsIn(ps, a) <==> exists p :: p in ps && p.ssn == s && IsInInterval(a, AgeOf(p))
    decreases |ps|
  {
    if ps != [] {
      var n := |ps| - 1;
      SsnsInMembers(ps[..n], a);
      assert ps == ps[..n] + [ps[n]];
    }
  }

  /** SSNs being unique, every SSN is listed at most once. */
  lemma {:induction false} SsnsInUnique(ps: seq<Person>, a: AgeInterval)
    requires NoDuplicates(Ssns(ps))
    ensures NoDuplicates(SsnsIn(ps, a))
    decreases |ps|
  {
    if ps != [] {
      var n := |ps| - 1;
      var q := ps[..n];
      assert Ssns(ps) == Ssns(q) + [ps[n].ssn];
      assert NoDuplicates(Ssns(q));
      SsnsInUnique(q, a);
      if IsInInterval(a, AgeOf(ps[n])) {
        assert ps[n].ssn !in Ssns(q);
        SsnsInMembers(q, a);
        NoDuplicatesAppend(SsnsIn(q, a), ps[n].ssn);
      }
    }
  }

  // ---------------------------------------------------------------------
  // Hubs and their capacity

  class Hub {
    const name: string
    var doctors: int
    var nurses: int
    var others: int

    constructor (name: string)
      ensures this.name == name && doctors == 0 && nurses == 0 && others == 0
    {
      this.name := name;
      doctors, nurses, others := 0, 0, 0;
    }

    /** `setStaffConfiguration`: overwrites the three counts. */
    method SetStaffConfiguration(doctors: int, nurses: int, other: int)
      modifies this
      ensures this.doctors == doctors && this.nurses == nurses && this.others == other
    {
      this.doctors, this.nurses, this.others := doctors, nurses, other;
    }

    /** `isStaffDefined`: despite its name, true when some count is not
        positive, that is when the staff is NOT fully defined. */
    predicate IsStaffDefined()
      reads this
    {
      doctors <= 0 || nurses <= 0 || others <= 0
    }
  }

  function HubNames(hs: seq<Hub>): (r: seq<string>)
    ensures |r| == |hs| && forall k :: 0 <= k < |hs| ==> r[k] == hs[k].name
  {
    seq(|hs|, k requires 0 <= k < |hs| => hs[k].name)
  }

  /** The smallest of three values, by the comparisons of
      `estimateHourlyCapacity`. */
  function Min3(a: int, b: int, c: int): (m: int)
    ensures m <= a && m <= b && m <= c
    ensures m == a || m == b || m == c
  {
    if a <= b then (if a <= c then a else c) else (if b <= c then b else c)
  }

  /** The hourly capacity of a staff: the least of 10 per doctor, 12 per
      nurse and 20 per other member, each product in `int` arithmetic. */
  function Capacity(doctors: int, nurses: int, other: int): int {
    Min3(Wrap32(10 * doctors), Wrap32(12 * nurses), Wrap32(20 * other))
  }

  /** Without overflow, a positive staff can vaccinate at least 10 people
      an hour, and more staff of any kind never lowers the capacity. */
  lemma CapacityGrows(d: int, n: int, o: int, d': int, n': int, o': int)
    requires 0 < d <= d' && 10 * d' <= INT_MAX
    requires 0 < n <= n' && 12 * n' <= INT_MAX
    requires 0 < o <= o' && 20 * o' <= INT_MAX
    ensures 10 <= Capacity(d, n, o) <= Capacity(d', n', o')
  {
  }

  // ---------------------------------------------------------------------
  // Working hours and time slots

  /** The number of hours of a day with `h` working hours: the loop runs
      from 9 while below `h + 9`, that sum in `int` arithmetic. */
  function WorkingHours(h: int): (n: nat)
    ensures 0 <= h <= INT_MAX - 9 ==> n == h
    ensures INT_MIN <= h <= 0 || INT_MAX - 9 < h <= INT_MAX ==> n == 0
  {
    var end := Wrap32(h + 9);
    assert INT_MAX - 9 < h <= INT_MAX ==> end == h + 9 - 0x1_0000_0000;
    if end > 9 then end - 9 else 0
  }

  /** A time as `%02d:%02d`. */
  function Stamp(hour: nat, minute: nat): string {
    Pad2(hour) + ":" + Pad2(minute)
  }

  /** The four slots of the hour that starts at `hour`. */
  function HourSlots(hour: nat): (r: seq<string>)
    ensures |r| == 4
  {
    seq(4, q requires 0 <= q < 4 => Stamp(hour, 15 * q))
  }

  /** The slots of the first `n` working hours of a day, from 9:00. */
  function Slots(n: nat): (r: seq<string>)
    ensures |r| == 4 * n
    decreases n
  {
    if n == 0 then [] else Slots(n - 1) + HourSlots(9 + n - 1)
  }

  /** `getHours`: per day, four slots for every working hour. */
  function WeekSlots(hs: seq<int>): (r: seq<seq<string>>)
    ensures |r| == |hs| && forall d :: 0 <= d < |hs| ==> r[d] == Slots(WorkingHours(hs[d]))
    decreases |hs|
  {
    if hs == [] then [] else WeekSlots(hs[..|hs| - 1]) + [Slots(WorkingHours(hs[|hs| - 1]))]
  }

  /** The `k`-th slot of a day starts at hour `9 + k / 4`, minute
      `15 * (k % 4)`. */
  lemma {:induction false} SlotAt(n: nat, k: nat)
    requires k < 4 * n
    ensures Slots(n)[k] == Stamp(9 + k / 4, 15 * (k % 4))
    decreases n
  {
    var m := 4 * (n - 1);
    var hour, minute := 9 + k / 4, 15 * (k % 4);
    if k < m {
      SlotAt(n - 1, k);
      assert Slots(n)[k] == Slots(n - 1)[k] == Stamp(hour, minute);
    } else {
      var q := k - m;
      Quarter(n - 1, q);
      assert hour == 9 + n - 1 && minute == 15 * q;
      assert Slots(n)[k] == HourSlots(9 + n - 1)[q];
      assert HourSlots(9 + n - 1)[q] == Stamp(hour, minute);
    }
  }

  lemma Quarter(j: nat, q: nat)
    requires q < 4
    ensures (4 * j + q) / 4 == j && (4 * j + q) % 4 == q
  {
  }

  /** A stamp of an hour below 100 reads `HH:MM`: the two digits before the
      colon are the hour, those after it the minute. */
  lemma StampReads(hour: nat, minute: nat)
    requires hour < 100 && minute < 100
    ensures var s := Stamp(hour, minute);
      |s| == 5 && s[2] == ':' && AllDigits(s[..2]) && AllDigits(s[3..]) &&
      DigitsValue(s[..2]) == hour && DigitsValue(s[3..]) == minute
  {
    var s := Stamp(hour, minute);
    assert s[..2] == Pad2(hour) && s[3..] == Pad2(minute);
  }

  /** The inner loops of `getHours` for a day of `h` hours. */
  method DaySlots(h: int) returns (day: seq<string>)
    ensures day == Slots(WorkingHours(h))
  {
    day := [];
    var end := Wrap32(h + 9);
    var i := 9;
    while i < end
      invariant 9 <= i && (i <= end || i == 9)
      invariant day == Slots(i - 9)
    {
      var hour := HourStamps(i);
      day := day + hour;
      assert Slots(i - 8) == Slots(i - 9) + HourSlots(i);
      i := i + 1;
    }
  }

  /** The inner loop of `getHours`: the quarters of one hour. */
  method HourStamps(hour: nat) returns (r: seq<string>)
    ensures r == HourSlots(hour)
  {
    r := [];
    var l, q := 0, 0;
    while l < 60
      invariant 0 <= q <= 4 && l == 15 * q
      invariant r == HourSlots(hour)[..q]
    {
      assert HourSlots(hour)[..q + 1] == HourSlots(hour)[..q] + [Stamp(hour, l)];
      r := r + [Stamp(hour, l)];
      l, q := l + 15, q + 1;
    }
    assert HourSlots(hour)[..q] == HourSlots(hour);
  }

  // ---------------------------------------------------------------------
  // The facade

  class Vaccines {
    var people: seq<Person>
    var ageIntervals: seq<AgeInterval>
    var hubs: seq<Hub>
    var hours: Option<seq<int>>

    /** SSNs identify people and names identify hubs. */
    ghost predicate Valid()
      reads this
    {
      NoDuplicates(Ssns(people)) && NoDuplicates(HubNames(hubs))
    }

    constructor ()
      ensures Valid() && people == [] && ageIntervals == [] && hubs == [] && hours == None
    {
      people, ageIntervals, hubs, hours := [], [], [], None;
    }

    /** `addPerson`: refused, changing nothing, for a known SSN; otherwise
        the person is appended. */
    method AddPerson(first: string, last: string, ssn: string, year: int) returns (added: bool)
      requires Valid()
      modifies this
      ensures Valid()
      ensures added <==> ssn !in Ssns(old(people))
      ensures people == if added then old(people) + [Person(first, last, ssn, year)] else old(people)
      ensures ageIntervals == old(ageIntervals) && hubs == old(hubs) && hours == old(hours)
    {
      if ssn in Ssns(people) {
        return false;
      }
      var p := Person(first, last, ssn, year);
      assert Ssns(people + [p]) == Ssns(people) + [ssn];
      NoDuplicatesAppend(Ssns(people), ssn);
      people := people + [p];
      added := true;
    }

    /** `getAge`: the age of the person with that SSN, or -1 for an unknown
        SSN. */
    function GetAge(ssn: string): (age: int)
      requires Valid()
      reads this
      ensures ssn !in Ssns(people) ==> age == -1
      ensures forall p | p in people && p.ssn == ssn :: age == AgeOf(p)
    {
      match IndexOf(Ssns(people), ssn)
      case None => -1
      case Some(k) => AgeOf(people[k])
    }

    /** `setAgeIntervals`: an empty array of breaks throws on its first
        element, changing nothing; otherwise the intervals of the breaks are
        appended. */
    method SetAgeIntervals(breaks: seq<int>) returns (r: Outcome<()>)
      modifies this
      ensures r.Thrown? <==> breaks == []
      ensures r.Thrown? ==> r.failure == IndexOutOfBounds && ageIntervals == old(ageIntervals)
      ensures r.Done? ==> ageIntervals == old(ageIntervals) + IntervalsOf(breaks)
      ensures people == old(people) && hubs == old(hubs) && hours == old(hours)
    {
      if breaks == [] {
        return Thrown(IndexOutOfBounds);
      }
      ghost var start := ageIntervals;
      ageIntervals := ageIntervals + [AgeInterval(0, breaks[0])];
      var i := 1;
      while i < |breaks|
        invariant 1 <= i <= |breaks|
        invariant ageIntervals == start + IntervalsOf(breaks)[..i]
        invariant people == old(people) && hubs == old(hubs) && hours == old(hours)
      {
        assert IntervalsOf(breaks)[..i + 1] == IntervalsOf(breaks)[..i] + [IntervalsOf(breaks)[i]];
        ageIntervals := ageIntervals + [AgeInterval(breaks[i - 1], breaks[i])];
        i := i + 1;
      }
      assert IntervalsOf(breaks) == IntervalsOf(breaks)[..i] + [IntervalsOf(breaks)[i]];
      ageIntervals := ageIntervals + [AgeInterval(breaks[|breaks| - 1], INT_MAX)];
      r := Done(());
    }

    /** `getInInterval`: a label that cannot be read throws; otherwise the
        SSNs of the people in the interval, in insertion order. */
    method GetInInterval(interval: string) returns (r: Outcome<seq<string>>)
      ensures GetAgeInterval(interval).None? ==> r == Thrown(UnreadableLabel)
      ensures GetAgeInterval(interval).Some? ==> r == Done(SsnsIn(people, GetAgeInterval(interval).value))
    {
      var a := GetAgeInterval(interval);
      if a.None? {
        return Thrown(UnreadableLabel);
      }
      var found := [];
      var i := 0;
      while i < |people|
        invariant 0 <= i <= |people|
        invariant found == SsnsIn(people[..i], a.value)
      {
        assert people[..i + 1][..i] == people[..i];
        if IsInInterval(a.value, AgeOf(people[i])) {
          found := found + [people[i].ssn];
        }
        i := i + 1;
      }
      assert people[..i] == people;
      r := Done(found);
    }

    /** `defineHub`: refused, changing nothing, for a known name; otherwise
        a new hub with no staff is appended. */
    method DefineHub(name: string) returns (r: Outcome<()>)
      requires Valid()
      modifies this
      ensures Valid()
      ensures r.Thrown? <==> name in HubNames(old(hubs))
      ensures r.Thrown? ==> r.failure == VaccineException(HUB_EXISTS) && hubs == old(hubs)
      ensures r.Done? ==> |hubs| == |old(hubs)| + 1 && hubs[..|old(hubs)|] == old(hubs)
      ensures r.Done? ==> var h := hubs[|hubs| - 1];
        fresh(h) && h.name == name && h.doctors == 0 && h.nurses == 0 && h.others == 0
      ensures people == old(people) && ageIntervals == old(ageIntervals) && hours == old(hours)
    {
      if name in HubNames(hubs) {
        return Thrown(VaccineException(HUB_EXISTS));
      }
      var h := new Hub(name);
      assert HubNames(hubs + [h]) == HubNames(hubs) + [name];
      NoDuplicatesAppend(HubNames(hubs), name);
      hubs := hubs + [h];
      r := Done(());
    }

    /** `estimateHourlyCapacity`: an unknown hub and a hub whose staff is
        not all positive throw; otherwise the capacity of its staff. */
    function EstimateHourlyCapacity(hubName: string): (r: Outcome<int>)
      requires Valid()
      reads this, hubs
      ensures hubName !in HubNames(hubs) ==> r == Thrown(VaccineException(HUB_UNDEFINED))
      ensures forall h | h in hubs && h.name == hubName && h.IsStaffDefined() ::
        r == Thrown(VaccineException(NO_STAFF))
      ensures forall h | h in hubs && h.name == hubName && !h.IsStaffDefined() ::
        r == Done(Capacity(h.doctors, h.nurses, h.others))
    {
      match IndexOf(HubNames(hubs), hubName)
      case None => Thrown(VaccineException(HUB_UNDEFINED))
      case Some(k) =>
        var h := hubs[k];
        if h.IsStaffDefined() then Thrown(VaccineException(NO_STAFF))
        else Done(Capacity(h.doctors, h.nurses, h.others))
    }

    /** `setStaff`: non-positive counts are refused first, then an unknown
        hub; otherwise the hub's staff is overwritten, so that its capacity
        is that of the new staff. */
    method SetStaff(name: string, doctors: int, nurses: int, other: int) returns (r: Outcome<()>)
      requires Valid()
      modifies hubs
      ensures r.Thrown? <==> doctors <= 0 || nurses <= 0 || other <= 0 || name !in HubNames(hubs)
      ensures doctors <= 0 || nurses <= 0 || other <= 0 ==> r == Thrown(VaccineException(BAD_STAFF))
      ensures doctors > 0 && nurses > 0 && other > 0 && name !in HubNames(hubs) ==>
        r == Thrown(VaccineException(HUB_UNDEFINED))
      ensures r.Done? ==> forall h | h in hubs && h.name == name ::
        h.doctors == doctors && h.nurses == nurses && h.others == other
      ensures r.Done? ==> EstimateHourlyCapacity(name) == Done(Capacity(doctors, nurses, other))
      ensures forall h | h in hubs && (r.Thrown? || h.name != name) :: unchanged(h)
    {
      if doctors <= 0 || nurses <= 0 || other <= 0 {
        return Thrown(VaccineException(BAD_STAFF));
      }
      var k := IndexOf(HubNames(hubs), name);
      if k.None? {
        return Thrown(VaccineException(HUB_UNDEFINED));
      }
      hubs[k.value].SetStaffConfiguration(doctors, nurses, other);
      r := Done(());
    }

    /** `setHours`: anything but seven values is refused, changing nothing. */
    method SetHours(hs: seq<int>) returns (r: Outcome<()>)
      modifies this
      ensures r.Thrown? <==> |hs| != 7
      ensures r.Thrown? ==> r.failure == VaccineException(BAD_HOURS) && hours == old(hours)
      ensures r.Done? ==> hours == Some(hs)
      ensures people == old(people) && ageIntervals == old(ageIntervals) && hubs == old(hubs)
    {
      if |hs| != 7 {
        return Thrown(VaccineException(BAD_HOURS));
      }
      hours := Some(hs);
      r := Done(());
    }

    /** `getHours`: before any hours are set the loop over them throws;
        afterwards, per day, the labels of its 15-minute slots. */
    method GetHours() returns (r: Outcome<seq<seq<string>>>)
      ensures hours.None? ==> r == Thrown(NullDereference)
      ensures hours.Some? ==> r == Done(WeekSlots(hours.value))
    {
      if hours.None? {
        return Thrown(NullDereference);
      }
      var hs := hours.value;
      var week: seq<seq<string>> := [];
      var d := 0;
      while d < |hs|
        invariant 0 <= d <= |hs|
        invariant week == WeekSlots(hs[..d])
      {
        var day := DaySlots(hs[d]);
        assert hs[..d + 1][..d] == hs[..d];
        week := week + [day];
        d := d + 1;
      }
      assert hs[..d] == hs;
      r := Done(week);
    }

    /** `getDailyAvailable`: -1 when the capacity estimate throws; the
        exceptions of missing hours or a day outside them escape; otherwise
        capacity times the day's hours, the product narrowed to `int`. */
    function GetDailyAvailable(hubName: string, day: int): (r: Outcome<int>)
      requires Valid()
      reads this, hubs
      ensures EstimateHourlyCapacity(hubName).Thrown? ==> r == Done(-1)
      ensures EstimateHourlyCapacity(hubName).Done? && hours.None? ==> r == Thrown(NullDereference)
      ensures EstimateHourlyCapacity(hubName).Done? && hours.Some? && !(0 <= day < |hours.value|) ==>
        r == Thrown(IndexOutOfBounds)
      ensures r.Done? ==> IsInt32(r.value)
    {
      match EstimateHourlyCapacity(hubName)
      case Thrown(_) => Done(-1)
      case Done(c) =>
        if hours.None? then Thrown(NullDereference)
        else if !(0 <= day < |hours.value|) then Thrown(IndexOutOfBounds)
        else Done(Wrap32(c * hours.value[day]))
    }

    /** Where nothing overflows, the slots available in a day are the
        hourly capacity times the hours `getHours` lists for it, four
        labels to the hour. */
    lemma DailyAvailableMatchesSlots(hubName: string, day: int)
      requires Valid() && hours.Some? && 0 <= day < |hours.value|
      requires 0 <= hours.value[day] <= INT_MAX - 9
      requires EstimateHourlyCapacity(hubName).Done?
      requires 0 <= EstimateHourlyCapacity(hubName).value * hours.value[day] <= INT_MAX
      ensures GetDailyAvailable(hubName, day) ==
        Done(EstimateHourlyCapacity(hubName).value * (|WeekSlots(hours.value)[day]| / 4))
    {
      var h := hours.value[day];
      assert |WeekSlots(hours.value)[day]| == 4 * h;
    }
  }
}
