/** The mountain-hut register of a region (`Region`): the altitude ranges
    the region is divided into, and the municipalities and mountain huts
    registered in it, each found by name or else added. */
module MountainHuts {
  import opened Util
  import opened JavaText

  /** The range reported for an altitude no range covers. */
  const NO_RANGE := "0-INF"

  /** The runtime exceptions reading a range can end in: `parseInt` on a
      piece that is not a number, or a missing piece. */
  datatype Failure = NumberFormat | IndexOutOfBounds

  datatype Outcome<T> = Done(value: T) | Thrown(failure: Failure)

  /** A municipality: its name, its province and its altitude. */
  datatype Municipality = Municipality(name: string, province: string, altitude: int)

  /** A mountain hut, whose altitude may be absent, in the municipality
      where it lies. */
  datatype MountainHut = MountainHut(
    name: string, altitude: Option<int>, category: string, bedsNumber: int, municipality: Municipality)

  function MunicipalityNames(ms: seq<Municipality>): (r: seq<string>)
    ensures |r| == |ms| && forall k :: 0 <= k < |ms| ==> r[k] == ms[k].name
  {
    seq(|ms|, k requires 0 <= k < |ms| => ms[k].name)
  }

  function HutNames(hs: seq<MountainHut>): (r: seq<string>)
    ensures |r| == |hs| && forall k :: 0 <= k < |hs| ==> r[k] == hs[k].name
  {
    seq(|hs|, k requires 0 <= k < |hs| => hs[k].name)
  }

  function Provinces(ms: seq<Municipality>): (r: seq<string>)
    ensures |r| == |ms| && forall k :: 0 <= k < |ms| ==> r[k] == ms[k].province
  {
    seq(|ms|, k requires 0 <= k < |ms| => ms[k].province)
  }

  // ---------------------------------------------------------------------
  // Altitude ranges

  /** One range as `getAltitudeRange` reads it: split at `-`, the first
      piece parsed as the lower end, then the second as the upper end. */
  function ReadRange(range: string): Outcome<(int, int)>
  {
    var parts := Split(range, '-');
    if |parts| == 0 then Thrown(IndexOutOfBounds)
    else match ParseInt(parts[0])
      case None => Thrown(NumberFormat)
      case Some(lower) =>
        if |parts| < 2 then Thrown(IndexOutOfBounds)
        else match ParseInt(parts[1])
          case None => Thrown(NumberFormat)
          case Some(upper) => Done((lower, upper))
  }

  /** A reading of a range: the exception it throws, or its two ends. */
  type Reading = Outcome<(int, int)>

  /** The range read, and it includes the altitude at both ends. */
  predicate Covers(reading: Reading, altitude: int) {
    reading.Done? && reading.value.0 <= altitude <= reading.value.1
  }

  /** Every range of `rs` as read. */
  function Readings(rs: seq<string>): (r: seq<Reading>)
    ensures |r| == |rs| && forall k :: 0 <= k < |rs| ==> r[k] == ReadRange(rs[k])
  {
    seq(|rs|, k requires 0 <= k < |rs| => ReadRange(rs[k]))
  }

  /** A range written the way the region's ranges are: `[min]-[max]`. */
  function RangeText(lower: int, upper: int): string {
    IntToString(lower) + "-" + IntToString(upper)
  }

  lemma NoDash(n: int)
    requires n >= 0
    ensures '-' !in IntToString(n)
  {
    var s := IntToString(n);
    assert forall k :: 0 <= k < |s| ==> IsDigit(s[k]);
  }

  /** A range written from two non-negative ends reads back as those ends. */
  lemma ReadRangeText(lower: int, upper: int)
    requires 0 <= lower <= INT_MAX && 0 <= upper <= INT_MAX
    ensures ReadRange(RangeText(lower, upper)) == Done((lower, upper))
  {
    var a, b := IntToString(lower), IntToString(upper);
    NoDash(lower);
    NoDash(upper);
    assert Join([a, b], '-') == RangeText(lower, upper);
    SplitJoin([a, b], '-');
    ParseIntToString(lower);
    ParseIntToString(upper);
  }

  /** A range whose upper end is not a number does not read, whatever
      its lower end: `2000-INF`, say. */
  lemma UnreadableUpper(lower: string, upper: string)
    requires '-' !in lower && '-' !in upper && upper != [] && ParseInt(upper).None?
    ensures ReadRange(lower + "-" + upper) == Thrown(NumberFormat)
  {
    assert lower + "-" + upper == Join([lower, upper], '-');
    SplitJoin([lower, upper], '-');
  }

  /** The default range itself does not read as a range, so it is never
      mistaken for one of the region's ranges. */
  lemma NoRangeUnreadable()
    ensures ReadRange(NO_RANGE) == Thrown(NumberFormat)
  {
    assert NO_RANGE == "0" + "-" + "INF";
    assert !IsDigit("INF"[0]);
    UnreadableUpper("0", "INF");
  }

  /** One turn of the loop of `getAltitudeRange`: read the range, then
      compare the altitude with both ends. */
  method CheckRange(range: string, altitude: int) returns (r: Outcome<bool>)
    ensures r.Thrown? <==> ReadRange(range).Thrown?
    ensures r.Thrown? ==> r.failure == ReadRange(range).failure
    ensures r.Done? ==> (r.value <==> Covers(ReadRange(range), altitude))
  {
    var range' := ReadRange(range);
    if range'.Thrown? {
      return Thrown(range'.failure);
    }
    var (minValue, maxValue) := range'.value;
    r := Done(altitude >= minValue && altitude <= maxValue);
  }

  /** The scan of `getAltitudeRange` over the ranges `rs`, read as
      `readings`, in order: the first range that does not read ends it with
      its exception; each range that covers the altitude replaces the
      result so far, which starts as `"0-INF"`. What it computes is stated
      by `ScanReturns`, `ScanFailure` and `ScanValue`. */
  function Scan(rs: seq<string>, readings: seq<Reading>, altitude: int): Outcome<string>
    requires |readings| == |rs|
  {
    if rs == [] then Done(NO_RANGE)
    else
      var n := |rs| - 1;
      match Scan(rs[..n], readings[..n], altitude)
      case Thrown(f) => Thrown(f)
      case Done(v) =>
        match readings[n]
        case Thrown(f) => Thrown(f)
        case Done(_) => Done(if Covers(readings[n], altitude) then rs[n] else v)
  }

  /** Once the scan of a prefix throws, the whole scan throws the same. */
  lemma {:induction false} ThrownStays(rs: seq<string>, readings: seq<Reading>, n: nat, altitude: int)
    requires |readings| == |rs| && n <= |rs| && Scan(rs[..n], readings[..n], altitude).Thrown?
    ensures Scan(rs, readings, altitude) == Scan(rs[..n], readings[..n], altitude)
    decreases |rs|
  {
    if n < |rs| {
      var m := |rs| - 1;
      assert rs[..m][..n] == rs[..n] && readings[..m][..n] == readings[..n];
      ThrownStays(rs[..m], readings[..m], n, altitude);
    } else {
      assert rs[..n] == rs && readings[..n] == readings;
    }
  }

  /** The scan returns exactly when every range reads. */
  lemma {:induction false} ScanReturns(rs: seq<string>, readings: seq<Reading>, altitude: int)
    requires |readings| == |rs|
    ensures Scan(rs, readings, altitude).Done? <==> forall k :: 0 <= k < |rs| ==> readings[k].Done?
    decreases |rs|
  {
    if rs != [] {
      var n := |rs| - 1;
      ScanReturns(rs[..n], readings[..n], altitude);
      assert forall k :: 0 <= k < n ==> readings[..n][k] == readings[k];
    }
  }

  /** When the scan throws, it is with the exception of the first range
      that does not read. */
  lemma {:induction false} ScanFailure(rs: seq<string>, readings: seq<Reading>, altitude: int)
    requires |readings| == |rs| && Scan(rs, readings, altitude).Thrown?
    ensures exists k :: (0 <= k < |rs| && readings[k] == Thrown(Scan(rs, readings, altitude).failure) &&
      forall j :: 0 <= j < k ==> readings[j].Done?)
    decreases |rs|
  {
    var n := |rs| - 1;
    assert forall k :: 0 <= k < n ==> readings[..n][k] == readings[k];
    if Scan(rs[..n], readings[..n], altitude).Thrown? {
      ScanFailure(rs[..n], readings[..n], altitude);
      var k :| 0 <= k < n && readings[..n][k] == Thrown(Scan(rs[..n], readings[..n], altitude).failure) &&
        forall j :: 0 <= j < k ==> readings[..n][j].Done?;
      assert readings[k] == Thrown(Scan(rs, readings, altitude).failure);
    } else {
      ScanReturns(rs[..n], readings[..n], altitude);
      assert readings[n] == Thrown(Scan(rs, readings, altitude).failure);
    }
  }

  /** `rs[k]` is the last range covering the altitude. */
  predicate LastCover(rs: seq<string>, readings: seq<Reading>, k: nat, altitude: int)
    requires |readings| == |rs|
  {
    k < |rs| && Covers(readings[k], altitude) && forall j :: k < j < |rs| ==> !Covers(readings[j], altitude)
  }

  /** When the scan returns, the result is the last range covering the
      altitude, or `"0-INF"` when no range covers it. */
  lemma {:induction false} ScanValue(rs: seq<string>, readings: seq<Reading>, altitude: int)
    requires |readings| == |rs| && Scan(rs, readings, altitude).Done?
    ensures var v := Scan(rs, readings, altitude).value;
      || (v == NO_RANGE && forall k :: 0 <= k < |rs| ==> !Covers(readings[k], altitude))
      || exists k: nat :: LastCover(rs, readings, k, altitude) && v == rs[k]
    decreases |rs|
  {
    if rs != [] {
      var n := |rs| - 1;
      var init, initReads := rs[..n], readings[..n];
      var v := Scan(init, initReads, altitude).value;
      assert forall k :: 0 <= k < n ==> initReads[k] == readings[k] && init[k] == rs[k];
      ScanValue(init, initReads, altitude);
      if Covers(readings[n], altitude) {
        assert LastCover(rs, readings, n, altitude);
      } else {
        assert Scan(rs, readings, altitude) == Done(v);
        if exists k: nat :: LastCover(init, initReads, k, altitude) && v == init[k] {
          var k: nat :| LastCover(init, initReads, k, altitude) && v == init[k];
          assert LastCover(rs, readings, k, altitude);
        }
      }
    }
  }

  /** With every range written from two non-negative ends, every range
      reads, so the scan returns. */
  lemma WrittenRangesRead(ends: seq<(int, int)>, altitude: int)
    requires forall k :: 0 <= k < |ends| ==> 0 <= ends[k].0 <= INT_MAX && 0 <= ends[k].1 <= INT_MAX
    ensures var rs := seq(|ends|, k requires 0 <= k < |ends| => RangeText(ends[k].0, ends[k].1));
      Scan(rs, Readings(rs), altitude).Done?
  {
    var rs := seq(|ends|, k requires 0 <= k < |ends| => RangeText(ends[k].0, ends[k].1));
    forall k | 0 <= k < |rs|
      ensures Readings(rs)[k].Done?
    {
      ReadRangeText(ends[k].0, ends[k].1);
    }
    ScanReturns(rs, Readings(rs), altitude);
  }

  // ---------------------------------------------------------------------
  // The region

  class Region {
    const name: string
    /** `null` until `setAltitudeRanges` is called. */
    var altitudeRanges: Option<seq<string>>
    var municipalities: seq<Municipality>
    var huts: seq<MountainHut>

    /** Municipality names and hut names are unique. */
    ghost predicate Valid()
      reads this
    {
      NoDuplicates(MunicipalityNames(municipalities)) && NoDuplicates(HutNames(huts))
    }

    constructor (name: string)
      ensures Valid()
      ensures this.name == name && altitudeRanges == None && municipalities == [] && huts == []
    {
      this.name := name;
      altitudeRanges, municipalities, huts := None, [], [];
    }

    method SetAltitudeRanges(ranges: seq<string>)
      modifies this
      ensures altitudeRanges == Some(ranges)
      ensures municipalities == old(municipalities) && huts == old(huts)
    {
      altitudeRanges := Some(ranges);
    }

    /** `getAltitudeRange`: `"0-INF"` when no ranges are set, otherwise
        the scan of the ranges described by `Scan`. */
    method GetAltitudeRange(altitude: int) returns (r: Outcome<string>)
      ensures altitudeRanges.None? ==> r == Done(NO_RANGE)
      ensures altitudeRanges.Some? ==> r == Scan(altitudeRanges.value, Readings(altitudeRanges.value), altitude)
    {
      if altitudeRanges.None? {
        return Done(NO_RANGE);
      }
      var rs := altitudeRanges.value;
      ghost var readings := Readings(rs);
      var retValue := NO_RANGE;
      var i := 0;
      while i < |rs|
        invariant i <= |rs|
        invariant Scan(rs[..i], readings[..i], altitude) == Done(retValue)
      {
        assert rs[..i + 1][..i] == rs[..i] && readings[..i + 1][..i] == readings[..i];
        var covers := CheckRange(rs[i], altitude);
        if covers.Thrown? {
          ThrownStays(rs, readings, i + 1, altitude);
          return Thrown(covers.failure);
        }
        if covers.value {
          retValue := rs[i];
        }
        i := i + 1;
      }
      assert rs[..i] == rs && readings[..i] == readings;
      r := Done(retValue);
    }

    /** `createOrGetMunicipality`: the registered municipality of that
        name, whatever the other arguments; otherwise a new one, added at
        the end. */
    method CreateOrGetMunicipality(name: string, province: string, altitude: int) returns (m: Municipality)
      requires Valid()
      modifies this
      ensures Valid()
      ensures name in MunicipalityNames(old(municipalities)) ==>
        municipalities == old(municipalities) && m in municipalities && m.name == name
      ensures name !in MunicipalityNames(old(municipalities)) ==>
        m == Municipality(name, province, altitude) && municipalities == old(municipalities) + [m]
      ensures huts == old(huts) && altitudeRanges == old(altitudeRanges)
    {
      var i := 0;
      while i < |municipalities|
        invariant i <= |municipalities|
        invariant name !in MunicipalityNames(municipalities[..i])
      {
        if municipalities[i].name == name {
          return municipalities[i];
        }
        assert MunicipalityNames(municipalities[..i + 1]) == MunicipalityNames(municipalities[..i]) + [municipalities[i].name];
        i := i + 1;
      }
      assert municipalities[..i] == municipalities;
      m := Municipality(name, province, altitude);
      assert MunicipalityNames(municipalities + [m]) == MunicipalityNames(municipalities) + [name];
      NoDuplicatesAppend(MunicipalityNames(municipalities), name);
      municipalities := municipalities + [m];
    }

    /** `createOrGetMountainHut` with an altitude, which may be absent: the
        registered hut of that name, whatever the other arguments;
        otherwise a new one, added at the end. */
    method CreateOrGetMountainHut(name: string, altitude: Option<int>, category: string, bedsNumber: int,
                                  municipality: Municipality) returns (h: MountainHut)
      requires Valid()
      modifies this
      ensures Valid()
      ensures name in HutNames(old(huts)) ==> huts == old(huts) && h in huts && h.name == name
      ensures name !in HutNames(old(huts)) ==>
        h == MountainHut(name, altitude, category, bedsNumber, municipality) && huts == old(huts) + [h]
      ensures municipalities == old(municipalities) && altitudeRanges == old(altitudeRanges)
    {
      var i := 0;
      while i < |huts|
        invariant i <= |huts|
        invariant name !in HutNames(huts[..i])
      {
        if huts[i].name == name {
          return huts[i];
        }
        assert HutNames(huts[..i + 1]) == HutNames(huts[..i]) + [huts[i].name];
        i := i + 1;
      }
      assert huts[..i] == huts;
      h := MountainHut(name, altitude, category, bedsNumber, municipality);
      assert HutNames(huts + [h]) == HutNames(huts) + [name];
      NoDuplicatesAppend(HutNames(huts), name);
      huts := huts + [h];
    }

    /** `createOrGetMountainHut` without an altitude: the altitude is
        absent. */
    method CreateOrGetMountainHutNoAltitude(name: string, category: string, bedsNumber: int,
                                            municipality: Municipality) returns (h: MountainHut)
      requires Valid()
      modifies this
      ensures Valid()
      ensures name in HutNames(old(huts)) ==> huts == old(huts) && h in huts && h.name == name
      ensures name !in HutNames(old(huts)) ==>
        h == MountainHut(name, None, category, bedsNumber, municipality) && huts == old(huts) + [h]
      ensures municipalities == old(municipalities) && altitudeRanges == old(altitudeRanges)
    {
      h := CreateOrGetMountainHut(name, None, category, bedsNumber, municipality);
    }

    /** `countMunicipalitiesPerProvince`: every province of a registered
        municipality, with the number of registered municipalities in it;
        the huts play no part. */
    method CountMunicipalitiesPerProvince() returns (counts: map<string, nat>)
      ensures forall p :: p in counts <==> p in Provinces(municipalities)
      ensures forall p | p in counts :: counts[p] == multiset(Provinces(municipalities))[p]
    {
      counts := map[];
      var i := 0;
      while i < |municipalities|
        invariant i <= |municipalities|
        invariant forall p :: p in counts <==> p in Provinces(municipalities[..i])
        invariant forall p | p in counts :: counts[p] == multiset(Provinces(municipalities[..i]))[p]
      {
        var province := municipalities[i].province;
        assert Provinces(municipalities[..i + 1]) == Provinces(municipalities[..i]) + [province];
        var numInProvince := 0;
        if province in counts {
          numInProvince := counts[province];
        }
        numInProvince := numInProvince + 1;
        counts := counts[province := numInProvince];
        i := i + 1;
      }
      assert municipalities[..i] == municipalities;
    }
  }
}
