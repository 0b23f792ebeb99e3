/** Choice of one CPU temperature from all thermal sensor groups
    (`SystemSampler._read_cpu_temperature`, main.py lines 202-225). */
module CpuTemperature {
  import opened Wrappers

  /** `entry.current` of one sensor entry; it may be missing. */
  type Reading = Option<real>

  /** One item of the sensor dictionary: a group name and its entries. */
  datatype SensorGroup = SensorGroup(name: string, entries: seq<Reading>)

  /** The sensor dictionary as its items, in the dictionary's iteration order. */
  type SensorMap = seq<SensorGroup>

  /** What the temperature query of the OS library gives. */
  datatype SensorSource =
    | NotSupported                // the library has no temperature query on this platform
    | QueryFails                  // the query raised
    | Groups(sensors: SensorMap)  // a `None` answer is the empty dictionary

  /** Groups known to carry the CPU package temperature, in priority order. */
  const PreferredKeys: seq<string> := ["coretemp", "k10temp", "cpu_thermal", "acpitz"]

  /** The readings of a group that are present, in order. */
  function Present(entries: seq<Reading>): (vs: seq<real>)
    ensures |vs| <= |entries|
    ensures forall x :: x in vs <==> Some(x) in entries
  {
    if entries == [] then []
    else
      var rest := Present(entries[1..]);
      assert entries == [entries[0]] + entries[1..];
      match entries[0]
      case None => rest
      case Some(x) => [x] + rest
  }

  /** Group `j` is the first one named `key`. */
  ghost predicate FirstNamed(m: SensorMap, key: string, j: int) {
    0 <= j < |m| && m[j].name == key && forall k :: 0 <= k < j ==> m[k].name != key
  }

  /** `sensor_map.get(key, [])`: the entries of the first group with that
      name, or none when no group has it. */
  function Entries(m: SensorMap, key: string): (es: seq<Reading>)
    ensures es != [] ==> exists j :: 0 <= j < |m| && m[j].name == key && m[j].entries == es
  {
    if m == [] then []
    else if m[0].name == key then m[0].entries
    else
      var es := Entries(m[1..], key);
      assert es != [] ==> exists j :: 0 <= j < |m[1..]| && m[1..][j].name == key && m[1..][j].entries == es;
      es
  }

  /** The lookup gives the entries of the first group with the name, and none
      when no group has it. */
  lemma {:induction false} EntriesOfFirstNamed(m: SensorMap, key: string)
    ensures (forall j :: 0 <= j < |m| ==> m[j].name != key) ==> Entries(m, key) == []
    ensures forall j :: FirstNamed(m, key, j) ==> Entries(m, key) == m[j].entries
  {
    if m != [] && m[0].name != key {
      EntriesOfFirstNamed(m[1..], key);
      assert forall j :: FirstNamed(m, key, j) ==> FirstNamed(m[1..], key, j - 1);
      assert (forall j :: 0 <= j < |m| ==> m[j].name != key) ==> forall j :: 0 <= j < |m[1..]| ==> m[1..][j].name != key;
    }
  }

  /** Python's `max` of a non-empty list: an element that no other exceeds. */
  function SeqMax(vs: seq<real>): (r: real)
    requires |vs| > 0
    ensures r in vs
    ensures forall x :: x in vs ==> x <= r
  {
    if |vs| == 1 then vs[0]
    else
      var r' := SeqMax(vs[1..]);
      assert vs == [vs[0]] + vs[1..];
      if vs[0] > r' then vs[0] else r'
  }

  /** A present reading of some group. */
  ghost predicate IsReading(m: SensorMap, x: real) {
    exists j :: 0 <= j < |m| && Some(x) in m[j].entries
  }

  /** The present readings of every group, group after group. */
  function AllPresent(m: SensorMap): (vs: seq<real>)
    ensures forall x :: x in vs <==> IsReading(m, x)
  {
    if m == [] then []
    else
      var init := m[..|m| - 1];
      var vs := AllPresent(init) + Present(m[|m| - 1].entries);
      assert forall x :: IsReading(m, x) <==> IsReading(init, x) || Some(x) in m[|m| - 1].entries by {
        forall x ensures IsReading(m, x) <==> IsReading(init, x) || Some(x) in m[|m| - 1].entries {
          if IsReading(init, x) {
            var j :| 0 <= j < |init| && Some(x) in init[j].entries;
            assert m[j] == init[j];
          }
        }
      }
      vs
  }

  /** No preferred group from position `i` up to `j` has a present reading. */
  ghost predicate NoneReadingBetween(m: SensorMap, i: int, j: int)
    requires 0 <= i && j <= |PreferredKeys|
  {
    forall k :: i <= k < j ==> Present(Entries(m, PreferredKeys[k])) == []
  }

  lemma NoneReadingFrom(m: SensorMap, i: nat, j: nat)
    requires i < j <= |PreferredKeys|
    requires Present(Entries(m, PreferredKeys[i])) == [] && NoneReadingBetween(m, i + 1, j)
    ensures NoneReadingBetween(m, i, j)
  {
    forall k | i <= k < j
      ensures Present(Entries(m, PreferredKeys[k])) == []
    {
      if k != i {
        assert i + 1 <= k < j;
      }
    }
  }

  /** The first preferred group, from position `i` of the priority order on,
      that has a present reading. */
  function FirstPreferred(m: SensorMap, i: nat): (key: Option<string>)
    requires i <= |PreferredKeys|
    ensures key.Some? ==> key.value in PreferredKeys && Present(Entries(m, key.value)) != []
    decreases |PreferredKeys| - i
  {
    if i == |PreferredKeys| then None
    else if Present(Entries(m, PreferredKeys[i])) != [] then Some(PreferredKeys[i])
    else FirstPreferred(m, i + 1)
  }

  /** The choice is the first in priority order: every preferred group before
      the chosen one has no reading, and there is no choice exactly when no
      preferred group has one. */
  lemma {:induction false} FirstPreferredIsFirst(m: SensorMap, i: nat)
    requires i <= |PreferredKeys|
    ensures FirstPreferred(m, i).None? <==> NoneReadingBetween(m, i, |PreferredKeys|)
    ensures FirstPreferred(m, i).Some? ==>
              exists j :: i <= j < |PreferredKeys| && FirstPreferred(m, i).value == PreferredKeys[j] && NoneReadingBetween(m, i, j)
    decreases |PreferredKeys| - i
  {
    if i < |PreferredKeys| {
      if Present(Entries(m, PreferredKeys[i])) != [] {
        assert NoneReadingBetween(m, i, i);
        assert !NoneReadingBetween(m, i, |PreferredKeys|);
      } else {
        FirstPreferredIsFirst(m, i + 1);
        var key := FirstPreferred(m, i + 1);
        assert FirstPreferred(m, i) == key;
        if key.None? {
          NoneReadingFrom(m, i, |PreferredKeys|);
        } else {
          var j :| i + 1 <= j < |PreferredKeys| && key.value == PreferredKeys[j] && NoneReadingBetween(m, i + 1, j);
          NoneReadingFrom(m, i, j);
          assert !NoneReadingBetween(m, i, |PreferredKeys|) by {
            assert Present(Entries(m, PreferredKeys[j])) != [];
          }
        }
      }
    }
  }

  /** Every present reading of the group `sensor_map.get(key, [])` is a
      reading of the dictionary. */
  lemma EntriesAreReadings(m: SensorMap, key: string)
    ensures forall x :: x in Present(Entries(m, key)) ==> IsReading(m, x)
  {
    var es := Entries(m, key);
    if es != [] {
      var j :| 0 <= j < |m| && m[j].name == key && m[j].entries == es;
      forall x | x in Present(es) ensures IsReading(m, x) {
        assert Some(x) in m[j].entries;
      }
    }
  }

  /** The temperature the sampler reports for a sensor dictionary: one is
      reported exactly when some group has a present reading, it is one of the
      readings, and it is the maximum of the first preferred group that has a
      reading, or of all readings when no preferred group has one. */
  function Chosen(m: SensorMap): (r: Option<real>)
    ensures r.Some? <==> exists x :: IsReading(m, x)
    ensures r.Some? ==> IsReading(m, r.value)
    ensures FirstPreferred(m, 0).Some? ==>
              r.Some? && var vs := Present(Entries(m, FirstPreferred(m, 0).value));
              r.value in vs && forall x :: x in vs ==> x <= r.value
    ensures FirstPreferred(m, 0).None? && r.Some? ==> forall x :: IsReading(m, x) ==> x <= r.value
  {
    if m == [] then None
    else match FirstPreferred(m, 0)
      case Some(key) =>
        EntriesAreReadings(m, key);
        Some(SeqMax(Present(Entries(m, key))))
      case None =>
        var all := AllPresent(m);
        if all == [] then None
        else
          assert IsReading(m, all[0]);
          Some(SeqMax(all))
  }

  /** The temperature the sampler reports for whatever the query gives: none
      when the platform has no query or the query fails. */
  function TemperatureOf(source: SensorSource): (r: Option<real>)
    ensures r.Some? <==> source.Groups? && exists x :: IsReading(source.sensors, x)
    ensures r.Some? ==> IsReading(source.sensors, r.value)
  {
    match source
    case Groups(m) => Chosen(m)
    case _ => None
  }

  /** The sampler's reading: try the preferred groups in order and return the
      first one's maximum; otherwise collect every reading and take the maximum. */
  method ReadCpuTemperature(source: SensorSource) returns (r: Option<real>)
    ensures r == TemperatureOf(source)
  {
    if !source.Groups? {
      return None;
    }
    var m := source.sensors;
    if |m| == 0 {
      return None;
    }
    var i := 0;
    while i < |PreferredKeys|
      invariant 0 <= i <= |PreferredKeys|
      invariant FirstPreferred(m, i) == FirstPreferred(m, 0)
    {
      var values := Present(Entries(m, PreferredKeys[i]));
      if values != [] {
        assert FirstPreferred(m, i) == Some(PreferredKeys[i]);
        assert Chosen(m) == Some(SeqMax(values));
        return Some(SeqMax(values));
      }
      assert FirstPreferred(m, i) == FirstPreferred(m, i + 1);
      i := i + 1;
    }
    assert FirstPreferred(m, 0) == None;
    var anyValues: seq<real> := [];
    var k := 0;
    while k < |m|
      invariant 0 <= k <= |m|
      invariant anyValues == AllPresent(m[..k])
    {
      assert m[..k + 1][..k] == m[..k];
      anyValues := anyValues + Present(m[k].entries);
      k := k + 1;
    }
    assert m[..k] == m;
    if anyValues == [] {
      return None;
    }
    return Some(SeqMax(anyValues));
  }

  /** The first preferred group with a present reading decides, whatever the
      other groups hold: the result is that group's maximum. */
  lemma PreferredGroupDecides(m: SensorMap, i: nat)
    requires i < |PreferredKeys|
    requires Present(Entries(m, PreferredKeys[i])) != []
    requires forall j :: 0 <= j < i ==> Present(Entries(m, PreferredKeys[j])) == []
    ensures Chosen(m).Some?
    ensures Chosen(m).value in Present(Entries(m, PreferredKeys[i]))
    ensures forall x :: x in Present(Entries(m, PreferredKeys[i])) ==> x <= Chosen(m).value
  {
    FirstPreferredIsFirst(m, 0);
    assert !NoneReadingBetween(m, 0, |PreferredKeys|);
    var j :| 0 <= j < |PreferredKeys| && FirstPreferred(m, 0).value == PreferredKeys[j] && NoneReadingBetween(m, 0, j);
    assert !(j < i);
    assert !(i < j);
  }

  /** Without a preferred group that has a reading, the result is the largest
      reading of all groups, and absent when there is none. */
  lemma FallbackIsOverallMax(m: SensorMap)
    requires forall j :: 0 <= j < |PreferredKeys| ==> Present(Entries(m, PreferredKeys[j])) == []
    ensures Chosen(m).Some? <==> exists x :: IsReading(m, x)
    ensures Chosen(m).Some? ==> IsReading(m, Chosen(m).value)
    ensures Chosen(m).Some? ==> forall x :: IsReading(m, x) ==> x <= Chosen(m).value
  {
    FirstPreferredIsFirst(m, 0);
  }

  lemma EmptyMapHasNoTemperature()
    ensures Chosen([]) == None
  {
  }

  /** `coretemp` [40, 55] and `acpitz` [70]: the preferred group's 55 wins. */
  lemma CoretempBeatsHotterAcpitz()
    ensures Chosen([SensorGroup("coretemp", [Some(40.0), Some(55.0)]), SensorGroup("acpitz", [Some(70.0)])]) == Some(55.0)
  {
  }
}
