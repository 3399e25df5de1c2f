/**
 * The presence aggregator of btscanner.py: every sighting of a device
 * (address, name, clock reading) is folded into `devices`, a dictionary from
 * address to the device's first name and its list of visits. A sighting at
 * most 60 seconds after the end of the device's last visit extends that
 * visit to the sighting; a later one opens a new visit of zero length.
 *
 * Clock readings are `datetime` values, written here as whole microseconds
 * (the resolution of `datetime`); the difference of two of them is more than
 * 60 seconds exactly when it exceeds `Gap` microseconds.
 */
module PySessions {

  /** The merge gap, 60 seconds, in microseconds. */
  const Gap: int := 60_000_000

  /** One visit: the `(start, end)` pair of clock readings in a `seen` list. */
  datatype Interval = Interval(start: int, end: int)

  /** The dictionary value `{'name': ..., 'seen': [...]}` kept for one address. */
  datatype Record = Record(name: string, seen: seq<Interval>)

  /** One `(address, name)` pair of a discovery result, with the clock reading taken for it. */
  datatype Sighting = Sighting(address: string, name: string, time: int)

  /** Every record holds at least one visit, so `seen[-1]` is defined. */
  ghost predicate AllSeen(devices: map<string, Record>) {
    forall a :: a in devices ==> devices[a].seen != []
  }

  /**
   * The visit list after a sighting at `now` of a device already known:
   * the last visit is extended to `now`, or a new visit `(now, now)` is opened.
   */
  function Visit(seen: seq<Interval>, now: int): (r: seq<Interval>)
    requires seen != []
    ensures r != [] && r[|r| - 1].end == now
    ensures now - seen[|seen| - 1].end > Gap <==> |r| == |seen| + 1
    ensures now - seen[|seen| - 1].end > Gap ==> r == seen + [Interval(now, now)]
    ensures now - seen[|seen| - 1].end <= Gap ==>
      |r| == |seen| &&
      r[..|r| - 1] == seen[..|seen| - 1] &&
      r[|r| - 1] == Interval(seen[|seen| - 1].start, now)
  {
    var last := seen[|seen| - 1];
    if now - last.end > Gap then
      seen + [Interval(now, now)]
    else
      seen[|seen| - 1 := Interval(last.start, now)]
  }

  /** The dictionary after one sighting (the body of the `for` loop over discovery results). */
  function Ingested(devices: map<string, Record>, s: Sighting): (r: map<string, Record>)
    requires AllSeen(devices)
    ensures AllSeen(r)
    ensures r.Keys == devices.Keys + {s.address}
    ensures forall a :: a in devices && a != s.address ==> r[a] == devices[a]
    ensures s.address !in devices ==> r[s.address] == Record(s.name, [Interval(s.time, s.time)])
    ensures s.address in devices ==>
      r[s.address].name == devices[s.address].name &&
      r[s.address].seen == Visit(devices[s.address].seen, s.time)
  {
    if s.address !in devices then
      devices[s.address := Record(s.name, [Interval(s.time, s.time)])]
    else
      var record := devices[s.address];
      devices[s.address := record.(seen := Visit(record.seen, s.time))]
  }

  /** The dictionary after a sequence of sightings, taken in order. */
  function IngestedAll(devices: map<string, Record>, ss: seq<Sighting>): (r: map<string, Record>)
    requires AllSeen(devices)
    ensures AllSeen(r)
    ensures r.Keys == devices.Keys + set s | s in ss :: s.address
    decreases |ss|
  {
    if ss == [] then devices
    else Ingested(IngestedAll(devices, ss[..|ss| - 1]), ss[|ss| - 1])
  }

  /**
   * The dictionary's insertion order after a sequence of sightings: the old
   * order stays in front, and each address not yet in it is added when first
   * seen, so it lists exactly the old addresses and the sighted ones.
   */
  function Enrolled(order: seq<string>, ss: seq<Sighting>): (r: seq<string>)
    ensures |order| <= |r| && r[..|order|] == order
    ensures forall a :: a in r <==> a in order || exists i :: 0 <= i < |ss| && ss[i].address == a
    decreases |ss|
  {
    if ss == [] then order
    else
      var init := ss[..|ss| - 1];
      var x := ss[|ss| - 1];
      var before := Enrolled(order, init);
      assert forall i :: 0 <= i < |init| ==> init[i] == ss[i];
      var r := if x.address in before then before else before + [x.address];
      assert r[..|order|] == before[..|order|];
      r
  }

  /** Is `ss[j]` the first sighting of an address that is not in `order`? */
  ghost predicate IsNewAddress(order: seq<string>, ss: seq<Sighting>, j: int) {
    && 0 <= j < |ss|
    && ss[j].address !in order
    && forall k :: 0 <= k < j ==> ss[k].address != ss[j].address
  }

  /** The addresses of those first sightings, in the order they occur in `ss`. */
  ghost function NewAddresses(order: seq<string>, ss: seq<Sighting>): seq<string>
    decreases |ss|
  {
    if ss == [] then []
    else
      NewAddresses(order, ss[..|ss| - 1]) +
        (if IsNewAddress(order, ss, |ss| - 1) then [ss[|ss| - 1].address] else [])
  }

  /**
   * The insertion order is the old order followed by each new address once,
   * in the order of its first sighting, as a dictionary inserts keys.
   */
  lemma {:induction false} EnrolledIsNewAddresses(order: seq<string>, ss: seq<Sighting>)
    ensures Enrolled(order, ss) == order + NewAddresses(order, ss)
    decreases |ss|
  {
    if ss == [] {
      assert order + [] == order;
    } else {
      var init := ss[..|ss| - 1];
      var x := ss[|ss| - 1];
      EnrolledIsNewAddresses(order, init);
      if IsNewAddress(order, ss, |ss| - 1) {
        forall k | 0 <= k < |init|
          ensures init[k].address != x.address
        {
          assert init[k] == ss[k];
        }
        assert x.address !in Enrolled(order, init);
        assert order + NewAddresses(order, ss) == order + NewAddresses(order, init) + [x.address];
      } else {
        if x.address !in order {
          var k :| 0 <= k < |ss| - 1 && ss[k].address == x.address;
          assert init[k] == ss[k];
        }
        assert x.address in Enrolled(order, init);
        assert order + NewAddresses(order, ss) == order + NewAddresses(order, init);
      }
    }
  }

  /** Sightings of A and then B enrol A before B, and a repeated A adds nothing. */
  lemma ScenarioEnrolmentOrder(a: Sighting, b: Sighting)
    requires a.address != b.address
    ensures Enrolled([], [a, b, a]) == [a.address, b.address]
  {
    EnrolledIsNewAddresses([], [a, b, a]);
    assert [a, b, a][..2] == [a, b] && [a, b][..1] == [a] && [a][..0] == [];
    assert IsNewAddress([], [a], 0);
    assert NewAddresses([], [a]) == [a.address];
    assert IsNewAddress([], [a, b], 1);
    assert NewAddresses([], [a, b]) == [a.address, b.address];
    assert !IsNewAddress([], [a, b, a], 2);
  }

  /** The sightings of all polls one after the other. */
  function Flatten(polls: seq<seq<Sighting>>): seq<Sighting>
    decreases |polls|
  {
    if polls == [] then [] else Flatten(polls[..|polls| - 1]) + polls[|polls| - 1]
  }

  /** Sighting times never decrease along the sequence. */
  ghost predicate NonDecreasing(ss: seq<Sighting>) {
    forall i, j :: 0 <= i < j < |ss| ==> ss[i].time <= ss[j].time
  }

  /**
   * The invariant of a visit list built from chronological sightings: it is
   * non-empty, every visit starts no later than it ends, and each visit starts
   * more than the gap after the previous one ended.
   */
  ghost predicate Chronological(seen: seq<Interval>)
    decreases |seen|
  {
    && seen != []
    && seen[|seen| - 1].start <= seen[|seen| - 1].end
    && (|seen| > 1 ==>
          && seen[|seen| - 1].start - seen[|seen| - 2].end > Gap
          && Chronological(seen[..|seen| - 1]))
  }

  /** Every record is chronological and no visit ends after `t`. */
  ghost predicate Settled(devices: map<string, Record>, t: int) {
    forall a :: a in devices ==>
      Chronological(devices[a].seen) && devices[a].seen[|devices[a].seen| - 1].end <= t
  }

  /** Every prefix of a chronological list is chronological. */
  lemma {:induction false} ChronologicalPrefix(seen: seq<Interval>, k: nat)
    requires Chronological(seen)
    requires 0 < k <= |seen|
    ensures Chronological(seen[..k])
    decreases |seen|
  {
    if k < |seen| {
      ChronologicalPrefix(seen[..|seen| - 1], k);
      assert seen[..|seen| - 1][..k] == seen[..k];
    } else {
      assert seen[..k] == seen;
    }
  }

  /** In a chronological list every visit starts no later than it ends. */
  lemma ChronologicalOrdered(seen: seq<Interval>, i: nat)
    requires Chronological(seen)
    requires i < |seen|
    ensures seen[i].start <= seen[i].end
  {
    ChronologicalPrefix(seen, i + 1);
  }

  /** In a chronological list each visit starts more than the gap after the previous one ended. */
  lemma ChronologicalStep(seen: seq<Interval>, i: nat)
    requires Chronological(seen)
    requires i + 1 < |seen|
    ensures seen[i + 1].start - seen[i].end > Gap
  {
    ChronologicalPrefix(seen, i + 2);
  }

  /** In a chronological list every visit ends more than the gap before any later visit starts. */
  lemma {:induction false} ChronologicalSeparated(seen: seq<Interval>, i: nat, j: nat)
    requires Chronological(seen)
    requires i < j < |seen|
    ensures seen[j].start - seen[i].end > Gap
    ensures seen[i].start < seen[j].start && seen[i].end < seen[j].end
    decreases j - i
  {
    ChronologicalStep(seen, i);
    ChronologicalOrdered(seen, i);
    ChronologicalOrdered(seen, j);
    if j > i + 1 {
      ChronologicalSeparated(seen, i + 1, j);
      ChronologicalOrdered(seen, i + 1);
    }
  }

  /** No visit of a chronological list ends after the last one. */
  lemma LastEndIsLatest(seen: seq<Interval>, i: nat)
    requires Chronological(seen) && i < |seen|
    ensures seen[i].end <= seen[|seen| - 1].end
  {
    if i < |seen| - 1 {
      ChronologicalSeparated(seen, i, |seen| - 1);
    }
  }

  /** A visit that starts more than the gap after the last one ended can follow it. */
  lemma ChronologicalSnoc(seen: seq<Interval>, x: Interval)
    requires Chronological(seen)
    requires x.start <= x.end && x.start - seen[|seen| - 1].end > Gap
    ensures Chronological(seen + [x])
  {
    assert (seen + [x])[..|seen|] == seen;
  }

  /** The last visit of a chronological list can be extended to any later time. */
  lemma ChronologicalExtendLast(seen: seq<Interval>, now: int)
    requires Chronological(seen)
    requires now >= seen[|seen| - 1].end
    ensures Chronological(seen[|seen| - 1 := Interval(seen[|seen| - 1].start, now)])
  {
    var r := seen[|seen| - 1 := Interval(seen[|seen| - 1].start, now)];
    if |seen| > 1 {
      assert r[..|r| - 1] == seen[..|seen| - 1];
      assert r[|r| - 2] == seen[|seen| - 2];
    }
  }

  /** A sighting no earlier than the end of the last visit keeps a visit list chronological. */
  lemma VisitChronological(seen: seq<Interval>, now: int)
    requires Chronological(seen)
    requires now >= seen[|seen| - 1].end
    ensures Chronological(Visit(seen, now))
  {
    if now - seen[|seen| - 1].end > Gap {
      ChronologicalSnoc(seen, Interval(now, now));
    } else {
      ChronologicalExtendLast(seen, now);
    }
  }

  /** A first visit `(now, now)` is a chronological list on its own. */
  lemma FirstVisitChronological(now: int)
    ensures Chronological([Interval(now, now)])
  {
  }

  /** One chronological sighting keeps the whole dictionary settled, up to its time. */
  lemma IngestedSettled(devices: map<string, Record>, t: int, s: Sighting)
    requires AllSeen(devices)
    requires Settled(devices, t) && t <= s.time
    ensures Settled(Ingested(devices, s), s.time)
  {
    var r := Ingested(devices, s);
    forall a | a in r
      ensures Chronological(r[a].seen) && r[a].seen[|r[a].seen| - 1].end <= s.time
    {
      if a != s.address {
        assert r[a] == devices[a];
      } else if a in devices {
        VisitChronological(devices[a].seen, s.time);
      } else {
        FirstVisitChronological(s.time);
      }
    }
  }

  /**
   * The ordering invariant: sightings that arrive with non-decreasing times,
   * none earlier than the end of any visit already recorded, leave every
   * visit list chronological.
   */
  lemma {:induction false} IngestedAllSettled(devices: map<string, Record>, t: int, ss: seq<Sighting>)
    requires AllSeen(devices)
    requires Settled(devices, t)
    requires NonDecreasing(ss)
    requires ss != [] ==> t <= ss[0].time
    ensures Settled(IngestedAll(devices, ss), if ss == [] then t else ss[|ss| - 1].time)
    decreases |ss|
  {
    if ss != [] {
      var init := ss[..|ss| - 1];
      IngestedAllSettled(devices, t, init);
      IngestedSettled(IngestedAll(devices, init), if init == [] then t else init[|init| - 1].time, ss[|ss| - 1]);
    }
  }

  /** A whole run from an empty dictionary over chronological sightings. */
  lemma RunChronological(ss: seq<Sighting>)
    requires NonDecreasing(ss)
    ensures forall a :: a in IngestedAll(map[], ss) ==> Chronological(IngestedAll(map[], ss)[a].seen)
  {
    IngestedAllSettled(map[], if ss == [] then 0 else ss[0].time, ss);
  }

  /** Folding two sequences one after the other is folding their concatenation. */
  lemma {:induction false} IngestedAllAppend(devices: map<string, Record>, xs: seq<Sighting>, ys: seq<Sighting>)
    requires AllSeen(devices)
    ensures IngestedAll(devices, xs + ys) == IngestedAll(IngestedAll(devices, xs), ys)
    ensures Enrolled([], xs + ys) == Enrolled(Enrolled([], xs), ys)
    decreases |ys|
  {
    if ys == [] {
      assert xs + ys == xs;
    } else {
      assert (xs + ys)[..|xs + ys| - 1] == xs + ys[..|ys| - 1];
      IngestedAllAppend(devices, xs, ys[..|ys| - 1]);
    }
  }

  /** Merge rule for two consecutive sightings of one device at `t1` and then `t2`. */
  lemma ConsecutiveSightings(devices: map<string, Record>, a: string, n1: string, n2: string, t1: int, t2: int)
    requires AllSeen(devices)
    ensures var d1 := Ingested(devices, Sighting(a, n1, t1));
            var d2 := Ingested(d1, Sighting(a, n2, t2));
            && d2[a].seen[|d2[a].seen| - 1].end == t2
            && (t2 - t1 <= Gap ==> |d2[a].seen| == |d1[a].seen|
                                   && d2[a].seen[|d2[a].seen| - 1].start == d1[a].seen[|d1[a].seen| - 1].start)
            && (t2 - t1 > Gap ==> d2[a].seen == d1[a].seen + [Interval(t2, t2)])
  {
  }

  /** A sighting at exactly the end of the last visit leaves the record as it was. */
  lemma RepeatedSighting(devices: map<string, Record>, a: string, name: string)
    requires AllSeen(devices)
    requires a in devices
    ensures var seen := devices[a].seen;
            Ingested(devices, Sighting(a, name, seen[|seen| - 1].end)) == devices
  {
    var seen := devices[a].seen;
    var r := Ingested(devices, Sighting(a, name, seen[|seen| - 1].end));
    assert r[a].seen == seen;
    assert r[a] == devices[a];
  }

  /** The name stored for an address is the name of its first sighting, whatever later sightings say. */
  lemma {:induction false} FirstNameKept(devices: map<string, Record>, ss: seq<Sighting>, a: string)
    requires AllSeen(devices)
    requires a in devices
    ensures IngestedAll(devices, ss)[a].name == devices[a].name
    decreases |ss|
  {
    if ss != [] {
      FirstNameKept(devices, ss[..|ss| - 1], a);
    }
  }

  /**
   * The code stores `now` as the new end without comparing it with the old
   * one, so a sighting earlier than the start of the last visit turns that
   * visit into one that ends before it starts.
   */
  lemma ClockBackwardsInvertsVisit(seen: seq<Interval>, now: int)
    requires seen != [] && seen[|seen| - 1].start <= seen[|seen| - 1].end
    requires now < seen[|seen| - 1].start
    ensures var r := Visit(seen, now);
            && |r| == |seen|
            && r[|r| - 1] == Interval(seen[|seen| - 1].start, now)
            && r[|r| - 1].end < r[|r| - 1].start
  {
  }

  /** Scenario: sightings at 0 s, 30 s and 90 s form one visit from 0 s to 90 s. */
  lemma ScenarioOneVisit()
    ensures IngestedAll(map[], [Sighting("AA:BB", "phone", 0), Sighting("AA:BB", "phone", 30_000_000),
                                Sighting("AA:BB", "phone", 90_000_000)])
            == map["AA:BB" := Record("phone", [Interval(0, 90_000_000)])]
  {
    var ss := [Sighting("AA:BB", "phone", 0), Sighting("AA:BB", "phone", 30_000_000),
               Sighting("AA:BB", "phone", 90_000_000)];
    assert ss[..1] == [ss[0]] && ss[..1][..0] == [];
    assert ss[..2][..1] == ss[..1] && ss[..2][1] == ss[1] && ss[..|ss| - 1] == ss[..2];
    var d1 := IngestedAll(map[], ss[..1]);
    assert d1 == map["AA:BB" := Record("phone", [Interval(0, 0)])];
    assert Visit([Interval(0, 0)], 30_000_000) == [Interval(0, 30_000_000)];
    var d2 := IngestedAll(map[], ss[..2]);
    assert d2 == map["AA:BB" := Record("phone", [Interval(0, 30_000_000)])];
    assert Visit([Interval(0, 30_000_000)], 90_000_000) == [Interval(0, 90_000_000)];
  }

  /** Scenario: sightings at 0 s and 70 s form two visits. */
  lemma ScenarioTwoVisits()
    ensures IngestedAll(map[], [Sighting("AA:BB", "phone", 0), Sighting("AA:BB", "phone", 70_000_000)])
            == map["AA:BB" := Record("phone", [Interval(0, 0), Interval(70_000_000, 70_000_000)])]
  {
    var ss := [Sighting("AA:BB", "phone", 0), Sighting("AA:BB", "phone", 70_000_000)];
    assert ss[..1] == [ss[0]] && ss[..1][..0] == [] && ss[..|ss| - 1] == ss[..1];
    var d1 := IngestedAll(map[], ss[..1]);
    assert d1 == map["AA:BB" := Record("phone", [Interval(0, 0)])];
    assert Visit([Interval(0, 0)], 70_000_000) == [Interval(0, 0), Interval(70_000_000, 70_000_000)];
  }

  /** `order` lists the dictionary's keys in insertion order, each once. */
  ghost predicate Registry(order: seq<string>, devices: map<string, Record>) {
    && (forall i, j :: 0 <= i < j < |order| ==> order[i] != order[j])
    && (forall a :: a in order <==> a in devices)
  }

  /** The `devices` dictionary of one run, filled by the discovery loop. */
  class Aggregator {
    var devices: map<string, Record>
    /** The keys of `devices` in insertion order, the order the report lists them in. */
    var order: seq<string>

    ghost predicate Valid()
      reads this
    {
      AllSeen(devices) && Registry(order, devices)
    }

    /** `devices = {}` */
    constructor ()
      ensures Valid()
      ensures devices == map[] && order == []
    {
      devices := map[];
      order := [];
    }

    /** Folds one sighting into `devices`. */
    method Ingest(address: string, name: string, now: int)
      requires Valid()
      modifies this
      ensures Valid()
      ensures devices == Ingested(old(devices), Sighting(address, name, now))
      ensures order == Enrolled(old(order), [Sighting(address, name, now)])
    {
      assert [Sighting(address, name, now)][..0] == [];
      if address !in devices {
        devices := devices[address := Record(name, [Interval(now, now)])];
        order := order + [address];
      } else {
        var seen := devices[address].seen;
        var lastSeen := seen[|seen| - 1].end;
        if now - lastSeen > Gap {
          seen := seen + [Interval(now, now)];
        } else {
          seen := seen[|seen| - 1 := Interval(seen[|seen| - 1].start, now)];
        }
        devices := devices[address := devices[address].(seen := seen)];
      }
    }

    /** Folds the results of one discovery poll into `devices`, in the order they were returned. */
    method Poll(batch: seq<Sighting>)
      requires Valid()
      modifies this
      ensures Valid()
      ensures devices == IngestedAll(old(devices), batch)
      ensures order == Enrolled(old(order), batch)
    {
      for i := 0 to |batch|
        invariant Valid()
        invariant devices == IngestedAll(old(devices), batch[..i])
        invariant order == Enrolled(old(order), batch[..i])
      {
        var s := batch[i];
        assert batch[..i + 1][..i] == batch[..i] && batch[..i + 1][i] == s;
        ghost var before := order;
        Ingest(s.address, s.name, s.time);
        assert [s][..0] == [];
        assert order == (if s.address in before then before else before + [s.address]);
      }
      assert batch[..|batch|] == batch;
    }
  }

  /**
   * The whole scan: one poll after another from an empty dictionary. When the
   * sightings come with non-decreasing times, every visit list is chronological.
   */
  method Scan(polls: seq<seq<Sighting>>) returns (agg: Aggregator)
    ensures fresh(agg) && agg.Valid()
    ensures agg.devices == IngestedAll(map[], Flatten(polls))
    ensures agg.order == Enrolled([], Flatten(polls))
    ensures NonDecreasing(Flatten(polls)) ==>
      forall a :: a in agg.devices ==> Chronological(agg.devices[a].seen)
  {
    agg := new Aggregator();
    for i := 0 to |polls|
      invariant agg.Valid()
      invariant agg.devices == IngestedAll(map[], Flatten(polls[..i]))
      invariant agg.order == Enrolled([], Flatten(polls[..i]))
    {
      assert polls[..i + 1][..i] == polls[..i];
      IngestedAllAppend(map[], Flatten(polls[..i]), polls[i]);
      agg.Poll(polls[i]);
    }
    assert polls[..|polls|] == polls;
    if NonDecreasing(Flatten(polls)) {
      RunChronological(Flatten(polls));
    }
  }
}
