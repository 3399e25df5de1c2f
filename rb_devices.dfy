/**
 * The `devices` array of roby_btscanner.rb: each matched `hcitool` line is
 * appended as `{address, name, timestamp}` unless an entry with the same
 * address is already there, so the array holds every device once, in the
 * order it was first seen, with its first name and time.
 */
module RbDevices {
  import opened Wrappers
  import opened RbLines

  /** One entry `{ address:, name:, timestamp: }`; the timestamp is a clock reading given by the caller. */
  datatype Device = Device(address: string, name: string, timestamp: int)

  /** `devices.any? { |d| d[:address] == address }` */
  predicate HasAddress(devices: seq<Device>, address: string) {
    exists i :: 0 <= i < |devices| && devices[i].address == address
  }

  /** No two entries share an address. */
  predicate Distinct(devices: seq<Device>) {
    forall i, j :: 0 <= i < j < |devices| ==> devices[i].address != devices[j].address
  }

  /** `devices << d unless devices.any? { ... }` */
  function Appended(devices: seq<Device>, d: Device): (r: seq<Device>)
    ensures HasAddress(r, d.address)
    ensures |devices| <= |r| <= |devices| + 1 && r[..|devices|] == devices
    ensures Distinct(devices) ==> Distinct(r)
  {
    if HasAddress(devices, d.address) then devices
    else
      var r := devices + [d];
      assert r[|devices|] == d && r[..|devices|] == devices;
      r
  }

  /**
   * The array after a sequence of candidate entries, taken in order: the old
   * entries stay in front as they were, and at most one entry is added per
   * candidate.
   */
  function AppendedAll(devices: seq<Device>, ds: seq<Device>): (r: seq<Device>)
    ensures |devices| <= |r| <= |devices| + |ds| && r[..|devices|] == devices
    decreases |ds|
  {
    if ds == [] then devices else Appended(AppendedAll(devices, ds[..|ds| - 1]), ds[|ds| - 1])
  }

  /** Is `ds[j]` the first candidate with its address, and its address not yet in `devices`? */
  ghost predicate IsFirstSighting(devices: seq<Device>, ds: seq<Device>, j: int)
    requires 0 <= j < |ds|
  {
    !HasAddress(devices, ds[j].address) && forall k :: 0 <= k < j ==> ds[k].address != ds[j].address
  }

  /** After the fold, every candidate's address is in the array. */
  lemma {:induction false} AppendedAllCovers(devices: seq<Device>, ds: seq<Device>, j: nat)
    requires j < |ds|
    ensures HasAddress(AppendedAll(devices, ds), ds[j].address)
    decreases |ds|
  {
    var init := ds[..|ds| - 1];
    var before := AppendedAll(devices, init);
    var r := AppendedAll(devices, ds);
    if j < |ds| - 1 {
      AppendedAllCovers(devices, init, j);
      assert ds[j] == init[j];
      var i :| 0 <= i < |before| && before[i].address == ds[j].address;
      assert r[i] == before[i];
    } else if !HasAddress(before, ds[j].address) {
      assert r[|r| - 1] == ds[j];
    }
  }

  /** Appending only unseen addresses keeps addresses pairwise distinct. */
  lemma {:induction false} AppendedAllDistinct(devices: seq<Device>, ds: seq<Device>)
    requires Distinct(devices)
    ensures Distinct(AppendedAll(devices, ds))
    decreases |ds|
  {
    if ds != [] {
      AppendedAllDistinct(devices, ds[..|ds| - 1]);
    }
  }

  /** Every entry the fold adds is the first candidate with an address not there before. */
  lemma {:induction false} AppendedAllNewAreFirst(devices: seq<Device>, ds: seq<Device>, i: nat)
    requires |devices| <= i < |AppendedAll(devices, ds)|
    ensures exists j :: 0 <= j < |ds| && AppendedAll(devices, ds)[i] == ds[j] && IsFirstSighting(devices, ds, j)
    decreases |ds|
  {
    var init := ds[..|ds| - 1];
    var x := ds[|ds| - 1];
    var before := AppendedAll(devices, init);
    var r := AppendedAll(devices, ds);
    if i < |before| {
      AppendedAllNewAreFirst(devices, init, i);
      var j :| 0 <= j < |init| && before[i] == init[j] && IsFirstSighting(devices, init, j);
      assert r[i] == ds[j] && IsFirstSighting(devices, ds, j);
    } else {
      assert !HasAddress(before, x.address) && r[i] == x;
      forall k | 0 <= k < |ds| - 1
        ensures ds[k].address != x.address
      {
        assert ds[k] == init[k];
        AppendedAllCovers(devices, init, k);
      }
      assert IsFirstSighting(devices, ds, |ds| - 1);
    }
  }

  /** The first sightings among `ds` of addresses not in `devices`, in the order they occur in `ds`. */
  ghost function FirstSightings(devices: seq<Device>, ds: seq<Device>): seq<Device>
    decreases |ds|
  {
    if ds == [] then []
    else
      FirstSightings(devices, ds[..|ds| - 1]) +
        (if IsFirstSighting(devices, ds, |ds| - 1) then [ds[|ds| - 1]] else [])
  }

  /** An address is in the array after the fold exactly when it was there before or is a candidate's. */
  lemma AppendedAllHasAddress(devices: seq<Device>, ds: seq<Device>, address: string)
    ensures HasAddress(AppendedAll(devices, ds), address) <==>
      HasAddress(devices, address) || exists j :: 0 <= j < |ds| && ds[j].address == address
  {
    var r := AppendedAll(devices, ds);
    if HasAddress(r, address) {
      var i :| 0 <= i < |r| && r[i].address == address;
      if i < |devices| {
        assert devices[i] == r[i];
      } else {
        AppendedAllNewAreFirst(devices, ds, i);
      }
    }
    if HasAddress(devices, address) {
      var i :| 0 <= i < |devices| && devices[i].address == address;
      assert r[i] == devices[i];
    }
    if exists j :: 0 <= j < |ds| && ds[j].address == address {
      var j :| 0 <= j < |ds| && ds[j].address == address;
      AppendedAllCovers(devices, ds, j);
    }
  }

  /**
   * The fold is the old array followed by the first sightings of new
   * addresses, in the order they were first seen.
   */
  lemma {:induction false} AppendedAllIsFirstSightings(devices: seq<Device>, ds: seq<Device>)
    ensures AppendedAll(devices, ds) == devices + FirstSightings(devices, ds)
    decreases |ds|
  {
    if ds == [] {
      assert devices + [] == devices;
    } else {
      var init := ds[..|ds| - 1];
      var x := ds[|ds| - 1];
      AppendedAllIsFirstSightings(devices, init);
      AppendedAllHasAddress(devices, init, x.address);
      if IsFirstSighting(devices, ds, |ds| - 1) {
        forall j | 0 <= j < |init|
          ensures init[j].address != x.address
        {
          assert init[j] == ds[j];
        }
        assert devices + FirstSightings(devices, ds) == devices + FirstSightings(devices, init) + [x];
      } else {
        if HasAddress(devices, x.address) {
        } else {
          var k :| 0 <= k < |ds| - 1 && ds[k].address == x.address;
          assert init[k] == ds[k];
        }
        assert devices + FirstSightings(devices, ds) == devices + FirstSightings(devices, init);
      }
    }
  }

  /**
   * First sighting wins: the old entries stay in front as they were, every
   * candidate's address ends up in the array, every new entry is the first
   * candidate with a new address, addresses stay pairwise distinct, and the
   * new entries are all the first sightings, in the order they were seen.
   */
  lemma AppendedAllFirstWins(devices: seq<Device>, ds: seq<Device>)
    ensures var r := AppendedAll(devices, ds);
            && |devices| <= |r|
            && r[..|devices|] == devices
            && (forall j :: 0 <= j < |ds| ==> HasAddress(r, ds[j].address))
            && (forall i :: |devices| <= i < |r| ==>
                  exists j :: 0 <= j < |ds| && r[i] == ds[j] && IsFirstSighting(devices, ds, j))
            && (Distinct(devices) ==> Distinct(r))
            && r == devices + FirstSightings(devices, ds)
  {
    AppendedAllIsFirstSightings(devices, ds);
    if Distinct(devices) {
      AppendedAllDistinct(devices, ds);
    }
    forall j | 0 <= j < |ds| {
      AppendedAllCovers(devices, ds, j);
    }
    forall i | |devices| <= i < |AppendedAll(devices, ds)| {
      AppendedAllNewAreFirst(devices, ds, i);
    }
  }

  /** Folding two sequences of candidates one after the other is folding their concatenation. */
  lemma {:induction false} AppendedAllAppend(devices: seq<Device>, xs: seq<Device>, ys: seq<Device>)
    ensures AppendedAll(devices, xs + ys) == AppendedAll(AppendedAll(devices, xs), ys)
    decreases |ys|
  {
    if ys == [] {
      assert xs + ys == xs;
    } else {
      assert (xs + ys)[..|xs + ys| - 1] == xs + ys[..|ys| - 1];
      AppendedAllAppend(devices, xs, ys[..|ys| - 1]);
    }
  }

  /** The candidate entries of one `hcitool` output: its matching lines, each with its clock reading. */
  function Candidates(lines: seq<string>, stamps: seq<int>): (r: seq<Device>)
    requires |stamps| == |lines|
    requires forall i :: 0 <= i < |lines| ==> IsLine(lines[i])
    ensures |r| <= |lines|
    decreases |lines|
  {
    if lines == [] then []
    else
      var n := |lines| - 1;
      var before := Candidates(lines[..n], stamps[..n]);
      match MatchLine(lines[n])
      case Some(found) => before + [Device(found.address, found.name, stamps[n])]
      case None => before
  }

  /** Folding the candidates of one more line: its entry, if it matches, is appended to the array so far. */
  lemma AppendedCandidatesStep(devices: seq<Device>, lines: seq<string>, stamps: seq<int>, i: nat)
    requires |stamps| == |lines| && i < |lines|
    requires forall k :: 0 <= k < |lines| ==> IsLine(lines[k])
    ensures AppendedAll(devices, Candidates(lines[..i + 1], stamps[..i + 1])) ==
      match MatchLine(lines[i])
      case Some(found) => Appended(AppendedAll(devices, Candidates(lines[..i], stamps[..i])),
                                   Device(found.address, found.name, stamps[i]))
      case None => AppendedAll(devices, Candidates(lines[..i], stamps[..i]))
  {
    assert lines[..i + 1][..i] == lines[..i] && stamps[..i + 1][..i] == stamps[..i];
    var before := Candidates(lines[..i], stamps[..i]);
    match MatchLine(lines[i])
    case Some(found) =>
      var d := Device(found.address, found.name, stamps[i]);
      assert Candidates(lines[..i + 1], stamps[..i + 1]) == before + [d];
      assert (before + [d])[..|before|] == before;
    case None =>
  }

  /** One `hcitool scan` output with a clock reading for each of its lines. */
  datatype Scan = Scan(output: string, stamps: seq<int>)

  /** A reading for every line of the output. */
  predicate Stamped(scan: Scan) {
    |scan.stamps| == |Lines(scan.output)|
  }

  /** The candidate entries of several outputs, one output after the other. */
  function AllCandidates(scans: seq<Scan>): seq<Device>
    requires forall i :: 0 <= i < |scans| ==> Stamped(scans[i])
    decreases |scans|
  {
    if scans == [] then []
    else
      var last := scans[|scans| - 1];
      assert Stamped(last);
      AllCandidates(scans[..|scans| - 1]) + Candidates(Lines(last.output), last.stamps)
  }

  /** The `devices` array of one run. */
  class DeviceList {
    var devices: seq<Device>

    ghost predicate Valid()
      reads this
    {
      Distinct(devices)
    }

    /** `devices = []` */
    constructor ()
      ensures Valid() && devices == []
    {
      devices := [];
    }

    /** The `any?` scan: is there an entry with this address? */
    method Contains(address: string) returns (found: bool)
      ensures found <==> HasAddress(devices, address)
    {
      found := false;
      var i := 0;
      while i < |devices| && !found
        invariant 0 <= i <= |devices|
        invariant found <==> exists k :: 0 <= k < i && devices[k].address == address
      {
        found := devices[i].address == address;
        i := i + 1;
      }
    }

    /** `devices << {...} unless devices.any? { ... }` for one matched line. */
    method Record(address: string, name: string, now: int)
      requires Valid()
      modifies this
      ensures Valid()
      ensures devices == Appended(old(devices), Device(address, name, now))
    {
      var known := Contains(address);
      if !known {
        devices := devices + [Device(address, name, now)];
      }
    }

    /** The `each` over the lines of one `hcitool` output. */
    method ScanOutput(output: string, stamps: seq<int>)
      requires Valid()
      requires |stamps| == |Lines(output)|
      modifies this
      ensures Valid()
      ensures devices == AppendedAll(old(devices), Candidates(Lines(output), stamps))
    {
      var lines := Lines(output);
      for i := 0 to |lines|
        invariant Valid()
        invariant devices == AppendedAll(old(devices), Candidates(lines[..i], stamps[..i]))
      {
        AppendedCandidatesStep(old(devices), lines, stamps, i);
        var m := MatchLine(lines[i]);
        if m.Some? {
          Record(m.value.address, m.value.name, stamps[i]);
        }
      }
      assert lines[..|lines|] == lines && stamps[..|stamps|] == stamps;
    }
  }

  /**
   * The polling loop over a sequence of outputs, from an empty array: the
   * result holds each address once, in first-sighting order, with the name
   * and time of its first sighting.
   */
  method Collect(scans: seq<Scan>) returns (list: DeviceList)
    requires forall i :: 0 <= i < |scans| ==> Stamped(scans[i])
    ensures fresh(list) && list.Valid()
    ensures list.devices == AppendedAll([], AllCandidates(scans))
  {
    list := new DeviceList();
    for i := 0 to |scans|
      invariant list.Valid()
      invariant list.devices == AppendedAll([], AllCandidates(scans[..i]))
    {
      assert scans[..i + 1][..i] == scans[..i];
      AppendedAllAppend([], AllCandidates(scans[..i]), Candidates(Lines(scans[i].output), scans[i].stamps));
      list.ScanOutput(scans[i].output, scans[i].stamps);
    }
    assert scans[..|scans|] == scans;
  }
}
