/** Block devices: validation (validation.go) and compilation into launch mappings (core_util.go). */
module BlockDevices {
  import opened Wrappers

  const ROOT := "/root"
  const VALID_VOLUME_TYPES := ["gp2", "gp3", "io1", "st1", "sc1", "standard"]
  const IO1 := "io1"

  datatype Ebs = Ebs(deleteOnTermination: Option<bool>, encrypted: bool, iops: int32, throughput: Option<int32>,
                     snapshotID: Option<string>, volumeSize: int32, volumeType: string)
  datatype BlockDevice = BlockDevice(deviceName: string, ebs: Ebs)

  datatype EbsMapping = EbsMapping(deleteOnTermination: bool, encrypted: bool, iops: Option<int32>,
                                   throughput: Option<int32>, snapshotID: Option<string>,
                                   volumeSize: int32, volumeType: string)
  datatype Mapping = Mapping(deviceName: string, ebs: EbsMapping)

  datatype DeviceError =
    | InvalidName(index: nat)
    | InvalidType(index: nat)
    | InvalidSize(index: nat)
    | InvalidIops(index: nat)
    | InvalidThroughput(index: nat)
    | RootCount
    | DuplicatedName(name: string, times: int)

  predicate IsLower(c: char) {
    'a' <= c <= 'z'
  }

  /** ^/dev/(sd[a-z]|xvd[a-c][a-z]?)$ */
  predicate IsDataName(s: string) {
    && "/dev/" <= s
    && var rest := s[5..];
       || (|rest| == 3 && rest[..2] == "sd" && IsLower(rest[2]))
       || (4 <= |rest| <= 5 && rest[..3] == "xvd" && 'a' <= rest[3] <= 'c' && (|rest| == 5 ==> IsLower(rest[4])))
  }

  function Names(devices: seq<BlockDevice>): (names: seq<string>)
    ensures |names| == |devices| && forall i :: 0 <= i < |names| ==> names[i] == devices[i].deviceName
  {
    seq(|devices|, i requires 0 <= i < |devices| => devices[i].deviceName)
  }

  predicate BadName(devices: seq<BlockDevice>, i: nat)
    requires i < |devices|
  {
    devices[i].deviceName != ROOT && |devices| > 1 && !IsDataName(devices[i].deviceName)
  }

  predicate BadType(d: BlockDevice) {
    d.ebs.volumeType !in VALID_VOLUME_TYPES
  }

  predicate BadSize(d: BlockDevice) {
    d.ebs.volumeSize <= 0
  }

  predicate BadIops(d: BlockDevice) {
    d.ebs.iops < 0 || (d.ebs.volumeType == IO1 && d.ebs.iops == 0)
  }

  predicate BadThroughput(d: BlockDevice) {
    d.ebs.throughput.Some? && d.ebs.throughput.value <= 0
  }

  /** The accepted lists: sound volumes, distinct names and, when there are several, one root among data names. */
  ghost predicate Acceptable(devices: seq<BlockDevice>) {
    && (forall d :: d in devices ==> !BadType(d) && !BadSize(d) && !BadIops(d) && !BadThroughput(d))
    && NoDuplicates(Names(devices))
    && (|devices| > 1 ==>
          && ROOT in Names(devices)
          && forall i :: 0 <= i < |devices| && devices[i].deviceName != ROOT ==> IsDataName(devices[i].deviceName))
  }

  /** The errors of the loop over the disks, by disk. */
  ghost predicate DiskError(devices: seq<BlockDevice>, n: nat, e: DeviceError)
    requires n <= |devices|
  {
    match e
    case InvalidName(i) => i < n && BadName(devices, i)
    case InvalidType(i) => i < n && BadType(devices[i])
    case InvalidSize(i) => i < n && BadSize(devices[i])
    case InvalidIops(i) => i < n && BadIops(devices[i])
    case InvalidThroughput(i) => i < n && BadThroughput(devices[i])
    case _ => false
  }

  /** Every error the validation reports, given how often each name occurs, and when. */
  ghost predicate Reports(devices: seq<BlockDevice>, occurrences: multiset<string>, e: DeviceError) {
    match e
    case RootCount => occurrences[ROOT] > 1 || (occurrences[ROOT] == 0 && |devices| > 1)
    case DuplicatedName(name, times) => times == occurrences[name] && times > 1
    case _ => DiskError(devices, |devices|, e)
  }

  /** The counting map agrees with the multiset of the names seen so far. */
  ghost predicate Counts(counts: map<string, int>, occurrences: multiset<string>) {
    forall name :: (name in counts <==> name in occurrences) && (name in counts ==> counts[name] == occurrences[name])
  }

  /** The errors one disk adds, in the order they are appended. */
  function ErrorsOfDisk(devices: seq<BlockDevice>, i: nat): seq<DeviceError>
    requires i < |devices|
  {
    (if BadName(devices, i) then [InvalidName(i)] else []) +
    (if BadType(devices[i]) then [InvalidType(i)] else []) +
    ErrorsOfVolume(devices[i], i)
  }

  function ErrorsOfVolume(disk: BlockDevice, i: nat): seq<DeviceError> {
    (if BadSize(disk) then [InvalidSize(i)] else []) +
    (if BadIops(disk) then [InvalidIops(i)] else []) +
    (if BadThroughput(disk) then [InvalidThroughput(i)] else [])
  }

  function ErrorsOfDisks(devices: seq<BlockDevice>, n: nat): seq<DeviceError>
    requires n <= |devices|
  {
    if n == 0 then [] else ErrorsOfDisks(devices, n - 1) + ErrorsOfDisk(devices, n - 1)
  }

  lemma {:induction false} ErrorsOfDisksContents(devices: seq<BlockDevice>, n: nat)
    requires n <= |devices|
    ensures forall e :: e in ErrorsOfDisks(devices, n) <==> DiskError(devices, n, e)
  {
    if n > 0 {
      ErrorsOfDisksContents(devices, n - 1);
      forall e
        ensures e in ErrorsOfDisk(devices, n - 1) <==> DiskError(devices, n, e) && !DiskError(devices, n - 1, e)
      {
      }
    }
  }

  /** The checks on one disk inside the validation loop. */
  method CheckDisk(devices: seq<BlockDevice>, i: nat) returns (errs: seq<DeviceError>)
    requires i < |devices|
    ensures errs == ErrorsOfDisk(devices, i)
  {
    var disk := devices[i];
    errs := [];
    if disk.deviceName != ROOT && |devices| > 1 && !IsDataName(disk.deviceName) {
      errs := [InvalidName(i)];
    }
    if disk.ebs.volumeType !in VALID_VOLUME_TYPES {
      errs := errs + [InvalidType(i)];
    }
    var ofVolume := CheckVolume(disk, i);
    errs := errs + ofVolume;
  }

  method CheckVolume(disk: BlockDevice, i: nat) returns (errs: seq<DeviceError>)
    ensures errs == ErrorsOfVolume(disk, i)
  {
    errs := [];
    if disk.ebs.volumeSize <= 0 {
      errs := [InvalidSize(i)];
    }
    if disk.ebs.iops < 0 || (disk.ebs.volumeType == IO1 && disk.ebs.iops == 0) {
      errs := errs + [InvalidIops(i)];
    }
    if disk.ebs.throughput.Some? && disk.ebs.throughput.value <= 0 {
      errs := errs + [InvalidThroughput(i)];
    }
  }

  lemma NextOccurrence(names: seq<string>, i: nat)
    requires i < |names|
    ensures multiset(names[..i + 1]) == multiset(names[..i]) + multiset{names[i]}
  {
    assert names[..i + 1] == names[..i] + [names[i]];
  }

  /** Roots and names are counted as far as position i. */
  ghost predicate CountedTo(names: seq<string>, i: nat, rootPartitionCount: int, deviceNames: map<string, int>)
    requires i <= |names|
  {
    var occurrences := multiset(names[..i]);
    Counts(deviceNames, occurrences) && rootPartitionCount == occurrences[ROOT]
  }

  /** The counting part of one turn of the validation loop. */
  method CountDisk(name: string, rootPartitionCount: int, deviceNames: map<string, int>,
                   ghost names: seq<string>, ghost i: nat)
      returns (roots: int, counted: map<string, int>)
    requires i < |names| && names[i] == name && CountedTo(names, i, rootPartitionCount, deviceNames)
    ensures CountedTo(names, i + 1, roots, counted)
  {
    roots := if name == ROOT then rootPartitionCount + 1 else rootPartitionCount;
    counted := deviceNames[name := (if name in deviceNames then deviceNames[name] else 0) + 1];
    NextOccurrence(names, i);
  }

  /** The loop over the disks: their errors, the number of roots and how often each name occurs. */
  method CheckDisks(devices: seq<BlockDevice>)
      returns (errs: seq<DeviceError>, rootPartitionCount: int, deviceNames: map<string, int>)
    ensures errs == ErrorsOfDisks(devices, |devices|)
    ensures rootPartitionCount == multiset(Names(devices))[ROOT]
    ensures Counts(deviceNames, multiset(Names(devices)))
  {
    errs, rootPartitionCount, deviceNames := [], 0, map[];
    for i := 0 to |devices|
      invariant errs == ErrorsOfDisks(devices, i)
      invariant CountedTo(Names(devices), i, rootPartitionCount, deviceNames)
    {
      rootPartitionCount, deviceNames :=
        CountDisk(devices[i].deviceName, rootPartitionCount, deviceNames, Names(devices), i);
      var found := CheckDisk(devices, i);
      errs := errs + found;
    }
    assert Names(devices)[..|devices|] == Names(devices);
  }

  method ValidateBlockDevices(devices: seq<BlockDevice>) returns (errs: seq<DeviceError>)
    ensures forall e :: e in errs <==> Reports(devices, multiset(Names(devices)), e)
    ensures errs == [] <==> Acceptable(devices)
  {
    var ofDisks, rootPartitionCount, deviceNames := CheckDisks(devices);
    var ofRoot := [];
    if rootPartitionCount > 1 {
      ofRoot := [RootCount];
    } else if rootPartitionCount == 0 && |devices| > 1 {
      ofRoot := [RootCount];
    }
    var duplicated := DuplicatedNames(deviceNames);
    errs := ofDisks + ofRoot + duplicated;
    ghost var occurrences := multiset(Names(devices));
    ReportsAreComplete(devices, occurrences, deviceNames, ofRoot, duplicated);
    NoReportsIff(devices);
    if errs != [] {
      assert Reports(devices, occurrences, errs[0]);
    }
  }

  /** The second loop of the validation: the names counted more than once, in some order. */
  method DuplicatedNames(deviceNames: map<string, int>) returns (errs: seq<DeviceError>)
    ensures forall e :: e in errs <==>
              e.DuplicatedName? && e.name in deviceNames && e.times == deviceNames[e.name] && e.times > 1
  {
    errs := [];
    var unvisited := deviceNames.Keys;
    while unvisited != {}
      invariant unvisited <= deviceNames.Keys
      invariant forall e :: e in errs <==>
                  e.DuplicatedName? && e.name in deviceNames && e.name !in unvisited
                  && e.times == deviceNames[e.name] && e.times > 1
      decreases unvisited
    {
      var device :| device in unvisited;
      unvisited := unvisited - {device};
      if deviceNames[device] > 1 {
        errs := errs + [DuplicatedName(device, deviceNames[device])];
      }
    }
  }

  /** The three groups of errors together are what the validation reports. */
  lemma {:induction false} ReportsAreComplete(devices: seq<BlockDevice>, occurrences: multiset<string>,
                                              counts: map<string, int>, ofRoot: seq<DeviceError>,
                                              duplicated: seq<DeviceError>)
    requires Counts(counts, occurrences)
    requires ofRoot == (if Reports(devices, occurrences, RootCount) then [RootCount] else [])
    requires forall e :: e in duplicated <==>
               e.DuplicatedName? && e.name in counts && e.times == counts[e.name] && e.times > 1
    ensures forall e ::
              e in ErrorsOfDisks(devices, |devices|) + ofRoot + duplicated <==> Reports(devices, occurrences, e)
  {
    ErrorsOfDisksContents(devices, |devices|);
  }

  lemma CountAtMostOneIff(names: seq<string>)
    ensures NoDuplicates(names) <==> forall x :: multiset(names)[x] <= 1
  {
    if names != [] {
      var front, last := names[..|names| - 1], names[|names| - 1];
      assert names == front + [last];
      CountAtMostOneIff(front);
      assert multiset(names)[last] == multiset(front)[last] + 1;
      assert forall x :: multiset(front)[x] <= multiset(names)[x];
      if forall x :: multiset(front)[x] <= 1 {
        assert last in front <==> multiset(front)[last] > 0;
      }
    }
  }

  /** Nothing is reported exactly for the accepted lists. */
  lemma NoReportsIff(devices: seq<BlockDevice>)
    ensures (forall e :: !Reports(devices, multiset(Names(devices)), e)) <==> Acceptable(devices)
  {
    var names := Names(devices);
    var occurrences := multiset(names);
    CountAtMostOneIff(names);
    assert ROOT in names <==> ROOT in occurrences;
    if forall e :: !Reports(devices, occurrences, e) {
      assert !Reports(devices, occurrences, RootCount);
      forall d | d in devices ensures !BadType(d) && !BadSize(d) && !BadIops(d) && !BadThroughput(d) {
        var i :| 0 <= i < |devices| && devices[i] == d;
        assert !Reports(devices, occurrences, InvalidType(i)) && !Reports(devices, occurrences, InvalidSize(i));
        assert !Reports(devices, occurrences, InvalidIops(i)) && !Reports(devices, occurrences, InvalidThroughput(i));
      }
      forall x ensures occurrences[x] <= 1 {
        assert !Reports(devices, occurrences, DuplicatedName(x, occurrences[x]));
      }
      forall i | 0 <= i < |devices| && |devices| > 1 && devices[i].deviceName != ROOT
        ensures IsDataName(devices[i].deviceName)
      {
        assert !Reports(devices, occurrences, InvalidName(i));
      }
    }
  }

  /** What is demanded of each volume, in plain terms. */
  predicate SoundVolume(ebs: Ebs) {
    && ebs.volumeType in ["gp2", "gp3", "io1", "st1", "sc1", "standard"]
    && ebs.volumeSize > 0
    && ebs.iops >= 0 && (ebs.volumeType == "io1" ==> ebs.iops > 0)
    && (ebs.throughput.Some? ==> ebs.throughput.value > 0)
  }

  lemma SoundVolumesIff(devices: seq<BlockDevice>)
    ensures (forall d :: d in devices ==> !BadType(d) && !BadSize(d) && !BadIops(d) && !BadThroughput(d)) <==>
            (forall i :: 0 <= i < |devices| ==> SoundVolume(devices[i].ebs))
  {
    forall i | 0 <= i < |devices|
      ensures SoundVolume(devices[i].ebs) <==>
                !BadType(devices[i]) && !BadSize(devices[i]) && !BadIops(devices[i]) && !BadThroughput(devices[i])
      ensures devices[i] in devices
    {
    }
  }

  /** The names a device may bear beside others: the root name, and those that have a number below 107. */
  ghost predicate RootOrNumbered(name: string) {
    || name == "/root"
    || exists k: nat :: k < 107 && name == DataNameAt(k)
  }

  lemma RootOrNumberedIff(name: string)
    ensures RootOrNumbered(name) <==> name == ROOT || IsDataName(name)
  {
    if IsDataName(name) {
      NamesAreNumbered(name);
    }
    if k: nat :| k < 107 && name == DataNameAt(k) {
      NumbersAreNames(k);
    }
  }

  lemma NamesMean(devices: seq<BlockDevice>)
    ensures ROOT in Names(devices) <==> exists i :: 0 <= i < |devices| && devices[i].deviceName == "/root"
    ensures NoDuplicates(Names(devices)) <==>
              forall i, j :: 0 <= i < j < |devices| ==> devices[i].deviceName != devices[j].deviceName
  {
    var names := Names(devices);
    assert forall i :: 0 <= i < |devices| ==> names[i] == devices[i].deviceName;
  }

  lemma NamesAllowedIff(devices: seq<BlockDevice>)
    ensures (forall i :: 0 <= i < |devices| && devices[i].deviceName != ROOT ==> IsDataName(devices[i].deviceName)) <==>
            (forall i :: 0 <= i < |devices| ==> RootOrNumbered(devices[i].deviceName))
  {
    forall i | 0 <= i < |devices|
      ensures RootOrNumbered(devices[i].deviceName) <==>
                devices[i].deviceName == ROOT || IsDataName(devices[i].deviceName)
    {
      RootOrNumberedIff(devices[i].deviceName);
    }
  }

  /**
   * The accepted lists in plain terms: sound volumes; distinct device names; and in a list of several devices
   * one is called /root and every other by a name that has a number below 107.
   */
  lemma AcceptableIff(devices: seq<BlockDevice>)
    ensures Acceptable(devices) <==>
              && (forall i :: 0 <= i < |devices| ==> SoundVolume(devices[i].ebs))
              && (forall i, j :: 0 <= i < j < |devices| ==> devices[i].deviceName != devices[j].deviceName)
              && (|devices| > 1 ==>
                    && (exists i :: 0 <= i < |devices| && devices[i].deviceName == "/root")
                    && forall i :: 0 <= i < |devices| ==> RootOrNumbered(devices[i].deviceName))
  {
    SoundVolumesIff(devices);
    NamesMean(devices);
    NamesAllowedIff(devices);
  }

  ghost function Bearing(devices: seq<BlockDevice>, name: string): set<nat> {
    set i: nat | i < |devices| && devices[i].deviceName == name
  }

  /** The counts of the validation are numbers of devices. */
  lemma {:induction false} CountIsBearing(devices: seq<BlockDevice>, name: string)
    ensures multiset(Names(devices))[name] == |Bearing(devices, name)|
  {
    var names := Names(devices);
    if devices != [] {
      var n := |devices| - 1;
      CountIsBearing(devices[..n], name);
      assert names == Names(devices[..n]) + [names[n]];
      assert Bearing(devices, name)
          == if devices[n].deviceName == name then Bearing(devices[..n], name) + {n} else Bearing(devices[..n], name);
    } else {
      assert names == [];
    }
  }

  /** Every error of the validation in plain terms. */
  lemma ReportsMeans(devices: seq<BlockDevice>, e: DeviceError)
    ensures Reports(devices, multiset(Names(devices)), e) <==>
              match e
              case InvalidName(i) => i < |devices| && |devices| > 1 && !RootOrNumbered(devices[i].deviceName)
              case InvalidType(i) =>
                i < |devices| && devices[i].ebs.volumeType !in ["gp2", "gp3", "io1", "st1", "sc1", "standard"]
              case InvalidSize(i) => i < |devices| && devices[i].ebs.volumeSize <= 0
              case InvalidIops(i) =>
                && i < |devices| && devices[i].ebs.iops <= 0
                && (devices[i].ebs.iops < 0 || devices[i].ebs.volumeType == "io1")
              case InvalidThroughput(i) =>
                i < |devices| && devices[i].ebs.throughput.Some? && devices[i].ebs.throughput.value <= 0
              case RootCount =>
                |Bearing(devices, "/root")| > 1 || (Bearing(devices, "/root") == {} && |devices| > 1)
              case DuplicatedName(name, times) => times > 1 && times == |Bearing(devices, name)|
  {
    match e
    case InvalidName(i) =>
      if i < |devices| {
        RootOrNumberedIff(devices[i].deviceName);
      }
    case RootCount => CountIsBearing(devices, ROOT);
    case DuplicatedName(name, times) => CountIsBearing(devices, name);
    case _ =>
  }

  // --- Capacity ---------------------------------------------------------------------------------

  /** Numbers the names the pattern admits: 26 sd names, 3 short and 78 long xvd names. */
  function DataNameIndex(s: string): (k: nat)
    requires IsDataName(s)
    ensures k < 107
  {
    if |s| == 8 then (s[7] - 'a') as int
    else if |s| == 9 then 26 + (s[8] - 'a') as int
    else 29 + 26 * (s[8] - 'a') as int + (s[9] - 'a') as int
  }

  function Letter(k: nat): char
    requires k < 26
  {
    'a' + k as char
  }

  function DataNameAt(k: nat): (s: string)
    requires k < 107
  {
    if k < 26 then "/dev/sd" + [Letter(k)]
    else if k < 29 then "/dev/xvd" + [Letter(k - 26)]
    else "/dev/xvd" + [Letter((k - 29) / 26), Letter((k - 29) % 26)]
  }

  /** The pattern admits exactly 107 names: the numbering is one-to-one and onto. */
  lemma NumbersAreNames(k: nat)
    requires k < 107
    ensures IsDataName(DataNameAt(k)) && DataNameIndex(DataNameAt(k)) == k
  {
  }

  lemma NamesAreNumbered(s: string)
    requires IsDataName(s)
    ensures DataNameAt(DataNameIndex(s)) == s
  {
    var rest := s[5..];
    assert s == "/dev/" + rest;
    if |rest| == 3 {
      assert rest == rest[..2] + [rest[2]];
    } else if |rest| == 4 {
      assert rest == rest[..3] + [rest[3]];
    } else {
      assert rest == rest[..3] + [rest[3], rest[4]];
      var a, b := (s[8] - 'a') as int, (s[9] - 'a') as int;
      assert (26 * a + b) / 26 == a && (26 * a + b) % 26 == b;
    }
  }

  /** Distinct numbers below a bound are at most that many. */
  lemma {:induction false} Pigeonhole(numbers: seq<nat>, bound: nat)
    requires NoDuplicates(numbers) && forall i :: 0 <= i < |numbers| ==> numbers[i] < bound
    ensures |numbers| <= bound
  {
    if numbers != [] {
      assert numbers[0] < bound;
      var largest := bound - 1;
      if i :| 0 <= i < |numbers| && numbers[i] == largest {
        Pigeonhole(numbers[..i] + numbers[i + 1..], largest);
      } else {
        Pigeonhole(numbers, largest);
      }
    }
  }

  /** No accepted list has more than 108 devices: the root and every data name once. */
  lemma CapacityBound(devices: seq<BlockDevice>)
    requires Acceptable(devices)
    ensures |devices| <= 108
  {
    if |devices| > 1 {
      var names := Names(devices);
      var numbers := seq(|names|, i requires 0 <= i < |names| =>
        if names[i] == ROOT then 107 else DataNameIndex(names[i]));
      forall i, j | 0 <= i < j < |numbers| ensures numbers[i] != numbers[j] {
        assert names[i] != names[j];
        if names[i] != ROOT { NamesAreNumbered(names[i]); }
        if names[j] != ROOT { NamesAreNumbered(names[j]); }
      }
      Pigeonhole(numbers, 108);
    }
  }

  const SOUND_VOLUME := Ebs(None, false, 0, None, None, 1, "gp3")

  /** The root and every data name once. */
  function FullList(): (devices: seq<BlockDevice>)
    ensures |devices| == 108
    ensures forall k :: 0 <= k < 108 ==>
              devices[k] == BlockDevice(if k == 107 then ROOT else DataNameAt(k), SOUND_VOLUME)
  {
    seq(108, k requires 0 <= k < 108 => BlockDevice(if k == 107 then ROOT else DataNameAt(k), SOUND_VOLUME))
  }

  /** The bound is reached. */
  lemma CapacityReached()
    ensures Acceptable(FullList()) && |FullList()| == 108
  {
    var devices := FullList();
    forall i, j | 0 <= i < j < 108 ensures Names(devices)[i] != Names(devices)[j] {
      NumbersAreNames(i);
      if j < 107 {
        NumbersAreNames(j);
      }
    }
    forall i | 0 <= i < 107 ensures IsDataName(devices[i].deviceName) {
      NumbersAreNames(i);
    }
    assert Names(devices)[107] == ROOT;
  }

  // --- Compilation --------------------------------------------------------------------------------

  /** Whether the i-th device is the one the image's root device replaces. */
  predicate IsRoot(devices: seq<BlockDevice>, i: nat)
    requires i < |devices|
  {
    devices[i].deviceName == ROOT || |devices| == 1
  }

  ghost predicate Compiles(devices: seq<BlockDevice>, i: nat, root: Option<string>, m: Mapping)
    requires i < |devices|
  {
    var d := devices[i].ebs;
    && (if IsRoot(devices, i) then root == Some(m.deviceName) else m.deviceName == devices[i].deviceName)
    && m.ebs.volumeSize == d.volumeSize && m.ebs.volumeType == d.volumeType && m.ebs.encrypted == d.encrypted
    && m.ebs.throughput == d.throughput && m.ebs.snapshotID == d.snapshotID
    && (m.ebs.deleteOnTermination <==> d.deleteOnTermination != Some(false))
    && m.ebs.iops == (if d.iops > 0 then Some(d.iops) else None)
  }

  /** The launch mappings of a list, given the image's root device name. */
  function Compiled(devices: seq<BlockDevice>, root: string): (mappings: seq<Mapping>)
    ensures |mappings| == |devices|
    ensures forall i :: 0 <= i < |devices| ==> Compiles(devices, i, Some(root), mappings[i])
  {
    seq(|devices|, i requires 0 <= i < |devices| => CompiledDevice(devices, i, root))
  }

  function CompiledDevice(devices: seq<BlockDevice>, i: nat, root: string): (m: Mapping)
    requires i < |devices|
    ensures Compiles(devices, i, Some(root), m)
  {
    var d := devices[i].ebs;
    Mapping(if IsRoot(devices, i) then root else devices[i].deviceName,
            EbsMapping(d.deleteOnTermination.GetOr(true), d.encrypted, if d.iops > 0 then Some(d.iops) else None,
                       d.throughput, d.snapshotID, d.volumeSize, d.volumeType))
  }

  /** The conditions on each mapping leave no choice. */
  lemma CompilationIsUnique(devices: seq<BlockDevice>, root: string, mappings: seq<Mapping>)
    requires |mappings| == |devices|
    requires forall i :: 0 <= i < |devices| ==> Compiles(devices, i, Some(root), mappings[i])
    ensures mappings == Compiled(devices, root)
  {
    forall i | 0 <= i < |devices| ensures mappings[i] == Compiled(devices, root)[i] {
      assert Compiles(devices, i, Some(root), mappings[i])
               && Compiles(devices, i, Some(root), Compiled(devices, root)[i]);
    }
  }

  /** None stands for the two errors: no devices, or an image without a root device name. */
  method GenerateBlockDevices(devices: seq<BlockDevice>, root: Option<string>) returns (r: Option<seq<Mapping>>)
    ensures r.None? <==> devices == [] || (root.None? && exists i :: 0 <= i < |devices| && IsRoot(devices, i))
    ensures r.Some? ==>
              && |r.value| == |devices|
              && forall i :: 0 <= i < |devices| ==> Compiles(devices, i, root, r.value[i])
  {
    if |devices| == 0 {
      return None;
    }
    var mappings: seq<Mapping> := [];
    for i := 0 to |devices|
      invariant |mappings| == i
      invariant forall j :: 0 <= j < i ==> Compiles(devices, j, root, mappings[j])
      invariant forall j :: 0 <= j < i && IsRoot(devices, j) ==> root.Some?
    {
      var disk := devices[i];
      var deviceName := disk.deviceName;
      if disk.deviceName == ROOT || |devices| == 1 {
        assert IsRoot(devices, i);
        if root.None? {
          return None;
        }
        deviceName := root.value;
      }
      var ebs := EbsMapping(true, disk.ebs.encrypted, None, disk.ebs.throughput, disk.ebs.snapshotID,
                            disk.ebs.volumeSize, disk.ebs.volumeType);
      if !disk.ebs.deleteOnTermination.GetOr(true) {
        ebs := ebs.(deleteOnTermination := disk.ebs.deleteOnTermination.value);
      }
      if disk.ebs.iops > 0 {
        ebs := ebs.(iops := Some(disk.ebs.iops));
      }
      mappings := mappings + [Mapping(deviceName, ebs)];
    }
    r := Some(mappings);
  }

  /** An accepted, non-empty list has exactly one position that the root device name replaces. */
  lemma OneRoot(devices: seq<BlockDevice>) returns (r: nat)
    requires Acceptable(devices) && devices != []
    ensures r < |devices| && forall i :: 0 <= i < |devices| ==> (IsRoot(devices, i) <==> i == r)
  {
    if |devices| == 1 {
      r := 0;
    } else {
      r :| 0 <= r < |devices| && Names(devices)[r] == ROOT;
      forall i | 0 <= i < |devices| && IsRoot(devices, i) ensures i == r {
        assert Names(devices)[i] == Names(devices)[r];
      }
    }
  }

  /**
   * The launch names of an accepted list are distinct exactly when no other device already carries the
   * image's root name; a root name outside the data pattern is therefore always safe.
   */
  lemma CompiledNamesDistinctIff(devices: seq<BlockDevice>, root: string, mappings: seq<Mapping>)
    requires Acceptable(devices) && |mappings| == |devices|
    requires forall i :: 0 <= i < |devices| ==> Compiles(devices, i, Some(root), mappings[i])
    ensures (forall i, j :: 0 <= i < j < |mappings| ==> mappings[i].deviceName != mappings[j].deviceName)
       <==> !exists i :: 0 <= i < |devices| && !IsRoot(devices, i) && devices[i].deviceName == root
    ensures !IsDataName(root) ==>
              forall i, j :: 0 <= i < j < |mappings| ==> mappings[i].deviceName != mappings[j].deviceName
  {
    if devices != [] {
      var r := OneRoot(devices);
      assert Compiles(devices, r, Some(root), mappings[r]);
      if i :| 0 <= i < |devices| && !IsRoot(devices, i) && devices[i].deviceName == root {
        assert mappings[i].deviceName == mappings[r].deviceName;
        assert IsDataName(root);
      } else {
        forall i, j | 0 <= i < j < |mappings| ensures mappings[i].deviceName != mappings[j].deviceName {
          assert Names(devices)[i] != Names(devices)[j];
        }
      }
    }
  }

  /** For an accepted list compilation fails exactly when there is nothing to compile or no root name. */
  lemma CompilationFailsIff(devices: seq<BlockDevice>, root: Option<string>)
    requires Acceptable(devices)
    ensures (devices == [] || (root.None? && exists i :: 0 <= i < |devices| && IsRoot(devices, i)))
       <==> devices == [] || root.None?
  {
    if devices != [] {
      var r := OneRoot(devices);
      assert IsRoot(devices, r);
    }
  }
}
