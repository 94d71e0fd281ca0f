/**
 * Pairing of host traces with device traces in one input directory, and the
 * loop that hands each pair to the trace linker.
 */
module BatchTraceLink {
  import opened Wrappers
  import opened Strings
  import opened Listing
  import opened Effects

  /** What the linker needs for one host/device pair. */
  datatype LinkerArgs = LinkerArgs(hostTraceFile: string, deviceTraceFile: string, outputTraceFileName: string)

  /** A host trace entry and the device trace entry matched to it. */
  datatype Pair = Pair(host: Entry, device: Entry)

  /** The suffix of a linked output name; the uncompressed variant has no leading underscore. */
  function LinkedTraceExtension(compress: bool): string {
    if compress then "_linked.json.gz" else "linked.json"
  }

  /** A file whose name contains the host identifier. */
  predicate IsHostTrace(e: Entry, hostId: string)
    ensures hostId == [] ==> (IsHostTrace(e, hostId) <==> !e.isDir)
  {
    assert IsPrefix([], e.name);
    !e.isDir && Contains(e.name, hostId)
  }

  /** A file that is not a host trace and whose name contains the device identifier. */
  predicate IsDeviceTrace(e: Entry, hostId: string, deviceId: string)
    ensures IsDeviceTrace(e, hostId, deviceId) ==> !IsHostTrace(e, hostId)
  {
    !e.isDir && !Contains(e.name, hostId) && Contains(e.name, deviceId)
  }

  /** The host trace candidates, in listing order. */
  function HostTraces(listing: seq<Entry>, hostId: string): (r: seq<Entry>)
    ensures |r| <= |listing|
  {
    if listing == [] then []
    else
      var last := listing[|listing| - 1];
      HostTraces(listing[..|listing| - 1], hostId) + (if IsHostTrace(last, hostId) then [last] else [])
  }

  /** The device trace candidates, in listing order. */
  function DeviceTraces(listing: seq<Entry>, hostId: string, deviceId: string): (r: seq<Entry>)
    ensures |r| <= |listing|
  {
    if listing == [] then []
    else
      var last := listing[|listing| - 1];
      DeviceTraces(listing[..|listing| - 1], hostId, deviceId)
        + (if IsDeviceTrace(last, hostId, deviceId) then [last] else [])
  }

  /**
   * Directories and files with neither identifier are ignored; a file with
   * both identifiers is a host trace only.
   */
  lemma {:induction false} ClassifiedMembers(listing: seq<Entry>, hostId: string, deviceId: string, e: Entry)
    ensures e in HostTraces(listing, hostId) <==> e in listing && !e.isDir && Contains(e.name, hostId)
    ensures e in DeviceTraces(listing, hostId, deviceId) <==>
      e in listing && !e.isDir && !Contains(e.name, hostId) && Contains(e.name, deviceId)
  {
    if listing != [] {
      var n := |listing| - 1;
      assert listing == listing[..n] + [listing[n]];
      ClassifiedMembers(listing[..n], hostId, deviceId, e);
    }
  }

  /** The device traces whose names contain `prefix`, in candidate order. */
  function Matching(devices: seq<Entry>, prefix: string): (r: seq<Entry>)
    ensures |r| <= |devices|
  {
    if devices == [] then []
    else
      var last := devices[|devices| - 1];
      Matching(devices[..|devices| - 1], prefix) + (if Contains(last.name, prefix) then [last] else [])
  }

  /** Exactly the device traces containing `prefix` match it. */
  lemma {:induction false} MatchingMembers(devices: seq<Entry>, prefix: string, d: Entry)
    ensures d in Matching(devices, prefix) <==> d in devices && Contains(d.name, prefix)
  {
    if devices != [] {
      var n := |devices| - 1;
      assert devices == devices[..n] + [devices[n]];
      MatchingMembers(devices[..n], prefix, d);
    }
  }

  /**
   * Lengthening the prefix can only shrink the set of matching devices:
   * every device that matches a longer prefix matches each shorter one,
   * and there are no more of them.
   */
  lemma {:induction false} MatchingShrinks(devices: seq<Entry>, longer: string, shorter: string)
    requires IsPrefix(shorter, longer)
    ensures forall d :: d in Matching(devices, longer) ==> d in Matching(devices, shorter)
    ensures |Matching(devices, longer)| <= |Matching(devices, shorter)|
  {
    forall d | d in Matching(devices, longer)
      ensures d in Matching(devices, shorter)
    {
      MatchingMembers(devices, longer, d);
      MatchingMembers(devices, shorter, d);
      ContainsPrefixOf(d.name, longer, shorter);
    }
    if devices != [] {
      var n := |devices| - 1;
      MatchingShrinks(devices[..n], longer, shorter);
      if Contains(devices[n].name, longer) {
        ContainsPrefixOf(devices[n].name, longer, shorter);
      }
    }
  }

  /** The step of the search from `name[0:i]` to `name[0:i+1]`. */
  lemma PrefixStepShrinks(devices: seq<Entry>, name: string, i: nat)
    requires i < |name|
    ensures forall d :: d in Matching(devices, name[..i + 1]) ==> d in Matching(devices, name[..i])
    ensures |Matching(devices, name[..i + 1])| <= |Matching(devices, name[..i])|
  {
    assert name[..i + 1][..i] == name[..i];
    MatchingShrinks(devices, name[..i + 1], name[..i]);
  }

  /** Exactly one device contains `name[0:i]`. */
  ghost predicate UniqueAt(name: string, devices: seq<Entry>, i: nat)
    requires i <= |name|
  {
    |Matching(devices, name[..i])| == 1
  }

  /**
   * The search of `range(i, len(name))` for the first prefix length that
   * matches exactly one device.
   */
  function UniquePrefixFrom(name: string, devices: seq<Entry>, i: nat): (r: Option<nat>)
    decreases |name| - i
    ensures r.Some? ==> i <= r.value < |name| && UniqueAt(name, devices, r.value)
    ensures r.Some? ==> forall j :: i <= j < r.value ==> !UniqueAt(name, devices, j)
    ensures r.None? ==> forall j :: i <= j < |name| ==> !UniqueAt(name, devices, j)
  {
    if i >= |name| then None
    else if |Matching(devices, name[..i])| == 1 then Some(i)
    else UniquePrefixFrom(name, devices, i + 1)
  }

  /**
   * The shortest prefix length `i` in `[1, len(name) - 1]` at which exactly
   * one device name contains `name[0:i]`; none exists for names of length at most 1.
   */
  function UniquePrefixLength(name: string, devices: seq<Entry>): (r: Option<nat>)
    ensures r.Some? ==> 1 <= r.value < |name| && UniqueAt(name, devices, r.value)
    ensures r.Some? ==> forall j :: 1 <= j < r.value ==> !UniqueAt(name, devices, j)
    ensures r.None? ==> forall j :: 1 <= j < |name| ==> !UniqueAt(name, devices, j)
    ensures |name| <= 1 ==> r.None?
  {
    UniquePrefixFrom(name, devices, 1)
  }

  /** The device trace matched to a host trace name, if any. */
  function MatchingDeviceTrace(name: string, devices: seq<Entry>): (r: Option<Entry>)
    ensures r.Some? ==> r.value in devices && 2 <= |name|
  {
    match UniquePrefixLength(name, devices)
    case Some(i) =>
      MatchingMembers(devices, name[..i], Matching(devices, name[..i])[0]);
      Some(Matching(devices, name[..i])[0])
    case None => None
  }

  /**
   * A device is matched exactly when some prefix length in `[1, len(name) - 1]`
   * is matched by one device alone; the device is then the one device
   * containing the shortest such prefix.
   */
  lemma MatchedDeviceIsUniqueAtShortestPrefix(name: string, devices: seq<Entry>)
    ensures MatchingDeviceTrace(name, devices).None? <==>
      forall j :: 1 <= j < |name| ==> |Matching(devices, name[..j])| != 1
    ensures MatchingDeviceTrace(name, devices).Some? ==>
      var i := UniquePrefixLength(name, devices).value;
      var d := MatchingDeviceTrace(name, devices).value;
      && d in devices
      && Contains(d.name, name[..i])
      && (forall e :: e in devices && Contains(e.name, name[..i]) ==> e == d)
      && (forall j :: 1 <= j < i ==> |Matching(devices, name[..j])| != 1)
  {
    var u := UniquePrefixLength(name, devices);
    if u.Some? {
      var m := Matching(devices, name[..u.value]);
      assert m == [m[0]];
      MatchingMembers(devices, name[..u.value], m[0]);
      forall e | e in devices && Contains(e.name, name[..u.value])
        ensures e == m[0]
      {
        MatchingMembers(devices, name[..u.value], e);
      }
      forall j | 1 <= j < u.value
        ensures |Matching(devices, name[..j])| != 1
      {
        assert !UniqueAt(name, devices, j);
      }
    } else {
      forall j | 1 <= j < |name|
        ensures |Matching(devices, name[..j])| != 1
      {
        assert !UniqueAt(name, devices, j);
      }
    }
  }

  /** The sorted host traces that found a device, each with its device, in host order. */
  function PairedHosts(hosts: seq<Entry>, devices: seq<Entry>): (r: seq<Pair>)
    ensures |r| <= |hosts|
  {
    if hosts == [] then []
    else
      var last := hosts[|hosts| - 1];
      var rest := PairedHosts(hosts[..|hosts| - 1], devices);
      match MatchingDeviceTrace(last.name, devices)
      case Some(d) => rest + [Pair(last, d)]
      case None => rest
  }

  /** A pair is found exactly for a host whose search selects that device. */
  lemma {:induction false} PairedHostsMembers(hosts: seq<Entry>, devices: seq<Entry>, p: Pair)
    ensures p in PairedHosts(hosts, devices) <==>
      p.host in hosts && MatchingDeviceTrace(p.host.name, devices) == Some(p.device)
  {
    if hosts != [] {
      var n := |hosts| - 1;
      assert hosts == hosts[..n] + [hosts[n]];
      PairedHostsMembers(hosts[..n], devices, p);
    }
  }

  /** The host entries of a list of pairs. */
  function HostsOf(pairs: seq<Pair>): seq<Entry> {
    seq(|pairs|, k requires 0 <= k < |pairs| => pairs[k].host)
  }

  /** The linked output file name: everything before the host identifier, then the extension. */
  function OutputTraceFileName(hostName: string, hostId: string, compress: bool): (r: string)
    ensures |LinkedTraceExtension(compress)| <= |r|
    ensures var stem := r[..|r| - |LinkedTraceExtension(compress)|];
      && IsPrefix(stem, hostName)
      && (hostId != [] ==> !Contains(stem, hostId))
  {
    var stem := BeforeFirst(hostName, hostId);
    assert hostId != [] ==> !Contains(stem, hostId) by {
      if hostId != [] {
        BeforeFirstExcludesSeparator(hostName, hostId);
      }
    }
    assert (stem + LinkedTraceExtension(compress))[..|stem|] == stem;
    stem + LinkedTraceExtension(compress)
  }

  function ToLinkerArgs(p: Pair, hostId: string, compress: bool): LinkerArgs {
    LinkerArgs(p.host.path, p.device.path, OutputTraceFileName(p.host.name, hostId, compress))
  }

  function LinkerArgsFor(pairs: seq<Pair>, hostId: string, compress: bool): (r: seq<LinkerArgs>)
    ensures |r| == |pairs|
  {
    seq(|pairs|, k requires 0 <= k < |pairs| => ToLinkerArgs(pairs[k], hostId, compress))
  }

  /** The pairs `find_linker_args` finds in a listing. */
  function PairsOf(listing: seq<Entry>, hostId: string, deviceId: string): (r: seq<Pair>)
    ensures |r| <= |HostTraces(listing, hostId)| <= |listing|
  {
    var hosts := SortByName(HostTraces(listing, hostId));
    assert |hosts| == |multiset(hosts)|;
    PairedHosts(hosts, DeviceTraces(listing, hostId, deviceId))
  }

  /** What `find_linker_args` returns for a listing. */
  function LinkerArgsOf(listing: seq<Entry>, hostId: string, deviceId: string, compress: bool): (r: seq<LinkerArgs>)
    ensures |r| <= |listing|
  {
    LinkerArgsFor(PairsOf(listing, hostId, deviceId), hostId, compress)
  }

  /** One more sorted host trace extends the pairs by at most its own pair. */
  lemma PairedHostsStep(hosts: seq<Entry>, h: nat, devices: seq<Entry>)
    requires h < |hosts|
    ensures PairedHosts(hosts[..h + 1], devices) ==
      PairedHosts(hosts[..h], devices)
        + (match MatchingDeviceTrace(hosts[h].name, devices)
           case Some(d) => [Pair(hosts[h], d)]
           case None => [])
  {
    assert hosts[..h + 1][..h] == hosts[..h];
  }

  lemma LinkerArgsForAppend(pairs: seq<Pair>, p: Pair, hostId: string, compress: bool)
    ensures LinkerArgsFor(pairs + [p], hostId, compress)
         == LinkerArgsFor(pairs, hostId, compress) + [ToLinkerArgs(p, hostId, compress)]
  {
  }

  /** The classification loop: host and device trace candidates, in listing order. */
  method ClassifyTraces(listing: seq<Entry>, hostId: string, deviceId: string)
    returns (hostTraces: seq<Entry>, deviceTraces: seq<Entry>)
    ensures hostTraces == HostTraces(listing, hostId)
    ensures deviceTraces == DeviceTraces(listing, hostId, deviceId)
  {
    hostTraces, deviceTraces := [], [];
    for n := 0 to |listing|
      invariant hostTraces == HostTraces(listing[..n], hostId)
      invariant deviceTraces == DeviceTraces(listing[..n], hostId, deviceId)
    {
      var item := listing[n];
      assert listing[..n + 1][..n] == listing[..n];
      if item.isDir {
        continue;
      }
      if Contains(item.name, hostId) {
        hostTraces := hostTraces + [item];
      } else if Contains(item.name, deviceId) {
        deviceTraces := deviceTraces + [item];
      }
    }
    assert listing[..|listing|] == listing;
  }

  /** The prefix search for one host trace name, stopping at the first unique match. */
  method FindMatchingDeviceTrace(name: string, deviceTraces: seq<Entry>)
    returns (matchingDeviceTrace: Option<Entry>)
    ensures matchingDeviceTrace == MatchingDeviceTrace(name, deviceTraces)
  {
    matchingDeviceTrace := None;
    var i := 1;
    while i < |name|
      invariant 1 <= i
      invariant matchingDeviceTrace.None?
      invariant UniquePrefixFrom(name, deviceTraces, i) == UniquePrefixLength(name, deviceTraces)
    {
      var matchingDeviceTraces := Matching(deviceTraces, name[..i]);
      if |matchingDeviceTraces| == 1 {
        matchingDeviceTrace := Some(matchingDeviceTraces[0]);
        break;
      }
      i := i + 1;
    }
  }

  /**
   * Scans the listing, pairs every sorted host trace with the device trace
   * that alone contains the host's shortest ambiguity-free name prefix, and
   * skips (after logging) host traces that found none.
   */
  method FindLinkerArgs(listing: seq<Entry>, hostId: string, deviceId: string, compress: bool)
    returns (outputLinkerArgs: seq<LinkerArgs>)
    ensures outputLinkerArgs == LinkerArgsOf(listing, hostId, deviceId, compress)
  {
    var linkedTraceExtension := if compress then "_linked.json.gz" else "linked.json";
    var hostTraces, deviceTraces := ClassifyTraces(listing, hostId, deviceId);
    var sortedHosts := SortByName(hostTraces);
    outputLinkerArgs := [];
    for h := 0 to |sortedHosts|
      invariant outputLinkerArgs == LinkerArgsFor(PairedHosts(sortedHosts[..h], deviceTraces), hostId, compress)
    {
      var hostTrace := sortedHosts[h];
      var matchingDeviceTrace := FindMatchingDeviceTrace(hostTrace.name, deviceTraces);
      PairedHostsStep(sortedHosts, h, deviceTraces);
      ghost var before := PairedHosts(sortedHosts[..h], deviceTraces);
      if matchingDeviceTrace.None? {
        // The source logs that no device trace matched and moves on.
      } else {
        var args := LinkerArgs(hostTrace.path, matchingDeviceTrace.value.path,
                               BeforeFirst(hostTrace.name, hostId) + linkedTraceExtension);
        LinkerArgsForAppend(before, Pair(hostTrace, matchingDeviceTrace.value), hostId, compress);
        outputLinkerArgs := outputLinkerArgs + [args];
      }
    }
    assert sortedHosts[..|sortedHosts|] == sortedHosts;
  }

  /** Pairs of name-sorted hosts keep the hosts' order. */
  lemma {:induction false} PairedHostsKeepHostOrder(hosts: seq<Entry>, devices: seq<Entry>)
    requires SortedByName(hosts)
    ensures var r := PairedHosts(hosts, devices);
      forall k, l :: 0 <= k < l < |r| ==> LexLe(r[k].host.name, r[l].host.name)
  {
    if hosts != [] {
      var n := |hosts| - 1;
      var init := hosts[..n];
      assert SortedByName(init);
      PairedHostsKeepHostOrder(init, devices);
      PairedHostsStep(hosts, n, devices);
      assert hosts[..n + 1] == hosts;
      var rest := PairedHosts(init, devices);
      forall k | 0 <= k < |rest|
        ensures LexLe(rest[k].host.name, hosts[n].name)
      {
        assert rest[k] in rest;
        PairedHostsMembers(init, devices, rest[k]);
        var j :| 0 <= j < |init| && init[j] == rest[k].host;
        assert hosts[j] == init[j];
      }
    }
  }

  lemma HostsOfAppend(pairs: seq<Pair>, p: Pair)
    ensures HostsOf(pairs + [p]) == HostsOf(pairs) + [p.host]
  {
  }

  /** Each host appears among the pairs at most as often as among the hosts. */
  lemma {:induction false} PairedHostsAtMostOncePerHost(hosts: seq<Entry>, devices: seq<Entry>)
    ensures multiset(HostsOf(PairedHosts(hosts, devices))) <= multiset(hosts)
  {
    if hosts != [] {
      var n := |hosts| - 1;
      var init, last := hosts[..n], hosts[n];
      assert hosts[..n + 1] == hosts;
      assert hosts == init + [last];
      PairedHostsAtMostOncePerHost(init, devices);
      PairedHostsStep(hosts, n, devices);
      var rest := PairedHosts(init, devices);
      var m := MatchingDeviceTrace(last.name, devices);
      if m.Some? {
        assert PairedHosts(hosts, devices) == rest + [Pair(last, m.value)];
        HostsOfAppend(rest, Pair(last, m.value));
        calc {
          multiset(HostsOf(PairedHosts(hosts, devices)));
          multiset(HostsOf(rest) + [last]);
          multiset(HostsOf(rest)) + multiset{last};
        <=
          multiset(init) + multiset{last};
          multiset(init + [last]);
        }
      } else {
        assert PairedHosts(hosts, devices) == rest + [];
        assert rest + [] == rest;
        assert multiset(init) <= multiset(init + [last]);
      }
    }
  }

  /**
   * Every pair `find_linker_args` finds joins a host candidate with a device
   * candidate, and that device is the one the host's prefix search selects.
   */
  lemma PairsComeFromCandidates(listing: seq<Entry>, hostId: string, deviceId: string)
    ensures var ps := PairsOf(listing, hostId, deviceId);
      forall k :: 0 <= k < |ps| ==>
        && IsHostTrace(ps[k].host, hostId) && ps[k].host in listing
        && IsDeviceTrace(ps[k].device, hostId, deviceId) && ps[k].device in listing
        && MatchingDeviceTrace(ps[k].host.name, DeviceTraces(listing, hostId, deviceId)) == Some(ps[k].device)
  {
    var ps := PairsOf(listing, hostId, deviceId);
    var hosts := HostTraces(listing, hostId);
    var devices := DeviceTraces(listing, hostId, deviceId);
    forall k | 0 <= k < |ps|
      ensures IsHostTrace(ps[k].host, hostId) && ps[k].host in listing
      ensures IsDeviceTrace(ps[k].device, hostId, deviceId) && ps[k].device in listing
      ensures MatchingDeviceTrace(ps[k].host.name, devices) == Some(ps[k].device)
    {
      assert ps[k] in ps;
      PairedHostsMembers(SortByName(hosts), devices, ps[k]);
      SortByNameMembers(hosts, ps[k].host);
      MatchedDeviceIsUniqueAtShortestPrefix(ps[k].host.name, devices);
      ClassifiedMembers(listing, hostId, deviceId, ps[k].host);
      ClassifiedMembers(listing, hostId, deviceId, ps[k].device);
    }
  }

  /**
   * A host candidate gets a pair exactly when its prefix search finds a
   * device; the others are left out, and leaving one out does not keep the
   * hosts after it from being paired.
   */
  lemma UnmatchedHostsOmitted(listing: seq<Entry>, hostId: string, deviceId: string, h: Entry)
    requires IsHostTrace(h, hostId) && h in listing
    ensures var ps := PairsOf(listing, hostId, deviceId);
      (exists k :: 0 <= k < |ps| && ps[k].host == h)
        <==> MatchingDeviceTrace(h.name, DeviceTraces(listing, hostId, deviceId)).Some?
  {
    var ps := PairsOf(listing, hostId, deviceId);
    var hosts := HostTraces(listing, hostId);
    var devices := DeviceTraces(listing, hostId, deviceId);
    ClassifiedMembers(listing, hostId, deviceId, h);
    SortByNameMembers(hosts, h);
    var m := MatchingDeviceTrace(h.name, devices);
    if m.Some? {
      PairedHostsMembers(SortByName(hosts), devices, Pair(h, m.value));
      var k :| 0 <= k < |ps| && ps[k] == Pair(h, m.value);
      assert ps[k].host == h;
    }
    if exists k :: 0 <= k < |ps| && ps[k].host == h {
      var k :| 0 <= k < |ps| && ps[k].host == h;
      assert ps[k] in ps;
      PairedHostsMembers(SortByName(hosts), devices, ps[k]);
    }
  }

  /**
   * The pairs follow sorted host name order, and no host candidate is paired
   * more often than it occurs among the candidates.
   */
  lemma PairsFollowSortedHosts(listing: seq<Entry>, hostId: string, deviceId: string)
    ensures var ps := PairsOf(listing, hostId, deviceId);
      && |ps| <= |HostTraces(listing, hostId)|
      && (forall k, l :: 0 <= k < l < |ps| ==> LexLe(ps[k].host.name, ps[l].host.name))
      && multiset(HostsOf(ps)) <= multiset(HostTraces(listing, hostId))
  {
    var hosts := HostTraces(listing, hostId);
    var devices := DeviceTraces(listing, hostId, deviceId);
    SortByNameSorted(hosts);
    assert |SortByName(hosts)| == |hosts| by {
      assert |multiset(SortByName(hosts))| == |multiset(hosts)|;
    }
    PairedHostsKeepHostOrder(SortByName(hosts), devices);
    PairedHostsAtMostOncePerHost(SortByName(hosts), devices);
  }

  /**
   * Each linker argument carries its pair's two paths, and its output name
   * is the host name up to the leftmost occurrence of the host identifier,
   * followed by "_linked.json.gz" or, uncompressed, "linked.json".
   */
  lemma LinkerArgsNaming(listing: seq<Entry>, hostId: string, deviceId: string, compress: bool)
    ensures var ps := PairsOf(listing, hostId, deviceId);
      var r := LinkerArgsOf(listing, hostId, deviceId, compress);
      |r| == |ps| &&
      forall k :: 0 <= k < |r| ==>
        var name := ps[k].host.name;
        var stem := BeforeFirst(name, hostId);
        && r[k].hostTraceFile == ps[k].host.path
        && r[k].deviceTraceFile == ps[k].device.path
        && r[k].outputTraceFileName == stem + (if compress then "_linked.json.gz" else "linked.json")
        && stem == name[..|stem|]
        && IsPrefix(hostId, name[|stem|..])
        && forall j :: 0 <= j < |stem| ==> !IsPrefix(hostId, name[j..])
  {
    var ps := PairsOf(listing, hostId, deviceId);
    PairsComeFromCandidates(listing, hostId, deviceId);
    forall k | 0 <= k < |ps|
      ensures var stem := BeforeFirst(ps[k].host.name, hostId);
        && IsPrefix(hostId, ps[k].host.name[|stem|..])
        && forall j :: 0 <= j < |stem| ==> !IsPrefix(hostId, ps[k].host.name[j..])
    {
      BeforeFirstCutsAtFirstOccurrence(ps[k].host.name, hostId);
    }
  }

  /** Without device candidates no host is paired. */
  lemma {:induction false} NoDevicesNoPairs(hosts: seq<Entry>)
    ensures PairedHosts(hosts, []) == []
  {
    if hosts != [] {
      NoDevicesNoPairs(hosts[..|hosts| - 1]);
      assert MatchingDeviceTrace(hosts[|hosts| - 1].name, []).None?;
    }
  }

  /** With an empty host identifier no file is a device candidate. */
  lemma {:induction false} EmptyHostIdentifierNoDevices(listing: seq<Entry>, deviceId: string)
    ensures DeviceTraces(listing, "", deviceId) == []
  {
    if listing != [] {
      EmptyHostIdentifierNoDevices(listing[..|listing| - 1], deviceId);
      assert IsPrefix("", listing[|listing| - 1].name);
    }
  }

  /**
   * With an empty host identifier every file is a host candidate and none a
   * device candidate, so nothing is paired (and `split("")`, which would
   * raise, is never reached).
   */
  lemma EmptyHostIdentifierPairsNothing(listing: seq<Entry>, deviceId: string, compress: bool)
    ensures LinkerArgsOf(listing, "", deviceId, compress) == []
  {
    EmptyHostIdentifierNoDevices(listing, deviceId);
    NoDevicesNoPairs(SortByName(HostTraces(listing, "")));
  }

  /** Host candidates of a listing `[h1, h2, d]` of two host traces and a device trace. */
  lemma HostTracesOfThree(h1: Entry, h2: Entry, d: Entry, hostId: string, deviceId: string)
    requires IsHostTrace(h1, hostId) && IsHostTrace(h2, hostId) && IsDeviceTrace(d, hostId, deviceId)
    ensures HostTraces([h1, h2, d], hostId) == [h1, h2]
  {
    var listing := [h1, h2, d];
    assert listing[..2] == [h1, h2] && [h1, h2][..1] == [h1] && [h1][..0] == [];
    assert HostTraces([h1], hostId) == [h1];
    assert HostTraces([h1, h2], hostId) == [h1, h2];
  }

  /** Device candidates of a listing `[h1, h2, d]` of two host traces and a device trace. */
  lemma DeviceTracesOfThree(h1: Entry, h2: Entry, d: Entry, hostId: string, deviceId: string)
    requires IsHostTrace(h1, hostId) && IsHostTrace(h2, hostId) && IsDeviceTrace(d, hostId, deviceId)
    ensures DeviceTraces([h1, h2, d], hostId, deviceId) == [d]
  {
    var listing := [h1, h2, d];
    assert listing[..2] == [h1, h2] && [h1, h2][..1] == [h1] && [h1][..0] == [];
    assert DeviceTraces([h1], hostId, deviceId) == [];
    assert DeviceTraces([h1, h2], hostId, deviceId) == [];
  }

  /** Two entries already in name order stay as they are. */
  lemma SortTwoByName(h1: Entry, h2: Entry)
    requires LexLt(h1.name, h2.name)
    ensures SortByName([h1, h2]) == [h1, h2]
  {
    assert [h1, h2][..1] == [h1] && [h1][..0] == [];
    assert SortByName([h1]) == [h1];
    if LexLe(h2.name, h1.name) {
      LexLeAntisymmetric(h1.name, h2.name);
    }
    assert InsertByName(h2, [h1]) == [h1] + InsertByName(h2, []);
  }

  /** The candidates of a listing of two host traces and one device trace. */
  lemma TwoHostsOneDevice(h1: Entry, h2: Entry, d: Entry, hostId: string, deviceId: string)
    requires IsHostTrace(h1, hostId) && IsHostTrace(h2, hostId) && IsDeviceTrace(d, hostId, deviceId)
    requires LexLt(h1.name, h2.name)
    ensures SortByName(HostTraces([h1, h2, d], hostId)) == [h1, h2]
    ensures DeviceTraces([h1, h2, d], hostId, deviceId) == [d]
  {
    HostTracesOfThree(h1, h2, d, hostId, deviceId);
    DeviceTracesOfThree(h1, h2, d, hostId, deviceId);
    SortTwoByName(h1, h2);
  }

  /** Two hosts whose first letter only one device contains both get that device. */
  lemma BothHostsGetTheDevice(h1: Entry, h2: Entry, d: Entry)
    requires |h1.name| > 1 && |h2.name| > 1 && Contains(d.name, h1.name[..1]) && Contains(d.name, h2.name[..1])
    ensures PairedHosts([h1, h2], [d]) == [Pair(h1, d), Pair(h2, d)]
  {
    assert [d][..0] == [];
    assert Matching([d], h1.name[..1]) == [d];
    assert Matching([d], h2.name[..1]) == [d];
    assert MatchingDeviceTrace(h1.name, [d]) == Some(d);
    assert MatchingDeviceTrace(h2.name, [d]) == Some(d);
    assert [h1, h2][..1] == [h1];
    assert [h1][..0] == [];
  }

  /**
   * Two host traces can be paired with the same device trace: when a device
   * name alone contains the first letter of both host names, both hosts are
   * linked with it, since nothing in the search keeps a device from being
   * chosen twice.
   */
  lemma DeviceCanBeShared(h1: Entry, h2: Entry, d: Entry, hostId: string, deviceId: string, compress: bool)
    requires IsHostTrace(h1, hostId) && IsHostTrace(h2, hostId) && IsDeviceTrace(d, hostId, deviceId)
    requires LexLt(h1.name, h2.name) && |h1.name| > 1 && |h2.name| > 1
    requires Contains(d.name, h1.name[..1]) && Contains(d.name, h2.name[..1])
    ensures var r := LinkerArgsOf([h1, h2, d], hostId, deviceId, compress);
      |r| == 2 && r[0].hostTraceFile == h1.path && r[1].hostTraceFile == h2.path
      && r[0].deviceTraceFile == r[1].deviceTraceFile == d.path
  {
    TwoHostsOneDevice(h1, h2, d, hostId, deviceId);
    BothHostsGetTheDevice(h1, h2, d);
    var ps := PairsOf([h1, h2, d], hostId, deviceId);
    assert ps == [Pair(h1, d), Pair(h2, d)];
    var r := LinkerArgsOf([h1, h2, d], hostId, deviceId, compress);
    assert r == LinkerArgsFor(ps, hostId, compress);
    assert r[0] == ToLinkerArgs(ps[0], hostId, compress);
    assert r[1] == ToLinkerArgs(ps[1], hostId, compress);
  }

  /**
   * A concrete listing meeting the conditions of `DeviceCanBeShared`: with
   * host identifier `H` and device identifier `D`, the host traces `aH` and
   * `bH` are both linked with the device trace `abD`.
   */
  lemma SharedDeviceExample(compress: bool)
    ensures var r := LinkerArgsOf([Entry("aH", "aH", false), Entry("bH", "bH", false),
                                   Entry("abD", "abD", false)], "H", "D", compress);
      |r| == 2 && r[0].hostTraceFile == "aH" && r[1].hostTraceFile == "bH"
      && r[0].deviceTraceFile == r[1].deviceTraceFile == "abD"
  {
    var h1, h2, d := Entry("aH", "aH", false), Entry("bH", "bH", false), Entry("abD", "abD", false);
    assert IsPrefix("H", "aH"[1..]) && IsPrefix("H", "bH"[1..]);
    assert IsPrefix("a", "abD") && IsPrefix("b", "abD"[1..]);
    assert IsPrefix("D", "abD"[2..]);
    assert !Contains("abD"[3..], "H");
    assert !Contains("abD"[2..], "H");
    assert !Contains("abD"[1..], "H");
    assert LexLt("aH", "bH");
    DeviceCanBeShared(h1, h2, d, "H", "D", compress);
  }

  /**
   * The link calls of the loop in `main`, one per entry and in list order;
   * `join` stands for `Path(directory, name).as_posix()`.
   */
  function LinkCalls(linkerArgs: seq<LinkerArgs>, outputDirectory: string, join: (string, string) -> string)
    : (r: seq<Effect>)
    ensures |r| == |linkerArgs|
  {
    if linkerArgs == [] then []
    else
      var n := |linkerArgs| - 1;
      LinkCalls(linkerArgs[..n], outputDirectory, join)
        + [Effect.Link(linkerArgs[n].hostTraceFile, linkerArgs[n].deviceTraceFile,
                       join(outputDirectory, linkerArgs[n].outputTraceFileName))]
  }

  /** The `k`-th link call is for the `k`-th record, its output joined under the output directory. */
  lemma {:induction false} LinkCallsAt(linkerArgs: seq<LinkerArgs>, outputDirectory: string,
                                       join: (string, string) -> string, k: nat)
    requires k < |linkerArgs|
    ensures LinkCalls(linkerArgs, outputDirectory, join)[k]
         == Effect.Link(linkerArgs[k].hostTraceFile, linkerArgs[k].deviceTraceFile,
                        join(outputDirectory, linkerArgs[k].outputTraceFileName))
  {
    var n := |linkerArgs| - 1;
    if k < n {
      LinkCallsAt(linkerArgs[..n], outputDirectory, join, k);
    }
  }

  lemma LinkCallsStep(linkerArgs: seq<LinkerArgs>, outputDirectory: string,
                      join: (string, string) -> string, idx: nat)
    requires idx < |linkerArgs|
    ensures LinkCalls(linkerArgs[..idx + 1], outputDirectory, join)
         == LinkCalls(linkerArgs[..idx], outputDirectory, join)
            + [Effect.Link(linkerArgs[idx].hostTraceFile, linkerArgs[idx].deviceTraceFile,
                           join(outputDirectory, linkerArgs[idx].outputTraceFileName))]
  {
    assert linkerArgs[..idx + 1][..idx] == linkerArgs[..idx];
  }

  /**
   * What `main` does with the pairs: with none it exits with -1 before
   * linking anything; otherwise it creates the output directory and links
   * each pair once, in order.
   */
  function LinkEffects(linkerArgs: seq<LinkerArgs>, outputDirectory: string, join: (string, string) -> string)
    : (r: seq<Effect>)
    ensures |r| == |linkerArgs| + 1
  {
    if linkerArgs == [] then [Effect.Exit(-1)]
    else [Effect.MkDir(outputDirectory)] + LinkCalls(linkerArgs, outputDirectory, join)
  }

  /**
   * What `main` does as written: with no pairs it evaluates
   * `args.device_trace_identifier` for the error message, an attribute the
   * parsed arguments do not have (the option is `--chakra-device-trace-identifier`),
   * so an AttributeError escapes before `sys.exit(-1)` is reached.
   */
  function LinkEffectsAsWritten(linkerArgs: seq<LinkerArgs>, outputDirectory: string,
                                join: (string, string) -> string): (r: seq<Effect>)
    ensures |r| == |linkerArgs| + 1
    ensures linkerArgs != [] ==> r == LinkEffects(linkerArgs, outputDirectory, join)
  {
    if linkerArgs == [] then [Effect.Raise("AttributeError")]
    else [Effect.MkDir(outputDirectory)] + LinkCalls(linkerArgs, outputDirectory, join)
  }

  /** As written, an empty pair list never reaches the intended exit with -1. */
  lemma EmptyPairsRaiseAsWritten(outputDirectory: string, join: (string, string) -> string)
    ensures Effect.Exit(-1) !in LinkEffectsAsWritten([], outputDirectory, join)
    ensures LinkEffectsAsWritten([], outputDirectory, join) != LinkEffects([], outputDirectory, join)
  {
  }

  /**
   * With no pairs nothing is created or linked and the process exits with -1;
   * otherwise the output directory is created first, nobody exits, and the
   * `k`-th link call is for the `k`-th pair, its output joined under the
   * output directory.
   */
  lemma LinkingOrder(linkerArgs: seq<LinkerArgs>, outputDirectory: string, join: (string, string) -> string)
    ensures var e := LinkEffects(linkerArgs, outputDirectory, join);
      && (linkerArgs == [] ==> e == [Effect.Exit(-1)])
      && (linkerArgs != [] ==>
            && |e| == |linkerArgs| + 1
            && e[0] == Effect.MkDir(outputDirectory)
            && (forall c :: c in e ==> !c.Exit?)
            && forall k :: 0 <= k < |linkerArgs| ==>
                 e[k + 1] == Effect.Link(linkerArgs[k].hostTraceFile, linkerArgs[k].deviceTraceFile,
                                         join(outputDirectory, linkerArgs[k].outputTraceFileName)))
  {
    var e := LinkEffects(linkerArgs, outputDirectory, join);
    if linkerArgs != [] {
      forall k | 0 <= k < |linkerArgs|
        ensures e[k + 1] == Effect.Link(linkerArgs[k].hostTraceFile, linkerArgs[k].deviceTraceFile,
                                        join(outputDirectory, linkerArgs[k].outputTraceFileName))
      {
        LinkCallsAt(linkerArgs, outputDirectory, join, k);
      }
      forall c | c in e
        ensures !c.Exit?
      {
        var j :| 0 <= j < |e| && e[j] == c;
        if j > 0 {
          LinkCallsAt(linkerArgs, outputDirectory, join, j - 1);
        }
      }
    }
  }

  /** The `for` loop of `main`: one `link` call per record, in order. */
  method LinkAll(world: World, linkerArgs: seq<LinkerArgs>, outputDirectory: string,
                 join: (string, string) -> string)
    modifies world
    ensures world.log == old(world.log) + LinkCalls(linkerArgs, outputDirectory, join)
  {
    for idx := 0 to |linkerArgs|
      invariant world.log == old(world.log) + LinkCalls(linkerArgs[..idx], outputDirectory, join)
    {
      var linkerArg := linkerArgs[idx];
      var outputFile := join(outputDirectory, linkerArg.outputTraceFileName);
      LinkCallsStep(linkerArgs, outputDirectory, join, idx);
      world.Link(linkerArg.hostTraceFile, linkerArg.deviceTraceFile, outputFile);
    }
    assert linkerArgs[..|linkerArgs|] == linkerArgs;
  }

  /** `main` once the pairs are known: exit with -1 on none, else create the output directory and link them. */
  method LinkBatch(world: World, linkerArgs: seq<LinkerArgs>, outputDirectory: string,
                   join: (string, string) -> string)
    modifies world
    ensures world.log == old(world.log) + LinkEffects(linkerArgs, outputDirectory, join)
  {
    if |linkerArgs| == 0 {
      world.Exit(-1);
      return;
    }
    world.MkDir(outputDirectory);
    LinkAll(world, linkerArgs, outputDirectory, join);
  }

  /** `main` after argument parsing: find the pairs, then link them. */
  method LinkTraces(world: World, listing: seq<Entry>, hostId: string, deviceId: string,
                    outputDirectory: string, compress: bool, join: (string, string) -> string)
    modifies world
    ensures world.log == old(world.log)
      + LinkEffects(LinkerArgsOf(listing, hostId, deviceId, compress), outputDirectory, join)
  {
    var linkerArgs := FindLinkerArgs(listing, hostId, deviceId, compress);
    LinkBatch(world, linkerArgs, outputDirectory, join);
  }
}
