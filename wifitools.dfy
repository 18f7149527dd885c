/**
 * Wireless networks: one `WLAN` per network seen, the `WLANList` registry
 * that merges repeated sightings, its sort, and the two scan loops.
 */
module WifiTools {
  import opened Wrappers
  import opened PyLib
  import opened HexCodec
  import opened Sorting

  /** The column width `getSSID` and `getBSSID` always pad or cut to. */
  const FieldWidth: nat := 24

  /** `getSecurity`'s table, indexed by the driver's security code. */
  const SecurityNames: seq<string> :=
    ["OPEN", "WEP-PSK", "WPA", "WEP-PSK/WPA", "WPA2", "WEP-PSK/WPA2", "WPA2/WPA", "WEP-PSK/WPA/WPA2"]

  /** The state of one `WLAN`, as a value. */
  datatype WlanRecord = WlanRecord(ssid: string, bssid: string, channel: int, rssi: int,
                                   security: int, hidden: int, count: int)

  /** A text cut to 24 characters, or padded with spaces to 24. */
  function Pad24(s: string): (r: string)
    ensures |r| == FieldWidth
    ensures forall k :: 0 <= k < FieldWidth ==> r[k] == if k < |s| then s[k] else ' '
  {
    if |s| >= FieldWidth then s[..FieldWidth] else s + Spaces(FieldWidth - |s|)
  }

  /**
   * `getSecurity`: the table entry for codes below 8, with Python's negative
   * indexing for negative codes (`None` below -8, where indexing raises), and
   * the decimal code itself from 8 on.
   */
  function SecurityLabel(security: int): (r: Option<string>)
    ensures 0 <= security < 8 ==> r == Some(SecurityNames[security])
    ensures -8 <= security < 0 ==> r == Some(SecurityNames[8 + security])
    ensures r.None? <==> security < -8
    ensures security >= 8 ==> r == Some(IntToString(security))
  {
    if security < |SecurityNames| then Index(SecurityNames, security) else Some(IntToString(security))
  }

  /** Different non-negative codes never share a label. */
  lemma SecurityLabelInjective(a: int, b: int)
    requires a >= 0 && b >= 0 && SecurityLabel(a) == SecurityLabel(b)
    ensures a == b
  {
    if a >= 8 && b >= 8 {
      IntToStringInjective(a, b);
    } else if a >= 8 {
      NumberIsNoName(a, b);
    } else if b >= 8 {
      NumberIsNoName(b, a);
    }
  }

  /** A decimal code never spells a table entry: those start with a letter. */
  lemma NumberIsNoName(n: int, i: int)
    requires n >= 8 && 0 <= i < 8
    ensures IntToString(n) != SecurityNames[i]
  {
    assert IsDigit(IntToString(n)[0]);
    assert !IsDigit(SecurityNames[i][0]);
  }

  /**
   * `WLAN.__str__`: the padded BSSID alone for a hidden network, otherwise
   * the padded SSID, a tab, the channel right-aligned to 2, a tab, and the
   * rssi right-aligned to 3.
   */
  function Line(w: WlanRecord): (r: string)
    ensures |r| >= FieldWidth
    ensures w.ssid == "" <==> |r| == FieldWidth
    ensures r[..FieldWidth] == Pad24(if w.ssid == "" then w.bssid else w.ssid)
    ensures w.ssid != "" ==>
      r[FieldWidth] == '\t' &&
      r[FieldWidth + 1..] == RightAlign(IntToString(w.channel), 2) + "\t" + RightAlign(IntToString(w.rssi), 3)
  {
    if w.ssid == "" then Pad24(w.bssid)
    else
      var head := Pad24(w.ssid);
      var tail := RightAlign(IntToString(w.channel), 2) + "\t" + RightAlign(IntToString(w.rssi), 3);
      var r := head + "\t" + tail;
      assert r[..FieldWidth] == head && r[FieldWidth] == '\t' && r[FieldWidth + 1..] == tail;
      r
  }

  /** The columns of a line are fixed for channels below 100 and rssi above -100. */
  lemma LineColumns(w: WlanRecord)
    requires w.ssid != "" && 0 <= w.channel < 100 && -100 < w.rssi <= 0
    ensures |Line(w)| == FieldWidth + 1 + 2 + 1 + 3
    ensures Line(w)[FieldWidth + 3] == '\t'
  {
    var c := IntToString(w.channel);
    var r := IntToString(w.rssi);
    if w.channel >= 10 {
      assert c == NatToString(w.channel / 10) + [DigitChar(w.channel % 10)];
    }
    if w.rssi < 0 {
      assert r == "-" + NatToString(-w.rssi);
      if -w.rssi >= 10 {
        assert NatToString(-w.rssi) == NatToString(-w.rssi / 10) + [DigitChar(-w.rssi % 10)];
      }
    }
  }

  /** `Line` spelled out, for the method that builds it piece by piece. */
  lemma LineParts(w: WlanRecord)
    ensures Line(w) == if w.ssid == "" then Pad24(w.bssid)
                       else Pad24(w.ssid) + "\t" + RightAlign(IntToString(w.channel), 2) + "\t" + RightAlign(IntToString(w.rssi), 3)
  {
  }

  /** One `WLAN` object. */
  class Wlan {
    const ssid: string
    const bssid: string
    var channel: int
    var rssi: int
    const security: int
    const hidden: int
    var count: int

    function Record(): WlanRecord
      reads this
    {
      WlanRecord(ssid, bssid, channel, rssi, security, hidden, count)
    }

    constructor (ssid: string, bssid: string, channel: int, rssi: int, security: int, hidden: int)
      ensures Record() == WlanRecord(ssid, bssid, channel, rssi, security, hidden, 0)
    {
      this.ssid := ssid;
      this.bssid := bssid;
      this.channel := channel;
      this.rssi := rssi;
      this.security := security;
      this.hidden := hidden;
      this.count := 0;
    }

    /** `getSSID`: the SSID cut or padded to 24 characters; the width argument is ignored. */
    method GetSsid(width: int) returns (r: string)
      ensures r == Pad24(ssid)
    {
      r := Slice(ssid, 0, FieldWidth);
      while |r| < FieldWidth
        invariant |r| <= FieldWidth
        invariant r[..Min(|ssid|, FieldWidth)] == ssid[..Min(|ssid|, FieldWidth)]
        invariant |r| >= Min(|ssid|, FieldWidth)
        invariant forall k :: Min(|ssid|, FieldWidth) <= k < |r| ==> r[k] == ' '
        decreases FieldWidth - |r|
      {
        r := r + " ";
      }
    }

    /** `getBSSID`: the BSSID cut or padded to 24 characters; the width argument is ignored. */
    method GetBssid(width: int) returns (r: string)
      ensures r == Pad24(bssid)
    {
      r := Slice(bssid, 0, FieldWidth);
      while |r| < FieldWidth
        invariant |r| <= FieldWidth
        invariant r[..Min(|bssid|, FieldWidth)] == bssid[..Min(|bssid|, FieldWidth)]
        invariant |r| >= Min(|bssid|, FieldWidth)
        invariant forall k :: Min(|bssid|, FieldWidth) <= k < |r| ==> r[k] == ' '
        decreases FieldWidth - |r|
      {
        r := r + " ";
      }
    }

    /** `getSecurity`. */
    function GetSecurity(): (r: Option<string>)
      ensures r == SecurityLabel(security)
    {
      SecurityLabel(security)
    }

    /** `__str__`. */
    method ToString() returns (r: string)
      ensures r == Line(Record())
    {
      LineParts(Record());
      if ssid == "" {
        r := GetBssid(FieldWidth);
      } else {
        var name := GetSsid(FieldWidth);
        r := name + "\t" + RightAlign(IntToString(channel), 2) + "\t" + RightAlign(IntToString(rssi), 3);
      }
    }
  }

  function SsidOf(w: WlanRecord): string { w.ssid }
  function BssidOf(w: WlanRecord): string { w.bssid }
  function CountOf(w: WlanRecord): int { w.count }

  /** The registry invariant: every network has its own number, below the next one to hand out. */
  predicate Registered(list: seq<WlanRecord>, next: int)
  {
    next >= 0 && DistinctBy(list, CountOf) && forall k :: 0 <= k < |list| ==> 0 <= list[k].count < next
  }

  /** No two networks share an SSID, and no two share a BSSID. */
  predicate KeysDistinct(list: seq<WlanRecord>)
  {
    DistinctBy(list, SsidOf) && DistinctBy(list, BssidOf)
  }

  /** The first network whose SSID or whose BSSID equals the given one. */
  function MatchIndex(list: seq<WlanRecord>, ssid: string, bssid: string): (r: Option<nat>)
    ensures r.Some? ==> r.value < |list| && (list[r.value].ssid == ssid || list[r.value].bssid == bssid)
    ensures r.Some? ==> forall k :: 0 <= k < r.value ==> list[k].ssid != ssid && list[k].bssid != bssid
    ensures r.None? <==> forall k :: 0 <= k < |list| ==> list[k].ssid != ssid && list[k].bssid != bssid
  {
    if list == [] then None
    else if list[0].ssid == ssid || list[0].bssid == bssid then Some(0)
    else match MatchIndex(list[1..], ssid, bssid)
      case None => None
      case Some(i) => Some(i + 1)
  }

  /**
   * `WLANList.addItem` on records: a match takes the new rssi and channel;
   * otherwise the network is numbered with the next count and appended.
   */
  function AddNetwork(list: seq<WlanRecord>, next: int, lan: WlanRecord): (seq<WlanRecord>, int)
  {
    match MatchIndex(list, lan.ssid, lan.bssid)
    case Some(i) => (list[i := list[i].(rssi := lan.rssi, channel := lan.channel)], next)
    case None => (list + [lan.(count := next)], next + 1)
  }

  /** Both invariants survive an add. */
  lemma AddNetworkKeepsInvariant(list: seq<WlanRecord>, next: int, lan: WlanRecord)
    requires Registered(list, next) && KeysDistinct(list)
    ensures Registered(AddNetwork(list, next, lan).0, AddNetwork(list, next, lan).1)
    ensures KeysDistinct(AddNetwork(list, next, lan).0)
  {
    var r := AddNetwork(list, next, lan).0;
    match MatchIndex(list, lan.ssid, lan.bssid)
    case Some(i) =>
      assert forall k :: 0 <= k < |r| ==>
        SsidOf(r[k]) == SsidOf(list[k]) && BssidOf(r[k]) == BssidOf(list[k]) && CountOf(r[k]) == CountOf(list[k]);
    case None =>
      assert r == list + [lan.(count := next)];
      assert forall k :: 0 <= k < |list| ==> r[k] == list[k];
      assert forall k :: 0 <= k < |list| ==>
        CountOf(r[k]) < next && CountOf(r[|list|]) == next &&
        SsidOf(r[k]) != SsidOf(r[|list|]) && BssidOf(r[k]) != BssidOf(r[|list|]);
  }

  /**
   * A sighting either updates exactly one known network in place (same
   * length, same keys, same counts) or is appended with a new number; it is
   * appended exactly when neither its SSID nor its BSSID is known.
   */
  lemma AddNetworkEffect(list: seq<WlanRecord>, next: int, lan: WlanRecord)
    ensures var res := AddNetwork(list, next, lan);
            var r := res.0;
            var n := res.1;
            (|r| == |list| + 1 <==> forall k :: 0 <= k < |list| ==> list[k].ssid != lan.ssid && list[k].bssid != lan.bssid) &&
            (|r| == |list| ==>
               n == next &&
               exists i :: 0 <= i < |list| && (list[i].ssid == lan.ssid || list[i].bssid == lan.bssid) &&
                 r[i] == list[i].(rssi := lan.rssi, channel := lan.channel) &&
                 forall k :: 0 <= k < |list| && k != i ==> r[k] == list[k]) &&
            (|r| == |list| + 1 ==> n == next + 1 && r == list + [lan.(count := next)])
  {
    match MatchIndex(list, lan.ssid, lan.bssid)
    case Some(i) =>
      var r := AddNetwork(list, next, lan).0;
      assert |r| == |list|;
      assert r[i] == list[i].(rssi := lan.rssi, channel := lan.channel);
    case None =>
  }

  /** Numbers increase along the list: the order of first sighting, before any sort. */
  predicate InSightingOrder(list: seq<WlanRecord>)
  {
    forall i, j :: 0 <= i < j < |list| ==> list[i].count < list[j].count
  }

  /** Until the list is sorted, adds keep the entries in the order they were first seen. */
  lemma AddNetworkKeepsOrder(list: seq<WlanRecord>, next: int, lan: WlanRecord)
    requires Registered(list, next) && InSightingOrder(list)
    ensures InSightingOrder(AddNetwork(list, next, lan).0)
  {
    var r := AddNetwork(list, next, lan).0;
    match MatchIndex(list, lan.ssid, lan.bssid)
    case Some(i) =>
      assert forall k :: 0 <= k < |r| ==> r[k].count == list[k].count;
    case None =>
      assert forall k :: 0 <= k < |list| ==> r[k] == list[k];
      assert r[|list|].count == next;
  }

  /** Two sightings of "Home" from different access points: one entry, with the last rssi and channel. */
  lemma SameSsidMerges(b1: string, b2: string)
    ensures var first := AddNetwork([], 0, WlanRecord("Home", b1, 6, -60, 4, 0, 0));
            var second := AddNetwork(first.0, first.1, WlanRecord("Home", b2, 11, -55, 4, 0, 0));
            second.0 == [WlanRecord("Home", b1, 11, -55, 4, 0, 0)] && second.1 == 1
  {
    var s1 := WlanRecord("Home", b1, 6, -60, 4, 0, 0);
    var s2 := WlanRecord("Home", b2, 11, -55, 4, 0, 0);
    assert AddNetwork([], 0, s1).0 == [s1];
    assert MatchIndex([s1], s2.ssid, s2.bssid) == Some(0);
  }

  /**
   * Hidden networks all have the empty SSID, so the SSID test merges them:
   * two hidden access points with different BSSIDs end up as one entry.
   */
  lemma HiddenNetworksMerge(b1: string, b2: string)
    ensures var first := AddNetwork([], 0, WlanRecord("", b1, 1, -70, 0, 1, 0));
            |AddNetwork(first.0, first.1, WlanRecord("", b2, 6, -50, 0, 1, 0)).0| == 1
  {
    var s1 := WlanRecord("", b1, 1, -70, 0, 1, 0);
    assert AddNetwork([], 0, s1).0 == [s1];
    assert MatchIndex([s1], "", b2) == Some(0);
  }

  /** An earlier entry matching only by BSSID wins over a later entry matching by SSID. */
  lemma FirstMatchWins()
    ensures var list := [WlanRecord("A", "b1", 1, -80, 0, 0, 0), WlanRecord("B", "b2", 1, -80, 0, 0, 1)];
            AddNetwork(list, 2, WlanRecord("B", "b1", 9, -40, 0, 0, 0)).0 ==
              [WlanRecord("A", "b1", 9, -40, 0, 0, 0), WlanRecord("B", "b2", 1, -80, 0, 0, 1)]
  {
  }

  /** `defaultSort`: the key that orders networks by signal strength. */
  function DefaultSort(w: WlanRecord): int
  {
    w.rssi
  }

  /** The key `sortItems` uses: the one given, or `defaultSort`. */
  function SortKey(sortFunction: Option<WlanRecord -> int>): WlanRecord -> int
  {
    if sortFunction.None? then DefaultSort else sortFunction.value
  }

  /** Sorting permutes the entries, so both invariants survive it. */
  lemma SortKeepsInvariant(list: seq<WlanRecord>, next: int, key: WlanRecord -> int)
    requires Registered(list, next) && KeysDistinct(list)
    ensures Registered(SortDesc(list, key), next) && KeysDistinct(SortDesc(list, key))
  {
    var r := SortDesc(list, key);
    SortDescDistinct(list, key, SsidOf);
    SortDescDistinct(list, key, BssidOf);
    SortDescDistinct(list, key, CountOf);
    forall k | 0 <= k < |r| ensures 0 <= r[k].count < next {
      assert r[k] in multiset(list);
    }
  }

  /** `WLANList`: the networks seen, in order of first sighting until sorted. */
  class WlanList {
    var wlans: seq<Wlan>
    var count: int
    var index: int

    ghost function Snapshot(): seq<WlanRecord>
      reads this, wlans
    {
      seq(|wlans|, k requires 0 <= k < |wlans| reads this, wlans => wlans[k].Record())
    }

    ghost predicate Valid()
      reads this, wlans
    {
      Registered(Snapshot(), count) && KeysDistinct(Snapshot())
    }

    constructor ()
      ensures Valid() && wlans == [] && count == 0 && index == -1
    {
      wlans := [];
      count := 0;
      index := -1;
    }

    /** Distinct counts make distinct objects. */
    lemma ObjectsDistinct()
      requires Valid()
      ensures forall i, j :: 0 <= i < j < |wlans| ==> wlans[i] != wlans[j]
    {
      forall i, j | 0 <= i < j < |wlans| ensures wlans[i] != wlans[j] {
        assert CountOf(Snapshot()[i]) != CountOf(Snapshot()[j]);
      }
    }

    /** `__len__`. */
    function Length(): (n: nat)
      reads this
      ensures n == |wlans|
    {
      |wlans|
    }

    /** `__getitem__`. */
    function Get(index: int): (r: Lookup<Wlan>)
      reads this
      ensures 0 <= index < |wlans| ==> r == Found(wlans[index])
      ensures -|wlans| <= index < 0 ==> r == Found(wlans[|wlans| + index])
      ensures r.StopIteration? <==> index >= |wlans|
      ensures r.IndexError? <==> index < -|wlans|
    {
      GetItem(wlans, index)
    }

    /** `__iter__`. */
    method Iter()
      modifies this`index
      ensures index == -1
    {
      index := -1;
    }

    /** `__next__`: the next network, or `None` for StopIteration. */
    method Next() returns (r: Option<Wlan>)
      modifies this`index
      ensures index == old(index) + 1
      ensures r == if 0 <= index < |wlans| then Some(wlans[index]) else None
    {
      index := index + 1;
      if 0 <= index < |wlans| {
        r := Some(wlans[index]);
      } else {
        r := None;
      }
    }

    /** The loop of `addItem`: the first network matching by SSID or BSSID. */
    method Find(ssid: string, bssid: string) returns (found: Option<nat>)
      ensures found == MatchIndex(Snapshot(), ssid, bssid)
    {
      ghost var list := Snapshot();
      var i := 0;
      while i < |wlans|
        invariant 0 <= i <= |wlans|
        invariant forall k :: 0 <= k < i ==> list[k].ssid != ssid && list[k].bssid != bssid
      {
        var item := wlans[i];
        if item.ssid == ssid {
          assert list[i].ssid == ssid;
          return Some(i);
        } else if item.bssid == bssid {
          assert list[i].bssid == bssid;
          return Some(i);
        }
        i := i + 1;
      }
      return None;
    }

    /** `addItem`: updates the matching network in place, or numbers and appends `lan`. */
    method AddItem(lan: Wlan) returns ()
      requires Valid()
      modifies this, wlans, lan
      ensures Valid()
      ensures (Snapshot(), count) == AddNetwork(old(Snapshot()), old(count), old(lan.Record()))
      ensures wlans == old(wlans) || wlans == old(wlans) + [lan]
    {
      ghost var before := Snapshot();
      ghost var incoming := lan.Record();
      AddNetworkKeepsInvariant(before, count, incoming);
      var found := Find(lan.ssid, lan.bssid);
      if found.Some? {
        ObjectsDistinct();
        var item := wlans[found.value];
        item.rssi := lan.rssi;
        item.channel := lan.channel;
        assert Snapshot() == before[found.value := before[found.value].(rssi := incoming.rssi, channel := incoming.channel)];
        return;
      }
      assert lan !in wlans by {
        forall k | 0 <= k < |wlans| ensures wlans[k] != lan {
          assert before[k].ssid == wlans[k].ssid;
        }
      }
      lan.count := count;
      assert Snapshot() == before;
      count := count + 1;
      wlans := wlans + [lan];
      assert Snapshot() == before + [lan.Record()];
    }

    lemma SnapshotIs(recs: seq<WlanRecord>)
      requires |recs| == |wlans| && forall k :: 0 <= k < |wlans| ==> wlans[k].Record() == recs[k]
      ensures Snapshot() == recs
    {
    }

    /** Any rearrangement of `Pairs()` still pairs each network with its own state. */
    lemma PairsCoherent(ps: seq<(WlanRecord, Wlan)>)
      requires multiset(ps) == multiset(Pairs())
      ensures forall k :: 0 <= k < |ps| ==> ps[k].1.Record() == ps[k].0
      ensures Map(Pairs(), First) == Snapshot()
    {
      var pairs := Pairs();
      forall k | 0 <= k < |ps| ensures ps[k].1.Record() == ps[k].0 {
        assert ps[k] in multiset(pairs);
        var m :| 0 <= m < |pairs| && pairs[m] == ps[k];
      }
    }

    /** Each network's state next to the network. */
    function Pairs(): (ps: seq<(WlanRecord, Wlan)>)
      reads this, wlans
      ensures |ps| == |wlans| && forall k :: 0 <= k < |wlans| ==> ps[k] == (wlans[k].Record(), wlans[k])
    {
      seq(|wlans|, k requires 0 <= k < |wlans| reads this, wlans => (wlans[k].Record(), wlans[k]))
    }

    /**
     * `sortItems`: Python's stable sort, descending by the key (rssi when
     * none is given); the networks themselves are not changed.
     */
    method SortItems(sortFunction: Option<WlanRecord -> int>)
      requires Valid()
      modifies this`wlans
      ensures Valid()
      ensures Snapshot() == SortDesc(old(Snapshot()), SortKey(sortFunction))
      ensures multiset(wlans) == multiset(old(wlans))
    {
      var key := SortKey(sortFunction);
      SortPlan(key);
      ghost var recs := SortDesc(Snapshot(), key);
      var pairs := Pairs();
      SortDescMapMultiset(pairs, Compose(key, First), Second);
      assert Map(pairs, Second) == wlans;
      wlans := Networks(SortDesc(pairs, Compose(key, First)));
      assert wlans == Map(SortDesc(pairs, Compose(key, First)), Second);
      SnapshotIs(recs);
    }

    /** Sorting the (state, network) pairs by the state's key lines the networks up with the sorted states. */
    lemma SortPlan(key: WlanRecord -> int)
      requires Valid()
      ensures var objects := Networks(SortDesc(Pairs(), Compose(key, First)));
              var recs := SortDesc(Snapshot(), key);
              |objects| == |recs| && (forall k :: 0 <= k < |objects| ==> objects[k].Record() == recs[k]) &&
              Registered(recs, count) && KeysDistinct(recs)
    {
      var pairs := Pairs();
      var sorted := SortDesc(pairs, Compose(key, First));
      var recs := SortedStates(pairs, key);
      PairsCoherent(sorted);
      SortKeepsInvariant(Snapshot(), count, key);
    }
  }

  function First(p: (WlanRecord, Wlan)): WlanRecord { p.0 }

  function Second(p: (WlanRecord, Wlan)): Wlan { p.1 }

  /** The networks of a list of pairs, in order. */
  function Networks(ps: seq<(WlanRecord, Wlan)>): (r: seq<Wlan>)
    ensures |r| == |ps| && forall k :: 0 <= k < |ps| ==> r[k] == ps[k].1
  {
    if ps == [] then [] else [ps[0].1] + Networks(ps[1..])
  }

  /** The states of sorted pairs are the sorted states. */
  function SortedStates(ps: seq<(WlanRecord, Wlan)>, key: WlanRecord -> int): (r: seq<WlanRecord>)
    ensures var sorted := SortDesc(ps, Compose(key, First));
            |r| == |ps| && (forall k :: 0 <= k < |ps| ==> r[k] == sorted[k].0) &&
            r == SortDesc(Map(ps, First), key)
  {
    SortDescMap(ps, First, key);
    Map(SortDesc(ps, Compose(key, First)), First)
  }

  /** One network as the driver reports it: SSID, raw BSSID bytes, channel, rssi, security, hidden. */
  datatype RawNetwork = RawNetwork(ssid: string, bssid: seq<Byte>, channel: int, rssi: int,
                                   security: int, hidden: int)

  /** The `WLAN` built from a driver tuple: the BSSID becomes its hexadecimal text. */
  function NetworkOf(w: RawNetwork): (r: WlanRecord)
    ensures IsHexString(r.bssid) && HexToBytes(r.bssid) == w.bssid
    ensures r.ssid == w.ssid && r.channel == w.channel && r.rssi == w.rssi && r.count == 0
  {
    HexRoundTrip(w.bssid);
    WlanRecord(w.ssid, Hex(w.bssid), w.channel, w.rssi, w.security, w.hidden, 0)
  }

  /** The networks of one scan, added in the order reported. */
  function AddBatch(list: seq<WlanRecord>, next: int, ws: seq<RawNetwork>): (seq<WlanRecord>, int)
    decreases |ws|
  {
    if ws == [] then (list, next)
    else
      var (l, n) := AddNetwork(list, next, NetworkOf(ws[0]));
      AddBatch(l, n, ws[1..])
  }

  /** `scanForWLANS` on records: `scan(k)` is what the driver's k-th scan reports. */
  function ScanRounds(list: seq<WlanRecord>, next: int, scan: nat -> seq<RawNetwork>,
                      round: nat, iterations: int): (seq<WlanRecord>, int)
    decreases iterations
  {
    if iterations <= 0 then (list, next)
    else
      var (l, n) := AddBatch(list, next, scan(round));
      ScanRounds(l, n, scan, round + 1, iterations - 1)
  }

  lemma {:induction false} AddBatchKeepsInvariant(list: seq<WlanRecord>, next: int, ws: seq<RawNetwork>)
    requires Registered(list, next) && KeysDistinct(list)
    ensures Registered(AddBatch(list, next, ws).0, AddBatch(list, next, ws).1)
    ensures KeysDistinct(AddBatch(list, next, ws).0)
    decreases |ws|
  {
    if ws != [] {
      AddNetworkKeepsInvariant(list, next, NetworkOf(ws[0]));
      var (l, n) := AddNetwork(list, next, NetworkOf(ws[0]));
      AddBatchKeepsInvariant(l, n, ws[1..]);
    }
  }

  /** Scanning never forgets a network: every one known before is still there, with its count. */
  lemma {:induction false} AddBatchKeepsKnown(list: seq<WlanRecord>, next: int, ws: seq<RawNetwork>)
    ensures |list| <= |AddBatch(list, next, ws).0|
    ensures forall k :: 0 <= k < |list| ==>
      AddBatch(list, next, ws).0[k].ssid == list[k].ssid &&
      AddBatch(list, next, ws).0[k].bssid == list[k].bssid &&
      AddBatch(list, next, ws).0[k].count == list[k].count
    decreases |ws|
  {
    if ws != [] {
      var (l, n) := AddNetwork(list, next, NetworkOf(ws[0]));
      AddBatchKeepsKnown(l, n, ws[1..]);
    }
  }

  /** Some entry of the list has the network's SSID or its BSSID. */
  predicate Known(list: seq<WlanRecord>, w: RawNetwork)
  {
    exists k :: 0 <= k < |list| && (list[k].ssid == w.ssid || list[k].bssid == Hex(w.bssid))
  }

  /** Every network a scan reports is known afterwards, by its SSID or by its BSSID. */
  lemma {:induction false} AddBatchCovers(list: seq<WlanRecord>, next: int, ws: seq<RawNetwork>)
    ensures forall j :: 0 <= j < |ws| ==> Known(AddBatch(list, next, ws).0, ws[j])
    decreases |ws|
  {
    if ws != [] {
      var w := NetworkOf(ws[0]);
      var (l, n) := AddNetwork(list, next, w);
      AddBatchCovers(l, n, ws[1..]);
      AddBatchKeepsKnown(l, n, ws[1..]);
      var r := AddBatch(list, next, ws).0;
      assert r == AddBatch(l, n, ws[1..]).0;
      var i :| 0 <= i < |l| && (l[i].ssid == w.ssid || l[i].bssid == w.bssid) by {
        match MatchIndex(list, w.ssid, w.bssid)
        case Some(m) => assert l[m].ssid == list[m].ssid && l[m].bssid == list[m].bssid;
        case None => assert l[|list|] == w.(count := next);
      }
      assert r[i].ssid == l[i].ssid && r[i].bssid == l[i].bssid;
      assert Known(r, ws[0]);
      forall j | 1 <= j < |ws| ensures Known(r, ws[j]) {
        assert ws[j] == ws[1..][j - 1];
      }
    }
  }

  /** The inner loop of `scanForWLANS`: each network of one scan, built and added in order. */
  method AddScan(list: WlanList, networks: seq<RawNetwork>)
    requires list.Valid()
    modifies list, list.wlans
    ensures list.Valid()
    ensures forall k :: 0 <= k < |list.wlans| ==> list.wlans[k] in old(list.wlans) || fresh(list.wlans[k])
    ensures (list.Snapshot(), list.count) == AddBatch(old(list.Snapshot()), old(list.count), networks)
  {
    var j := 0;
    while j < |networks|
      invariant 0 <= j <= |networks|
      invariant list.Valid()
      invariant forall k :: 0 <= k < |list.wlans| ==> list.wlans[k] in old(list.wlans) || fresh(list.wlans[k])
      invariant AddBatch(list.Snapshot(), list.count, networks[j..]) ==
                AddBatch(old(list.Snapshot()), old(list.count), networks)
    {
      var w := networks[j];
      var lan := new Wlan(w.ssid, Hex(w.bssid), w.channel, w.rssi, w.security, w.hidden);
      assert lan.Record() == NetworkOf(w);
      assert networks[j..][1..] == networks[j + 1..];
      list.AddItem(lan);
      j := j + 1;
    }
  }

  /**
   * `scanForWLANS`: `iterations` scans, each reported network added to the
   * list. The one-second pause between scans is not modelled.
   */
  method ScanForWlans(list: WlanList, iterations: int, scan: nat -> seq<RawNetwork>)
    requires list.Valid()
    modifies list, list.wlans
    ensures list.Valid()
    ensures (list.Snapshot(), list.count) == ScanRounds(old(list.Snapshot()), old(list.count), scan, 0, iterations)
  {
    var left := iterations;
    var round: nat := 0;
    while left > 0
      invariant list.Valid()
      invariant forall k :: 0 <= k < |list.wlans| ==> list.wlans[k] in old(list.wlans) || fresh(list.wlans[k])
      invariant ScanRounds(list.Snapshot(), list.count, scan, round, left) ==
                ScanRounds(old(list.Snapshot()), old(list.count), scan, 0, iterations)
      decreases left
    {
      AddScan(list, scan(round));
      round := round + 1;
      left := left - 1;
    }
  }

  /** The first network called `ssid` in one scan's report. */
  function FirstWithSsid(ws: seq<RawNetwork>, ssid: string): (r: Option<RawNetwork>)
    ensures r.Some? ==> exists k :: 0 <= k < |ws| && ws[k] == r.value && r.value.ssid == ssid &&
                                    forall j :: 0 <= j < k ==> ws[j].ssid != ssid
    ensures r.None? <==> forall k :: 0 <= k < |ws| ==> ws[k].ssid != ssid
  {
    if ws == [] then None
    else if ws[0].ssid == ssid then Some(ws[0])
    else
      var r := FirstWithSsid(ws[1..], ssid);
      assert r.Some? ==> exists k :: 1 <= k < |ws| && ws[k] == r.value && r.value.ssid == ssid &&
                                     forall j :: 0 <= j < k ==> ws[j].ssid != ssid by {
        if r.Some? {
          var k :| 0 <= k < |ws[1..]| && ws[1..][k] == r.value && r.value.ssid == ssid &&
                   forall j :: 0 <= j < k ==> ws[1..][j].ssid != ssid;
          assert ws[k + 1] == r.value;
          forall j | 0 <= j < k + 1 ensures ws[j].ssid != ssid {
            if j > 0 { assert ws[j] == ws[1..][j - 1]; }
          }
        }
      }
      r
  }

  /** Whichever entry is the first called `ssid` is the one `FirstWithSsid` reports. */
  lemma FirstWithSsidAt(ws: seq<RawNetwork>, ssid: string, k: nat)
    requires k < |ws| && ws[k].ssid == ssid
    requires forall j :: 0 <= j < k ==> ws[j].ssid != ssid
    ensures FirstWithSsid(ws, ssid) == Some(ws[k])
  {
    var r := FirstWithSsid(ws, ssid);
    var k' :| 0 <= k' < |ws| && ws[k'] == r.value && r.value.ssid == ssid &&
              forall j :: 0 <= j < k' ==> ws[j].ssid != ssid;
    assert ws[k'].ssid == ssid && ws[k].ssid == ssid;
  }

  /** No network in the report is called `ssid`. */
  predicate LacksSsid(ws: seq<RawNetwork>, ssid: string)
  {
    forall j :: 0 <= j < |ws| ==> ws[j].ssid != ssid
  }

  /** `scanForSpecificWLAN` on records: the first match of the first scan that has one. */
  function FindNetwork(ssid: string, scan: nat -> seq<RawNetwork>, round: nat, iterations: int): (r: Option<WlanRecord>)
    ensures r.Some? ==> r.value.ssid == ssid && r.value.count == 0
    decreases iterations
  {
    if iterations <= 0 then None
    else match FirstWithSsid(scan(round), ssid)
      case Some(w) => Some(NetworkOf(w))
      case None => FindNetwork(ssid, scan, round + 1, iterations - 1)
  }

  /**
   * The search returns the network of the first report, from `round` on,
   * that has one called `ssid`, and within it the first entry so called.
   */
  lemma {:induction false} FindNetworkFirst(ssid: string, scan: nat -> seq<RawNetwork>, round: nat, iterations: int,
                                            i: nat, k: nat)
    requires round <= i < round + iterations
    requires k < |scan(i)| && scan(i)[k].ssid == ssid
    requires forall j :: 0 <= j < k ==> scan(i)[j].ssid != ssid
    requires forall r: nat :: round <= r < i ==> LacksSsid(scan(r), ssid)
    ensures FindNetwork(ssid, scan, round, iterations) == Some(NetworkOf(scan(i)[k]))
    decreases iterations
  {
    if i == round {
      FirstWithSsidAt(scan(i), ssid, k);
    } else {
      assert LacksSsid(scan(round), ssid);
      FindNetworkFirst(ssid, scan, round + 1, iterations - 1, i, k);
    }
  }

  /** The search finds the network exactly when one of the `iterations` scans reports it. */
  lemma {:induction false} FindNetworkComplete(ssid: string, scan: nat -> seq<RawNetwork>, round: nat, iterations: int)
    ensures FindNetwork(ssid, scan, round, iterations).Some? <==>
      exists i: nat, k :: round <= i < round + iterations && 0 <= k < |scan(i)| && scan(i)[k].ssid == ssid
    decreases iterations
  {
    if iterations > 0 {
      FindNetworkComplete(ssid, scan, round + 1, iterations - 1);
      if FirstWithSsid(scan(round), ssid).None? {
        if exists i: nat, k :: round <= i < round + iterations && 0 <= k < |scan(i)| && scan(i)[k].ssid == ssid {
          var i: nat, k :| round <= i < round + iterations && 0 <= k < |scan(i)| && scan(i)[k].ssid == ssid;
          assert i != round;
        }
      } else {
        var w := FirstWithSsid(scan(round), ssid).value;
        var k :| 0 <= k < |scan(round)| && scan(round)[k] == w;
        assert scan(round)[k].ssid == ssid;
      }
    }
  }

  /**
   * `scanForSpecificWLAN`: up to `iterations` scans, returning a new `WLAN`
   * for the first network called `ssid`, or null when none of them had one.
   */
  method ScanForSpecificWlan(ssid: string, iterations: int, scan: nat -> seq<RawNetwork>) returns (r: Wlan?)
    ensures r == null <==> FindNetwork(ssid, scan, 0, iterations).None?
    ensures r != null ==> fresh(r) && r.Record() == FindNetwork(ssid, scan, 0, iterations).value
  {
    var left := iterations;
    var round: nat := 0;
    while left > 0
      invariant FindNetwork(ssid, scan, round, left) == FindNetwork(ssid, scan, 0, iterations)
      decreases left
    {
      var networks := scan(round);
      var j := 0;
      while j < |networks|
        invariant 0 <= j <= |networks|
        invariant FirstWithSsid(networks[j..], ssid) == FirstWithSsid(networks, ssid)
      {
        var w := networks[j];
        var lan := new Wlan(w.ssid, Hex(w.bssid), w.channel, w.rssi, w.security, w.hidden);
        if lan.ssid == ssid {
          assert lan.Record() == NetworkOf(w);
          return lan;
        }
        assert networks[j..][1..] == networks[j + 1..];
        j := j + 1;
      }
      round := round + 1;
      left := left - 1;
    }
    return null;
  }
}
