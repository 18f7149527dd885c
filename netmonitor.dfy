/**
 * The network monitor's own logic: the list item wrapping one `WLAN`, the
 * graph scaling, and one pass of the single-network watch loop.
 */
module NetMonitor {
  import opened Wrappers
  import opened DisplayHelper
  import opened HexCodec
  import Signal
  import WifiTools

  /** One network in the list box (`LANItem`). */
  class LanItem {
    var wlan: WifiTools.Wlan

    constructor (wlan: WifiTools.Wlan)
      ensures this.wlan == wlan
    {
      this.wlan := wlan;
    }

    /** `getColor`: the network's signal tier, the same tiers as a BLE device's. */
    function GetColor(): (c: int)
      reads this, wlan
      ensures c == Signal.RssiColor(wlan.rssi)
      ensures c in {ColorGreen, ColorYellow, ColorOrange, ColorRed}
    {
      Signal.RssiColor(wlan.rssi)
    }

    /**
     * `getName`: the SSID, or the BSSID for a hidden network; padded, it is
     * exactly the first column of the network's list line.
     */
    function GetName(): (r: string)
      reads this
      ensures wlan.ssid != "" ==> r == wlan.ssid
      ensures wlan.ssid == "" ==> r == wlan.bssid
      ensures r == "" <==> wlan.ssid == "" && wlan.bssid == ""
    {
      if wlan.ssid == "" then wlan.bssid else wlan.ssid
    }

    /** `__str__`: the network's own line. */
    method ToString() returns (r: string)
      ensures r == WifiTools.Line(wlan.Record())
    {
      r := wlan.ToString();
    }
  }

  /** The padded display name is the head of the list line. */
  lemma NameHeadsLine(item: LanItem)
    ensures WifiTools.Pad24(item.GetName()) == WifiTools.Line(item.wlan.Record())[..WifiTools.FieldWidth]
  {
  }

  function Abs(v: int): (r: nat)
    ensures r == v || r == -v
  {
    if v < 0 then -v else v
  }

  /** `scaleValue`: `abs(value) + start`, but never more than `stop`. */
  function ScaleValue(value: int, start: int, stop: int): (r: int)
    ensures r <= stop
    ensures r <= Abs(value) + start
    ensures r == stop || r == Abs(value) + start
  {
    var result := Abs(value) + start;
    if result > stop then stop else result
  }

  /** A weaker signal (larger magnitude) is drawn at least as low. */
  lemma ScaleValueMonotone(a: int, b: int, start: int, stop: int)
    requires Abs(a) <= Abs(b)
    ensures ScaleValue(a, start, stop) <= ScaleValue(b, start, stop)
  {
  }

  /** When `start <= stop` the plotted value stays within `start .. stop`. */
  lemma ScaleValueInRange(value: int, start: int, stop: int)
    requires start <= stop
    ensures start <= ScaleValue(value, start, stop) <= stop
  {
  }

  /** The watch loop's counters: passes since the last sample, and the graph's x. */
  datatype WatchState = WatchState(count: nat, xpos: int)

  /** How one pass of the watch loop ends: leaving with its return value, or going on. */
  datatype Pass = Leave(viewOthers: bool) | Next(state: WatchState, sampled: bool)

  /** The graph's x after a sample: two further right, back to `startx` past the width. */
  function Advance(xpos: int, graphWidth: int, startx: int): (x: int)
    ensures x == xpos + 2 || x == startx
    ensures x > graphWidth ==> x == startx
  {
    if xpos + 2 > graphWidth then startx else xpos + 2
  }

  /**
   * One pass of `watchSingleNetwork`'s loop: Cancel leaves with `False`,
   * else Select leaves with `True`; every twentieth pass samples.
   */
  function WatchStep(s: WatchState, cancel: bool, select: bool, graphWidth: int, startx: int): (p: Pass)
    ensures p == Leave(false) <==> cancel
    ensures p == Leave(true) <==> !cancel && select
    ensures p.Next? ==> (p.sampled <==> s.count % 20 == 0)
    ensures p.Next? && !p.sampled ==> p.state == WatchState(s.count + 1, s.xpos)
  {
    if cancel then Leave(false)
    else if select then Leave(true)
    else if s.count % 20 == 0 then Next(WatchState(1, Advance(s.xpos, graphWidth, startx)), true)
    else Next(WatchState(s.count + 1, s.xpos), false)
  }

  /** The graph's x never passes the graph width once it starts within it. */
  lemma WatchKeepsXInGraph(s: WatchState, cancel: bool, select: bool, graphWidth: int, startx: int)
    requires s.xpos <= graphWidth && startx <= graphWidth
    ensures WatchStep(s, cancel, select, graphWidth, startx).Next? ==>
      WatchStep(s, cancel, select, graphWidth, startx).state.xpos <= graphWidth
  {
  }

  /** The pass counter stays within 1 .. 20 after the first pass, so a sample comes every 20 passes. */
  lemma WatchCountCycles(s: WatchState, graphWidth: int, startx: int)
    requires s.count <= 20
    ensures WatchStep(s, false, false, graphWidth, startx).Next?
    ensures 1 <= WatchStep(s, false, false, graphWidth, startx).state.count <= 20
    ensures WatchStep(s, false, false, graphWidth, startx).sampled <==> s.count == 0 || s.count == 20
  {
  }

  /** Idle passes from a fresh sample reach the next sample after 19 passes without one. */
  lemma {:induction false} IdlePasses(s: WatchState, k: nat, graphWidth: int, startx: int)
    requires 1 <= s.count && s.count + k <= 20
    ensures Passes(s, k, graphWidth, startx) == (WatchState(s.count + k, s.xpos), 0)
    decreases k
  {
    if k > 0 {
      IdlePasses(WatchState(s.count + 1, s.xpos), k - 1, graphWidth, startx);
    }
  }

  /** `k` passes without a button: the state they reach and how many of them sampled. */
  function Passes(s: WatchState, k: nat, graphWidth: int, startx: int): (r: (WatchState, nat))
    ensures r.1 <= k
    decreases k
  {
    if k == 0 then (s, 0)
    else
      var p := WatchStep(s, false, false, graphWidth, startx);
      var rest := Passes(p.state, k - 1, graphWidth, startx);
      (rest.0, rest.1 + if p.sampled then 1 else 0)
  }

  /**
   * One pass of `watchSingleNetwork`'s loop on `item`, with the buttons it
   * reads and the networks its one re-scan reports. A re-scan that does
   * not find the SSID keeps the previous `WLAN`; `y` is the plotted value.
   */
  method WatchPass(item: LanItem, s: WatchState, cancel: bool, select: bool, networks: seq<WifiTools.RawNetwork>,
                   graphWidth: int, graphHeight: int, startx: int)
    returns (p: Pass, y: Option<int>)
    modifies item
    ensures p == WatchStep(s, cancel, select, graphWidth, startx)
    ensures p.Next? && p.sampled && WifiTools.FirstWithSsid(networks, old(item.wlan).ssid).Some? ==>
      fresh(item.wlan) && item.wlan.Record() == WifiTools.NetworkOf(WifiTools.FirstWithSsid(networks, old(item.wlan).ssid).value)
    ensures !(p.Next? && p.sampled && WifiTools.FirstWithSsid(networks, old(item.wlan).ssid).Some?) ==>
      item.wlan == old(item.wlan)
    ensures y == if p.Next? && p.sampled then Some(ScaleValue(item.wlan.rssi, 100, graphHeight)) else None
  {
    if cancel {
      return Leave(false), None;
    }
    if select {
      return Leave(true), None;
    }
    var count := s.count;
    var xpos := s.xpos;
    var sampled := false;
    y := None;
    if count % 20 == 0 {
      sampled := true;
      var lan := WifiTools.ScanForSpecificWlan(item.wlan.ssid, 1, _ => networks);
      if lan == null {
        lan := item.wlan;
      } else {
        item.wlan := lan;
      }
      y := Some(ScaleValue(lan.rssi, 100, graphHeight));
      xpos := xpos + 2;
      if xpos > graphWidth {
        xpos := startx;
      }
      count := 0;
    }
    count := count + 1;
    p := Next(WatchState(count, xpos), sampled);
  }
}
