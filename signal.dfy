/**
 * The signal tiers: both BLE devices and WLANs colour their list line by the
 * received signal strength, with the same thresholds in dBm.
 */
module Signal {
  import opened DisplayHelper

  /**
   * GREEN above -67, YELLOW above -70, ORANGE above -80, RED otherwise; the
   * source's separate branch for values above -90 also yields RED, so the
   * two weakest buckets are one.
   */
  function RssiColor(rssi: int): (c: int)
    ensures c == ColorGreen <==> rssi > -67
    ensures c == ColorYellow <==> -70 < rssi <= -67
    ensures c == ColorOrange <==> -80 < rssi <= -70
    ensures c == ColorRed <==> rssi <= -80
  {
    if rssi > -67 then ColorGreen
    else if rssi > -70 then ColorYellow
    else if rssi > -80 then ColorOrange
    else if rssi > -90 then ColorRed
    else ColorRed
  }

  /** How good a tier colour is: RED 0, ORANGE 1, YELLOW 2, GREEN 3. */
  function Rank(c: int): nat
  {
    if c == ColorGreen then 3
    else if c == ColorYellow then 2
    else if c == ColorOrange then 1
    else 0
  }

  /** A stronger signal never gets a worse tier. */
  lemma RssiColorMonotone(a: int, b: int)
    requires a <= b
    ensures Rank(RssiColor(a)) <= Rank(RssiColor(b))
  {
  }

  /** The boundaries are strict: -67 is already YELLOW; -85, -90 and -95 are all RED. */
  lemma RssiColorBoundaries()
    ensures RssiColor(-66) == ColorGreen && RssiColor(-67) == ColorYellow
    ensures RssiColor(-70) == ColorOrange && RssiColor(-80) == ColorRed
    ensures RssiColor(-85) == RssiColor(-90) == RssiColor(-95) == ColorRed
  {
  }
}
