# Network monitor core, modelled in Dafny

This project models the logic of a small handheld network monitor written in
MicroPython for a Raspberry Pi Pico W with a 320 by 240 display and four buttons.
The monitor lists nearby Bluetooth Low Energy (BLE) devices and wireless networks
(WLANs), and can track the signal of one network over time. The model covers
these parts:

- **BLE devices** (`bletools.dfy`, module `BleTools`). `BLEItem.decode` walks an
  advertising payload as AD structures: a length byte, a type byte, then the data
  bytes. This is the format of section 11 of Vol 3, Part C of the Bluetooth Core
  Specification. The walk turns each structure into a tagged field and takes the
  device name from the name structures. `BLEList.addItem` keeps one entry per
  address. `BLEScanner` holds the address filter and the result list.
- **The WLAN registry** (`wifitools.dfy`, module `WifiTools`). `WLAN` formats one
  network's line. `WLANList.addItem` merges repeated sightings by SSID or BSSID
  and numbers new networks. `sortItems` reorders the list. The two scan loops
  take the driver's scan results as a parameter.
- **The list box** (`display.dfy`, module `Gui`). This covers panel geometry,
  the window of items `fillListBox` draws, and the cursor/window state machine of
  `ListBoxPanel.draw` under the Up, Down, Select and Cancel buttons.
- **The monitor's own logic** (`netmonitor.dfy`, module `NetMonitor`). This
  covers the list item for a network, graph scaling, and one pass of the
  single-network watch loop.
- **Shared pieces.**
  - Python's indexing, slicing, `str(int)` and right-aligned formatting (`pylib.dfy`).
  - `bytes.hex()` and `int(pair, 16)` (`hex.dfy`), with round-trip lemmas.
  - A stable descending insertion sort that stands for Python's `list.sort(reverse=True)` (`sorting.dfy`).
  - The colour codes (`displayhelper.dfy`) and the signal tiers shared by BLE devices and networks (`signal.dfy`).

Where the source changes objects in place, the model does too.

- `BLEItem`, `BLEList`, `BLEScanner`, `WLAN`, `WLANList`, `Panel`,
  `ListBoxPanel` and `LANItem` are classes. Each class's methods state their
  effect through a pure function of the old state. For example, `BleList.AddItem`
  ends in the state `AddSighting` gives, and `ListBoxPanel.Draw` ends where `Run`
  ends. The lemmas about those functions carry the properties.
- Button readings and scan results are inputs:
  - `draw` takes a finite sequence of button readings;
  - a list-box refresh is a function of the tick count at which it is called;
  - `scanForWLANS` takes the k-th scan's report as `scan(k)`.
- Python exceptions become explicit results. An `IndexError` in `decode` is a
  `failed` flag, and `__getitem__` returns `StopIteration` or `IndexError`.

Three behaviours of the code worth knowing, which the model keeps:
- `decode` raises `IndexError` on a payload that ends in a lone length byte, and on
  a Service ID structure with fewer than two data bytes. It does not stop
  gracefully. The updates it made before raising stay (`DecodeFailsWhen`,
  `LoneLengthByteExample`).
- `WLANList.addItem` compares SSIDs even when both are empty, so hidden networks
  merge (`HiddenNetworksMerge`).
- AD types 0x19 (Appearance) and 0x1A (Advertising Interval) have constants but no
  branch in `decode`. They are stored under their raw type byte, like every other
  unlisted type.

## Model

| member | source | states |
|---|---|---|
| `PyLib.Index` | wifitools.py:33-34 | Python list indexing: an item for `-len <= i < len`, counted from the end for negative `i`; `None` (IndexError) otherwise |
| `PyLib.GetItem` | wifitools.py:75-84 | `__getitem__`: the item for in-range indices (negative ones from the end), `StopIteration` exactly when `index >= len`, `IndexError` exactly when `index < -len` |
| `PyLib.Slice` | bletools.py:152 | `s[lo:hi]` clamps to the length: its length is `min(hi,len)-lo` or 0, and its elements are `s[lo+k]` |
| `PyLib.From` | bletools.py:178 | `s[lo:]`: empty past the end, else the elements from `lo` on |
| `PyLib.IntToString` | wifitools.py:36 | `str(n)` is non-empty, all digits for `n >= 0`, and a `-` followed by digits for `n < 0` |
| `PyLib.NatToStringRoundTrip` | wifitools.py:36 | reading the decimal text of `n` back gives `n` |
| `PyLib.IntToStringInjective` | wifitools.py:36 | different integers have different decimal texts |
| `PyLib.RightAlign` | wifitools.py:42 | `f"{x:>w}"`: length `max(len, w)`, the text at the end, spaces before it |
| `PyLib.Spaces` | wifitools.py:21-22 | the padding is `n` spaces |
| `PyLib.Upper` | bletools.py:142 | ASCII upper case: `a`..`z` become `A`..`Z` and every other character stays, with the length kept; that is what `.upper()` does to the hexadecimal text it is applied to |
| `HexCodec.Hex` | bletools.py:76-82 | `bytes(x).hex()` gives two characters per byte |
| `HexCodec.HexToBytes` | bletools.py:147-150 | pairing hex text and applying `int(pair, 16)` gives one byte per pair |
| `HexCodec.HexRoundTrip` | bletools.py:147-150 | the hex of any bytes is well formed hex, and parsing it gives the bytes back |
| `HexCodec.HexOfHexToBytes` | bletools.py:158-160 | lower-case hex text is the hex of its own bytes, so `"".join` of the pairs of an entry is the hex of its data bytes |
| `HexCodec.HexAppend` | bletools.py:158-160 | hex distributes over concatenation |
| `Signal.RssiColor` | bletools.py:93-103 | GREEN exactly above -67, YELLOW exactly in (-70, -67], ORANGE exactly in (-80, -70], RED exactly at -80 and below |
| `Signal.RssiColorMonotone` | netmonitor.py:16-26 | a stronger signal never gets a worse tier |
| `Signal.RssiColorBoundaries` | netmonitor.py:16-26 | -67 is YELLOW, -70 ORANGE, -80 RED, and -85, -90 and -95 are all RED |
| `BleTools.DecodeName` | bletools.py:108-109 | `decodeName`: one character per byte, with that byte as its code |
| `BleTools.LeSwap16` | bletools.py:131-142 | defined (no IndexError) exactly with at least two bytes; then the upper-case 4-digit hex of the little-endian value of the first two bytes |
| `BleTools.LittleEndianDigits` | bletools.py:141-142 | the hex of `[hi, lo]` is the four digits of `lo + 256*hi` |
| `BleTools.EntryField` | bletools.py:151-177 | a structure yields a field unless it is a Service ID with fewer than two data bytes, which raises |
| `BleTools.RunCharacterized` | bletools.py:148-178 | applying structures in order: the name is that of the last applied name structure, the fields are the applied fields each added by `_addData`, and the run fails exactly when a structure raises |
| `BleTools.DecodeBytesCharacterized` | bletools.py:145-178 | the decode of a payload, in terms of its structure walk |
| `BleTools.DecodeBytesStep` | bletools.py:148-178 | one loop step: tag from the byte after the length, value from the next `length-1` bytes (cut at the end), continue after `length+1` bytes |
| `BleTools.SegmentTruncates` | bletools.py:147-178 | a declared length that overruns the buffer gives the remaining bytes as the value and ends the walk |
| `BleTools.SegmentEncode` | bletools.py:147-178 | walking a payload laid out as length/type/data structures gives back exactly those structures |
| `BleTools.DecodeFailsWhen` | bletools.py:141-150 | decode raises exactly when the walk ends on a lone length byte or meets a short Service ID |
| `BleTools.DecodeIdempotent` | bletools.py:180-181 | decoding the same payload again leaves name and fields unchanged, so every `__str__` call is harmless |
| `BleTools.DecodeKeepsFields` | bletools.py:126-129 | decode never clears, replaces or reorders fields (old fields are a prefix), and keeps tags unique |
| `BleTools.AddFieldFacts` | bletools.py:126-129 | `_addData` keeps the old fields as a prefix, makes the tag present, and keeps tags unique |
| `BleTools.AddAllUnique` | bletools.py:126-129 | adding any fields one by one keeps tags unique |
| `BleTools.AddAllAbsorbed` | bletools.py:126-129 | fields whose tags are all present change nothing: the first value seen is kept |
| `BleTools.DecodeNameIsLast` | bletools.py:151-156 | after a walk that did not raise, the name is that of the last Short or Complete Name structure |
| `BleTools.DecodeWithoutNames` | bletools.py:77 | without name structures the name stays what it was (the hex address for a new device) |
| `BleTools.LastNameIdempotent` | bletools.py:151-156 | replaying the name structures a second time does not change the name |
| `BleTools.NamePrecedenceExample` | bletools.py:151-156 | ShortName "AA" then CompleteName "BB" gives name "BB" with both fields kept |
| `BleTools.NestServiceIdExample` | bletools.py:163-171 | Service ID bytes AF FE map to "Nest Labs Inc" |
| `BleTools.UnknownServiceIdExample` | bletools.py:163-171 | an unknown Service ID stays as its swapped upper-case hex, and bytes after the second are ignored |
| `BleTools.LoneLengthByteExample` | bletools.py:148-150 | a final lone length byte raises after the earlier fields are recorded |
| `BleTools.ShortServiceIdExample` | bletools.py:141 | a one-byte Service ID raises before anything is recorded |
| `BleTools.MakeAscii` | bletools.py:292-306 | `makeAscii`: one character per hex pair; letters and digits stay, everything else becomes `_` |
| `BleTools.MakeAsciiOfText` | bletools.py:292-306 | on the hex of letters and digits, `makeAscii` equals `decodeName` |
| `BleTools.Sighting` | bletools.py:75-83 | a new item: the payload is stored as hex that parses back to the payload, the name is the address, and there are no fields |
| `BleTools.FindAddr` | bletools.py:230-231 | the first device with the address, or none exactly when no device has it |
| `BleTools.AddSightingKeepsInvariant` | bletools.py:224-239 | addresses stay unique and payloads well formed |
| `BleTools.AddSightingUpdatesInPlace` | bletools.py:230-236 | a known address: same length and order, other devices untouched, new rssi/type/payload, old fields kept in front |
| `BleTools.AddSightingAppends` | bletools.py:237-239 | a new address is appended once decoded, and the second decode is a no-op; it is not appended when decode raised |
| `BleTools.RepeatedSightingMerges` | bletools.py:230-236 | two sightings of one address give one device with the second rssi |
| `BleTools.DeviceLineColumns` | bletools.py:182 | a tab-free name gives a device line with exactly three tabs (four columns) |
| `BleTools.BleItem.constructor` | bletools.py:75-83 | the new item's state is `Sighting` |
| `BleTools.BleItem.GetAddrType` | bletools.py:85-91 | PUBLIC exactly for type 0, RANDOM exactly for 1, UNKNOWN exactly otherwise |
| `BleTools.BleItem.GetColor` | bletools.py:93-103 | the tier of `RssiColor`, always one of the four tier colours |
| `BleTools.BleItem.AddData` | bletools.py:115-129 | a present tag leaves the fields unchanged; otherwise the field is appended |
| `BleTools.BleItem.Decode` | bletools.py:145-178 | the new name and fields are those of `DecodeSpec` on the stored payload; the result says whether it raised |
| `BleTools.BleItem.ToString` | bletools.py:180-182 | decodes, then gives name, address type, advertising type and rssi separated by tabs |
| `BleTools.BleList.constructor` | bletools.py:185-187 | an empty list with index -1 |
| `BleTools.BleList.Length` | bletools.py:218-222 | the number of devices |
| `BleTools.BleList.Get` | bletools.py:206-216 | Python indexing: the element at `index` for `0 <= index < len` and at `len + index` for `-len <= index < 0`, StopIteration exactly at or past the end, IndexError exactly below `-len` |
| `BleTools.BleList.Iter` | bletools.py:189-194 | restarts iteration at -1 |
| `BleTools.BleList.Next` | bletools.py:196-204 | advances the index and gives the device there, or `None` for StopIteration |
| `BleTools.BleList.Find` | bletools.py:230-231 | the loop finds the position of `FindAddr` |
| `BleTools.BleList.Refresh` | bletools.py:231-236 | the matched device takes the new rssi, type and payload and is decoded again; nothing else changes |
| `BleTools.BleList.AddItem` | bletools.py:224-239 | the new devices are those of `AddSighting`, addresses stay unique, and the list is unchanged or has the item appended |
| `BleTools.BleList.Append` | bletools.py:237-239 | a new device is decoded (for the "Found" message), decoded again, and appended unless a decode raised |
| `BleTools.BleScanner.constructor` | bletools.py:242-248 | no result list and no filter |
| `BleTools.BleScanner.StartScan` | bletools.py:270-279 | installs a fresh empty result list |
| `BleTools.BleScanner.SetFilter` | bletools.py:282-284 | sets the filter and installs a fresh empty result list |
| `BleTools.BleScanner.Irq` | bletools.py:253-264 | a scan result is added exactly when no filter is set or the address equals the filter; other events change nothing; no result list raises |
| `Sorting.Insert` | wifitools.py:129-132 | inserting adds exactly one element: same multiset plus `x` |
| `Sorting.SortDesc` | wifitools.py:129-132 | the sort is a permutation (same length, same multiset) |
| `Sorting.SortDescSorted` | wifitools.py:129-132 | the result is sorted descending by the key |
| `Sorting.SortDescStable` | wifitools.py:129-132 | elements with equal keys keep their order, as Python's stable sort does with `reverse=True` |
| `Sorting.SortDescOfSorted` | wifitools.py:129-132 | an already sorted list is left as it is |
| `Sorting.SortDescIdempotent` | wifitools.py:129-132 | sorting twice is sorting once |
| `Sorting.SortDescMap` | wifitools.py:129-132 | sorting pairs by a key of their first part, then projecting, is sorting the projections |
| `Sorting.SortDescMapMultiset` | wifitools.py:129-132 | whatever is projected from the elements, the sorted list yields the same multiset of values: the sort only reorders |
| `Sorting.SortDescDistinct` | wifitools.py:129-132 | a property distinct across the list stays distinct after sorting |
| `WifiTools.Pad24` | wifitools.py:19-28 | exactly 24 characters: the text's first 24, then spaces |
| `WifiTools.SecurityLabel` | wifitools.py:30-36 | labels for 0..7, negative codes indexing from the end, `None` (IndexError) exactly below -8, `str(code)` from 8 on |
| `WifiTools.SecurityLabelInjective` | wifitools.py:30-36 | different non-negative codes never share a label |
| `WifiTools.Line` | wifitools.py:38-43 | the first 24 characters are the padded SSID, or the padded BSSID for a hidden network (then nothing more); otherwise a tab, channel right-aligned to 2, a tab, rssi right-aligned to 3 |
| `WifiTools.LineColumns` | wifitools.py:38-43 | for channels below 100 and rssi in (-100, 0] a line is 31 characters with the second tab at index 27 |
| `WifiTools.Wlan.constructor` | wifitools.py:10-17 | the new network has count 0 |
| `WifiTools.Wlan.GetSsid` | wifitools.py:19-23 | the padding loop gives `Pad24(ssid)`; the width argument is ignored |
| `WifiTools.Wlan.GetBssid` | wifitools.py:24-28 | the padding loop gives `Pad24(bssid)`; the width argument is ignored |
| `WifiTools.Wlan.GetSecurity` | wifitools.py:30-36 | the label of `SecurityLabel` |
| `WifiTools.Wlan.ToString` | wifitools.py:38-43 | the line of `Line` |
| `WifiTools.MatchIndex` | wifitools.py:101-109 | the first entry whose SSID or BSSID equals the new one, or none exactly when no entry matches either |
| `WifiTools.AddNetworkKeepsInvariant` | wifitools.py:96-113 | counts stay distinct and below the next count, and SSIDs and BSSIDs stay distinct |
| `WifiTools.AddNetworkEffect` | wifitools.py:101-113 | an add either overwrites only rssi and channel of one matching entry (same length, counter unchanged), or appends with the next count exactly when nothing matches |
| `WifiTools.AddNetworkKeepsOrder` | wifitools.py:111-113 | before any sort, counts increase along the list |
| `WifiTools.SameSsidMerges` | wifitools.py:101-105 | ("Home", b1, 6, -60) then ("Home", b2, 11, -55) leaves one entry with rssi -55, channel 11 and bssid b1 |
| `WifiTools.HiddenNetworksMerge` | wifitools.py:102-105 | two hidden networks with different BSSIDs merge into one entry |
| `WifiTools.FirstMatchWins` | wifitools.py:101-109 | an earlier BSSID match wins over a later SSID match |
| `WifiTools.SortKeepsInvariant` | wifitools.py:123-132 | sorting keeps distinct counts and distinct SSIDs and BSSIDs |
| `WifiTools.NetworkOf` | wifitools.py:148 | a driver tuple becomes a network with the hex of its BSSID bytes (which parses back), and count 0 |
| `WifiTools.AddBatchKeepsInvariant` | wifitools.py:147-149 | adding a scan's networks keeps the registry invariants |
| `WifiTools.AddBatchKeepsKnown` | wifitools.py:147-149 | no known network is lost, and none changes its SSID, BSSID or count |
| `WifiTools.AddBatchCovers` | wifitools.py:147-149 | every reported network is afterwards known by its SSID or BSSID |
| `WifiTools.FirstWithSsid` | wifitools.py:168-171 | a result is the entry of the report at some index `k` with the SSID, and no entry before `k` has it; none exactly when no entry has it |
| `WifiTools.FirstWithSsidAt` | wifitools.py:168-171 | the first entry with the SSID is the one reported |
| `WifiTools.FindNetwork` | wifitools.py:166-175 | a result has the target SSID and count 0 |
| `WifiTools.FindNetworkFirst` | wifitools.py:166-175 | the search returns the network for the first entry with the SSID in the first scan that has one |
| `WifiTools.FindNetworkComplete` | wifitools.py:166-175 | the search finds a network exactly when one of the `iterations` scans reports the SSID |
| `WifiTools.WlanList.constructor` | wifitools.py:54-56 | an empty registry with counter 0 |
| `WifiTools.WlanList.Length` | wifitools.py:86-90 | the number of networks |
| `WifiTools.WlanList.Get` | wifitools.py:75-84 | Python indexing: the element at `index` for `0 <= index < len` and at `len + index` for `-len <= index < 0`, StopIteration exactly at or past the end, IndexError exactly below `-len` |
| `WifiTools.WlanList.Iter` | wifitools.py:58-63 | restarts iteration at -1 |
| `WifiTools.WlanList.Next` | wifitools.py:65-73 | advances the index and gives the network there, or `None` for StopIteration |
| `WifiTools.WlanList.Find` | wifitools.py:101-109 | the loop finds the position of `MatchIndex` |
| `WifiTools.WlanList.AddItem` | wifitools.py:96-113 | the new networks and counter are those of `AddNetwork`, the invariants hold, and the list is unchanged or has `lan` appended |
| `WifiTools.WlanList.SortItems` | wifitools.py:123-132 | the networks end in the order of the stable descending sort by the key (rssi by default), each network unchanged, and the list holds the same network objects as before |
| `WifiTools.WlanList.SortPlan` | wifitools.py:129-132 | sorting networks by their state's key lines them up with the sorted states |
| `WifiTools.AddScan` | wifitools.py:147-149 | one scan's networks are built and added in the order reported |
| `WifiTools.ScanForWlans` | wifitools.py:135-153 | exactly `iterations` scans, none when `iterations <= 0`, each network fed to `addItem` |
| `WifiTools.ScanForSpecificWlan` | wifitools.py:155-175 | a new network equal to `FindNetwork` (the first entry with the SSID in the first scan that has one, by `FindNetworkFirst`), or null exactly when no scan has one |
| `Gui.TitleShiftsTextArea` | display.py:36-44 | a title moves the text area down by one text height and keeps its bottom edge |
| `Gui.TitleCostsTwoEntries` | display.py:99-104 | a titled list box has exactly two fewer `maxTextEntries` than an untitled one |
| `Gui.MaxEntriesExample` | display.py:99-104 | on a 320 by 240 screen: 12 entries with a title, 14 without |
| `Gui.Display.constructor` | display.py:224-253 | list width and height are the bounds less twice the background margin |
| `Gui.Panel.constructor` | display.py:23-44 | a `None` title becomes "", `hasTitle` holds iff the title is non-empty, and a title adds the text height to `starty` and takes it from `height` |
| `Gui.Panel.ChangeTitle` | display.py:58-68 | the title changes only when `hasTitle` holds, so an untitled panel keeps "" |
| `Gui.VisibleCount` | display.py:111-123 | the rows drawn never exceed the list, and at least one is drawn when `start` is inside it |
| `Gui.VisibleWindow` | display.py:116-123 | with room for at least one entry, `fillListBox` draws `min(max, len-start)` items |
| `Gui.ListBoxPanel.constructor` | display.py:99-104 | an empty list and tabs, and `maxTextEntries = (height - starty) // 18 + 2` |
| `Gui.ListBoxPanel.SetList` | display.py:106-109 | the list is replaced; the tabs only when given |
| `Gui.ListBoxPanel.FillListBox` | display.py:111-125 | the loop draws item `start+k` at `y = starty + 18k`, exactly `VisibleCount` rows |
| `Gui.Up` | display.py:162-171 | Up moves the selected index (line + start) one back, or stays at 0 |
| `Gui.Down` | display.py:172-181 | Down never moves back, and moves the selected index by at most one |
| `Gui.Pick` | display.py:182-188 | Select gives the item at `line+start` exactly when it is inside the list, else `None` |
| `Gui.Refresh` | display.py:157-161 | a refresh changes only the list, only on ticks whose count is a multiple of 10, and never moves the cursor |
| `Gui.Press` | display.py:162-192 | the buttons of one pass: the loop ends exactly when neither Up nor Down is pressed and Select or Cancel is; Select ends it exactly when Up and Down are not; Select returns the item under the cursor; without Up or Down the cursor and window stay; the list is untouched and the count goes up by one |
| `Gui.Tick` | display.py:156-193 | one pass: the list after it is the refreshed list, Select returns the item under the cursor in that list, and the count goes up by one |
| `Gui.Run` | display.py:148-195 | a run that is still waiting has counted one tick per reading |
| `Gui.InitialInv` | display.py:148-155 | the start state (0, 0) meets the invariant when `max >= 1` |
| `Gui.TickKeepsInv` | display.py:156-193 | on a fixed list every tick keeps `line <= max-1`, `start == 0 or start+max <= len` and `line+start < len` (when `len > 0`) |
| `Gui.RunKeepsInv` | display.py:148-195 | on a fixed list the invariant holds after any run, and Select returns the item under the cursor |
| `Gui.SelectNeverMisses` | display.py:182-188 | on a fixed non-empty list Select never takes the out-of-range branch |
| `Gui.SelectorOnDrawnRow` | display.py:148-181 | under the invariant the selector line is one of the rows drawn |
| `Gui.DownExample` | display.py:172-181 | with 3 items and room for 5, three Downs reach line 2 and a fourth changes nothing |
| `Gui.ShrinkingRefreshBreaksInv` | display.py:157-161 | a refresh at tick 10 that shrinks 5 items to 2 leaves the cursor past the end, breaks the invariant, and Select returns `None` |
| `Gui.IdleTicks` | display.py:156-193 | ticks without buttons on an unchanged list only advance the count |
| `Gui.ListBoxPanel.Draw` | display.py:144-195 | the loop returns and leaves the list exactly as `Run` from (0, 0) does |
| `NetMonitor.LanItem.constructor` | netmonitor.py:11-14 | the item holds the given network |
| `NetMonitor.LanItem.GetColor` | netmonitor.py:16-26 | the tier of `RssiColor`, one of the four tier colours |
| `NetMonitor.LanItem.GetName` | netmonitor.py:28-31 | the SSID, or the BSSID when the SSID is empty; empty only when both are |
| `NetMonitor.LanItem.ToString` | netmonitor.py:33-34 | the network's own line |
| `NetMonitor.NameHeadsLine` | netmonitor.py:28-34 | the padded name is the first column of the item's line |
| `NetMonitor.ScaleValue` | netmonitor.py:39-43 | never above `stop`, never above `abs(value)+start`, and equal to one of them |
| `NetMonitor.ScaleValueMonotone` | netmonitor.py:39-43 | a larger magnitude is plotted at least as far |
| `NetMonitor.ScaleValueInRange` | netmonitor.py:92 | with `start <= stop` the plotted value lies in `start..stop` |
| `NetMonitor.Advance` | netmonitor.py:95-97 | x moves right by 2, or resets to `startx` once past the width |
| `NetMonitor.WatchStep` | netmonitor.py:75-100 | Cancel leaves with False exactly when pressed, Select leaves with True exactly when Cancel is not pressed; a pass samples exactly when `count % 20 == 0` |
| `NetMonitor.WatchKeepsXInGraph` | netmonitor.py:95-97 | x never exceeds the graph width once it starts inside it |
| `NetMonitor.WatchCountCycles` | netmonitor.py:80-100 | the pass counter stays in 1..20, and a pass samples exactly at 0 or 20 |
| `NetMonitor.IdlePasses` | netmonitor.py:80-100 | after a sample, the next 19 passes without buttons do not sample |
| `NetMonitor.WatchPass` | netmonitor.py:75-100 | one pass: the result of `WatchStep`; a sample replaces the network when the re-scan finds the SSID and keeps it otherwise; the plotted value is its scaled rssi |

## Left out

- Rendering is not modelled: all PicoGraphics calls (`set_pen`, `text`, `textAt`, `rectangle`, `line`, `update`, the LED and backlight), `displaySelector`'s coordinates, and `clearPanel`/`displayPanel`. `fillListBox` returns the rows it would draw instead.
- The radio and driver are not modelled: `bluetooth.BLE`, `gap_scan`, `irq` registration, `getMACAddress`, `stop_scan`, `network.WLAN().scan()` and `binascii`. Scan results are parameters.
- PyLib.Upper: upper-cases ASCII letters only; Python's Unicode-wide `str.upper` (which can change the length, as 'ß' to "SS") is not modelled, since its one use is on hexadecimal text.
- `time.sleep` and `gc` are left out: timing and memory do not change the logic.
- Interrupt concurrency between `_irq` and the UI loop is not modelled: `addItem` is one atomic step.
- `batterystate.py` and netmonitor.py's `systemStatus` are left out: floating-point voltage arithmetic over an ADC read.
- `BaseItem` is left out: it is a text/function/colour record, and the item callables are opaque. `LANItem` keeps only its `wlan`.
- netmonitor.py's module-level bootstrap, `networkDisplay`, `bluetoothDisplay` and the menu loop are left out: they are wiring.
- The `Display` button readers are left out: button readings are the `Buttons` inputs.
- `BLEItem.getName`, `BLEScanner.get_scan_results` and `WLAN.__repr__` are left out: each only returns a field (`name`, `results`) or is debug output.
- Dead code is left out: the quoted block after `scanForSpecificWLAN`, the unused IRQ/GATTS constants, `global stuff`, and the broken `__del__`.
- `Gui.ListBoxPanel.Draw`: the button readings are a finite sequence, and the result says whether the loop was still waiting when they ran out. The real loop polls for ever.
- `Gui.ListBoxPanel.Draw`: `asyncFunc` takes no arguments. The model gives it the tick count so that different calls can return different lists.
- `Gui.ListBoxPanel.FillListBox`: `start` is a natural number. `draw`, the only caller, never makes it negative, so Python's negative indexing for a negative start is not modelled.
- `WifiTools.WlanList.SortItems`: the key returns an integer. Keys of other comparable types are not modelled.
- `WifiTools.NetworkOf`: the SSID is taken as already-decoded text. The UTF-8 `decode()` of the driver's SSID bytes is not modelled.
- `WifiTools.WlanList.constructor`: `index` starts at -1. In the source, `index` exists only after `__iter__`.
- `BleTools.BleScanner.Irq`: the decode flag of `AddSighting` stands for the `IndexError` that would escape the handler. Nothing models what the radio stack does with it.
- `NetMonitor.WatchPass`: the re-scan's report is a parameter. The panel text and the graph line it draws are rendering.
