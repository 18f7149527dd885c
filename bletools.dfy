/**
 * BLE advertisement decoding and the BLE device registry.
 *
 * An advertising payload is a run of AD structures (section 11 of Vol 3,
 * Part C of the Bluetooth Core Specification): a length byte L, a type byte,
 * then L-1 data bytes. The decoder walks them left to right, records one
 * (tag, value) field per tag (the first seen wins) and overwrites the display
 * name on every Short or Complete Local Name structure (the last one wins).
 *
 * The specification is split in two: `Segment` is the walk over the bytes,
 * `Run` applies the structures it yields to the name and the field list.
 */
module BleTools {
  import opened Wrappers
  import opened PyLib
  import opened HexCodec
  import opened DisplayHelper
  import Signal

  const AddrTypePublic: int := 0
  const AddrTypeRandom: int := 1

  // Advertising PDU types; `decode` acts only on these five.
  const AdvInd: int := 0
  const AdvScanRsp: int := 4

  // AD types (Part A, section 1 of the Core Specification Supplement).
  const AdTypeFlags: Byte := 0x01
  const AdTypeServiceId: Byte := 0x02
  const AdTypeServiceIds: Byte := 0x03
  const AdTypeShortName: Byte := 0x08
  const AdTypeComplete: Byte := 0x09
  const AdTypePowerLevel: Byte := 0x0A
  const AdTypeServiceData: Byte := 0x16
  const AdTypeManData: Byte := 0xFF

  // Radio events delivered to the scanner's interrupt handler.
  const IrqScanResult: int := 5
  const IrqScanDone: int := 6

  /** A field tag: one of the named AD types, or the raw type byte for every other type. */
  datatype Tag = Named(name: string) | Raw(code: Byte)

  /** One `(tag, value)` pair of a device's `data` list. */
  datatype Field = Field(tag: Tag, value: string)

  /** One AD structure as the walk sees it: its type byte and the data bytes it gets. */
  datatype Entry = Entry(adType: Byte, value: seq<Byte>)

  /** The structures of a payload, and whether the walk ran into a lone length byte. */
  datatype Segmentation = Segmentation(entries: seq<Entry>, lone: bool)

  /** The device's name and fields after a decode, and whether the decode raised IndexError. */
  datatype Decoded = Decoded(name: string, fields: seq<Field>, failed: bool)

  /** `decodeName`: each data byte becomes the character with that code. */
  function DecodeName(bs: seq<Byte>): (r: string)
    ensures |r| == |bs|
    ensures forall k :: 0 <= k < |bs| ==> r[k] as int == bs[k]
  {
    if bs == [] then "" else [bs[0] as char] + DecodeName(bs[1..])
  }

  /** The four upper-case hexadecimal digits of a 16-bit number, most significant first. */
  function Hex16Upper(n: nat): string
    requires n < 0x1_0000
  {
    Upper([HexDigit(n / 4096), HexDigit(n / 256 % 16), HexDigit(n / 16 % 16), HexDigit(n % 16)])
  }

  /**
   * `_leSwap16`: the first two data bytes, second one first, as upper-case
   * hexadecimal, that is, the little-endian 16-bit value they hold. `None`
   * stands for the IndexError that fewer than two bytes raise.
   */
  function LeSwap16(value: seq<Byte>): (r: Option<string>)
    ensures r.Some? <==> |value| >= 2
    ensures |value| >= 2 ==> r.value == Hex16Upper(value[0] as int + 256 * value[1] as int)
  {
    if |value| < 2 then None
    else
      LittleEndianDigits(value[0], value[1]);
      Some(Upper(Hex([value[1], value[0]])))
  }

  lemma LittleEndianDigits(lo: Byte, hi: Byte)
    ensures Hex([hi, lo]) ==
      [HexDigit((lo + 256 * hi) / 4096), HexDigit((lo + 256 * hi) / 256 % 16),
       HexDigit((lo + 256 * hi) / 16 % 16), HexDigit((lo + 256 * hi) % 16)]
  {
    var n := lo + 256 * hi;
    assert n / 256 == hi && n % 256 == lo;
    assert n / 4096 == hi / 16 by {
      assert n == 4096 * (hi / 16) + (256 * (hi % 16) + lo);
    }
    assert n / 256 % 16 == hi % 16;
    assert n / 16 == 16 * hi + lo / 16;
    assert n / 16 % 16 == lo / 16;
    assert n % 16 == lo % 16;
    assert Hex([hi, lo]) == ByteHex(hi) + Hex([lo]);
    assert Hex([lo]) == ByteHex(lo) + Hex([]);
  }

  /** The small vendor table applied to a swapped Service ID; anything else stays as it is. */
  function ServiceName(swapped: string): string
  {
    if swapped == "FEAF" || swapped == "FEB0" then "Nest Labs Inc"
    else if swapped == "FE96" || swapped == "FE97" then "Tesla Motors"
    else if swapped == "1122" then "BasicPrinting"
    else swapped
  }

  /**
   * The field `decode` hands to `_addData` for one AD structure, or `None`
   * when the structure makes `decode` raise (a Service ID with fewer than two
   * data bytes).
   */
  function EntryField(e: Entry): (r: Option<Field>)
    ensures r.None? <==> e.adType == AdTypeServiceId && |e.value| < 2
  {
    var v := e.value;
    if e.adType == AdTypeComplete then Some(Field(Named("CompleteName"), DecodeName(v)))
    else if e.adType == AdTypeShortName then Some(Field(Named("ShortName"), DecodeName(v)))
    else if e.adType == AdTypeServiceData then Some(Field(Named("UUID"), Hex(v)))
    else if e.adType == AdTypeManData then Some(Field(Named("ManData"), Hex(v)))
    else if e.adType == AdTypeFlags then Some(Field(Named("Flags"), Hex(v)))
    else if e.adType == AdTypeServiceId then
      match LeSwap16(v)
      case None => None
      case Some(s) => Some(Field(Named("Service ID"), ServiceName(s)))
    else if e.adType == AdTypeServiceIds then Some(Field(Named("All Service IDs"), Hex(v)))
    else if e.adType == AdTypePowerLevel then Some(Field(Named("PowerLevel"), Hex(v)))
    else Some(Field(Raw(e.adType), Hex(v)))
  }

  predicate IsNameEntry(e: Entry)
  {
    e.adType == AdTypeComplete || e.adType == AdTypeShortName
  }

  /** The display name after one structure: replaced by a name structure, kept otherwise. */
  function NameAfter(e: Entry, name: string): string
  {
    if IsNameEntry(e) then DecodeName(e.value) else name
  }

  predicate HasTag(fields: seq<Field>, tag: Tag)
  {
    exists k :: 0 <= k < |fields| && fields[k].tag == tag
  }

  /** No tag appears twice. */
  predicate UniqueTags(fields: seq<Field>)
  {
    forall i, j :: 0 <= i < j < |fields| ==> fields[i].tag != fields[j].tag
  }

  /** What `_addData` does to the field list. */
  function AddField(fields: seq<Field>, f: Field): seq<Field>
  {
    if HasTag(fields, f.tag) then fields else fields + [f]
  }

  /**
   * The walk of `decode` over the payload bytes: the length byte, the type
   * byte after it, the data bytes `[2:length+1]` (cut short at the end of the
   * buffer), then on past `length+1` bytes. A final lone length byte is where
   * reading the type byte raises IndexError.
   */
  function Segment(bs: seq<Byte>): Segmentation
    decreases |bs|
  {
    if |bs| == 0 then Segmentation([], false)
    else if |bs| == 1 then Segmentation([], true)
    else
      var rest := Segment(From(bs, bs[0] as int + 1));
      Segmentation([Entry(bs[1], Slice(bs, 2, bs[0] as int + 1))] + rest.entries, rest.lone)
  }

  /** Applying the structures in order, stopping at the first one that raises. */
  function Run(es: seq<Entry>, name: string, fields: seq<Field>): Decoded
  {
    if es == [] then Decoded(name, fields, false)
    else
      match EntryField(es[0])
      case None => Decoded(name, fields, true)
      case Some(f) => Run(es[1..], NameAfter(es[0], name), AddField(fields, f))
  }

  /** The loop of `decode` on the payload bytes, from a given name and field list. */
  function DecodeBytes(bs: seq<Byte>, name: string, fields: seq<Field>): Decoded
  {
    var s := Segment(bs);
    var r := Run(s.entries, name, fields);
    r.(failed := r.failed || s.lone)
  }

  /** `decode`: nothing happens unless the advertising type is one of the five PDU types. */
  function DecodeSpec(advType: int, bs: seq<Byte>, name: string, fields: seq<Field>): Decoded
  {
    if AdvInd <= advType <= AdvScanRsp then DecodeBytes(bs, name, fields)
    else Decoded(name, fields, false)
  }

  /** One step of the walk, as the loop of `decode` takes it. */
  lemma DecodeBytesStep(bs: seq<Byte>, name: string, fields: seq<Field>)
    requires |bs| >= 2
    ensures var e := Entry(bs[1], Slice(bs, 2, bs[0] as int + 1));
            DecodeBytes(bs, name, fields) ==
              match EntryField(e)
              case None => Decoded(name, fields, true)
              case Some(f) => DecodeBytes(From(bs, bs[0] as int + 1), NameAfter(e, name), AddField(fields, f))
  {
    var s := Segment(bs);
    var rest := Segment(From(bs, bs[0] as int + 1));
    assert s.entries[1..] == rest.entries;
  }

  // ---------------------------------------------------------------------------
  // An independent description of the result, and what follows from it.

  /** The structures a run applies: all those before the first one that raises. */
  function Applied(es: seq<Entry>): (r: seq<Entry>)
    ensures |r| <= |es| && r == es[..|r|]
    ensures forall k :: 0 <= k < |r| ==> EntryField(r[k]).Some?
    ensures |r| < |es| ==> EntryField(es[|r|]).None?
  {
    if es == [] || EntryField(es[0]).None? then [] else [es[0]] + Applied(es[1..])
  }

  /** The fields the structures hand to `_addData`, in order. */
  function FieldsOf(es: seq<Entry>): seq<Field>
  {
    if es == [] then []
    else
      (match EntryField(es[0]) case Some(f) => [f] case None => []) + FieldsOf(es[1..])
  }

  /** `_addData` applied to each field in turn. */
  function AddAll(fields: seq<Field>, fs: seq<Field>): seq<Field>
    decreases |fs|
  {
    if fs == [] then fields else AddAll(AddField(fields, fs[0]), fs[1..])
  }

  /** The name given by the last name structure, or `name` when there is none. */
  function LastName(es: seq<Entry>, name: string): string
  {
    if es == [] then name
    else if IsNameEntry(es[|es| - 1]) then DecodeName(es[|es| - 1].value)
    else LastName(es[..|es| - 1], name)
  }

  lemma {:induction false} LastNameCons(e: Entry, es: seq<Entry>, name: string)
    ensures LastName([e] + es, name) == LastName(es, NameAfter(e, name))
    decreases |es|
  {
    var all := [e] + es;
    if es == [] {
      assert all[..0] == [];
    } else {
      assert all[|all| - 1] == es[|es| - 1];
      assert all[..|all| - 1] == [e] + es[..|es| - 1];
      LastNameCons(e, es[..|es| - 1], name);
    }
  }

  /**
   * A run is fully described without stepping: the name is that of the last
   * name structure applied, the fields are the applied structures' fields
   * added one by one, and the run fails exactly when some structure raises.
   */
  lemma {:induction false} RunCharacterized(es: seq<Entry>, name: string, fields: seq<Field>)
    ensures Run(es, name, fields) ==
      Decoded(LastName(Applied(es), name), AddAll(fields, FieldsOf(Applied(es))), |Applied(es)| < |es|)
  {
    if es != [] {
      match EntryField(es[0])
      case None =>
        assert Applied(es) == [];
      case Some(f) =>
        var e := es[0];
        RunCharacterized(es[1..], NameAfter(e, name), AddField(fields, f));
        assert Applied(es) == [e] + Applied(es[1..]);
        LastNameCons(e, Applied(es[1..]), name);
        assert FieldsOf(Applied(es)) == [f] + FieldsOf(Applied(es[1..])) by {
          assert Applied(es)[1..] == Applied(es[1..]);
        }
    }
  }

  /** The decode result in terms of the walk's structures. */
  lemma DecodeBytesCharacterized(bs: seq<Byte>, name: string, fields: seq<Field>)
    ensures var es := Segment(bs).entries;
            DecodeBytes(bs, name, fields) ==
              Decoded(LastName(Applied(es), name), AddAll(fields, FieldsOf(Applied(es))),
                      |Applied(es)| < |es| || Segment(bs).lone)
  {
    RunCharacterized(Segment(bs).entries, name, fields);
  }

  lemma {:induction false} LastNameIdempotent(es: seq<Entry>, name: string)
    ensures LastName(es, LastName(es, name)) == LastName(es, name)
    decreases |es|
  {
    if es != [] && !IsNameEntry(es[|es| - 1]) {
      LastNameIdempotent(es[..|es| - 1], name);
    }
  }

  /** Without any name structure the name is left as it was. */
  lemma {:induction false} LastNameWithoutNames(es: seq<Entry>, name: string)
    requires forall k :: 0 <= k < |es| ==> !IsNameEntry(es[k])
    ensures LastName(es, name) == name
    decreases |es|
  {
    if es != [] {
      LastNameWithoutNames(es[..|es| - 1], name);
    }
  }

  lemma AddFieldFacts(fields: seq<Field>, f: Field)
    ensures |fields| <= |AddField(fields, f)| && AddField(fields, f)[..|fields|] == fields
    ensures HasTag(AddField(fields, f), f.tag)
    ensures UniqueTags(fields) ==> UniqueTags(AddField(fields, f))
  {
    if !HasTag(fields, f.tag) {
      var r := fields + [f];
      assert r[|fields|].tag == f.tag;
    }
  }

  /** The field list only ever grows at its end: earlier fields keep their place and value. */
  lemma {:induction false} AddAllExtends(fields: seq<Field>, fs: seq<Field>)
    ensures |fields| <= |AddAll(fields, fs)| && AddAll(fields, fs)[..|fields|] == fields
    decreases |fs|
  {
    if fs != [] {
      var g := AddField(fields, fs[0]);
      AddFieldFacts(fields, fs[0]);
      AddAllExtends(g, fs[1..]);
      assert AddAll(fields, fs)[..|g|][..|fields|] == AddAll(fields, fs)[..|fields|];
    }
  }

  lemma HasTagPrefixed(fields: seq<Field>, longer: seq<Field>, tag: Tag)
    requires |fields| <= |longer| && longer[..|fields|] == fields
    requires HasTag(fields, tag)
    ensures HasTag(longer, tag)
  {
    var k :| 0 <= k < |fields| && fields[k].tag == tag;
    assert longer[k] == fields[k];
  }

  /** Tags stay unique however many fields are added. */
  lemma {:induction false} AddAllUnique(fields: seq<Field>, fs: seq<Field>)
    requires UniqueTags(fields)
    ensures UniqueTags(AddAll(fields, fs))
    decreases |fs|
  {
    if fs != [] {
      AddFieldFacts(fields, fs[0]);
      AddAllUnique(AddField(fields, fs[0]), fs[1..]);
    }
  }

  /** After adding fields, every one of their tags is present. */
  lemma {:induction false} AddAllHasTags(fields: seq<Field>, fs: seq<Field>)
    ensures forall k :: 0 <= k < |fs| ==> HasTag(AddAll(fields, fs), fs[k].tag)
    decreases |fs|
  {
    if fs != [] {
      var g := AddField(fields, fs[0]);
      AddFieldFacts(fields, fs[0]);
      AddAllHasTags(g, fs[1..]);
      AddAllExtends(g, fs[1..]);
      HasTagPrefixed(g, AddAll(g, fs[1..]), fs[0].tag);
      forall k | 1 <= k < |fs| ensures HasTag(AddAll(fields, fs), fs[k].tag) {
        assert fs[k] == fs[1..][k - 1];
      }
    }
  }

  /** Adding fields whose tags are all present already changes nothing. */
  lemma {:induction false} AddAllAbsorbed(fields: seq<Field>, fs: seq<Field>)
    requires forall k :: 0 <= k < |fs| ==> HasTag(fields, fs[k].tag)
    ensures AddAll(fields, fs) == fields
    decreases |fs|
  {
    if fs != [] {
      assert AddField(fields, fs[0]) == fields;
      forall k | 0 <= k < |fs[1..]| ensures HasTag(fields, fs[1..][k].tag) {
        assert fs[1..][k] == fs[k + 1];
      }
      AddAllAbsorbed(fields, fs[1..]);
    }
  }

  // ---------------------------------------------------------------------------
  // Properties of `decode`.

  /**
   * Decoding again from the result of a decode changes nothing: neither the
   * name, nor the fields, nor whether it fails. `__str__` decodes on every
   * call, so this is what keeps repeated formatting harmless.
   */
  lemma DecodeIdempotent(advType: int, bs: seq<Byte>, name: string, fields: seq<Field>)
    ensures var d := DecodeSpec(advType, bs, name, fields);
            DecodeSpec(advType, bs, d.name, d.fields) == d
  {
    if AdvInd <= advType <= AdvScanRsp {
      var es := Segment(bs).entries;
      var ps := Applied(es);
      var fs := FieldsOf(ps);
      DecodeBytesCharacterized(bs, name, fields);
      var d := DecodeBytes(bs, name, fields);
      DecodeBytesCharacterized(bs, d.name, d.fields);
      LastNameIdempotent(ps, name);
      AddAllHasTags(fields, fs);
      AddAllAbsorbed(d.fields, fs);
    }
  }

  /**
   * `decode` never clears, replaces or reorders a field: the fields held
   * before are a prefix of those after, so the first value seen for a tag is
   * the one kept, and tags stay unique.
   */
  lemma DecodeKeepsFields(advType: int, bs: seq<Byte>, name: string, fields: seq<Field>)
    ensures var d := DecodeSpec(advType, bs, name, fields);
            |fields| <= |d.fields| && d.fields[..|fields|] == fields
    ensures UniqueTags(fields) ==> UniqueTags(DecodeSpec(advType, bs, name, fields).fields)
  {
    if AdvInd <= advType <= AdvScanRsp {
      var fs := FieldsOf(Applied(Segment(bs).entries));
      DecodeBytesCharacterized(bs, name, fields);
      AddAllExtends(fields, fs);
      if UniqueTags(fields) {
        AddAllUnique(fields, fs);
      }
    }
  }

  /** The name after a successful walk is that of the last name structure in the payload. */
  lemma DecodeNameIsLast(bs: seq<Byte>, name: string, fields: seq<Field>)
    requires !DecodeBytes(bs, name, fields).failed
    ensures DecodeBytes(bs, name, fields).name == LastName(Segment(bs).entries, name)
  {
    DecodeBytesCharacterized(bs, name, fields);
    var es := Segment(bs).entries;
    assert |Applied(es)| == |es|;
    assert Applied(es) == es;
  }

  /** A payload without name structures leaves the name as it was (the hex address for a new device). */
  lemma DecodeWithoutNames(bs: seq<Byte>, name: string, fields: seq<Field>)
    requires forall k :: 0 <= k < |Segment(bs).entries| ==> !IsNameEntry(Segment(bs).entries[k])
    ensures DecodeBytes(bs, name, fields).name == name
  {
    DecodeBytesCharacterized(bs, name, fields);
    var es := Segment(bs).entries;
    var ps := Applied(es);
    forall k | 0 <= k < |ps| ensures !IsNameEntry(ps[k]) {
      assert ps[k] == es[k];
    }
    LastNameWithoutNames(ps, name);
  }

  /**
   * `decode` raises exactly when the walk ends on a lone length byte or meets
   * a Service ID structure with fewer than two data bytes.
   */
  lemma DecodeFailsWhen(bs: seq<Byte>, name: string, fields: seq<Field>)
    ensures var es := Segment(bs).entries;
            DecodeBytes(bs, name, fields).failed <==>
              Segment(bs).lone ||
              exists k :: 0 <= k < |es| && es[k].adType == AdTypeServiceId && |es[k].value| < 2
  {
    DecodeBytesCharacterized(bs, name, fields);
    var es := Segment(bs).entries;
    var ps := Applied(es);
    if |ps| < |es| {
      assert EntryField(es[|ps|]).None?;
    } else {
      assert ps == es;
    }
  }

  /** A structure whose declared length runs past the buffer gets the bytes that are left, and the walk ends. */
  lemma SegmentTruncates(bs: seq<Byte>)
    requires |bs| >= 2 && bs[0] as int + 1 >= |bs|
    ensures Segment(bs) == Segmentation([Entry(bs[1], bs[2..])], false)
  {
    assert From(bs, bs[0] as int + 1) == [];
    assert Slice(bs, 2, bs[0] as int + 1) == bs[2..];
    assert Segment([]) == Segmentation([], false);
  }

  /** AD structures laid out in the Core Specification's format: length byte, type byte, data. */
  function Encode(es: seq<Entry>): seq<Byte>
    requires forall k :: 0 <= k < |es| ==> |es[k].value| <= 254
  {
    if es == [] then [] else [|es[0].value| + 1, es[0].adType] + es[0].value + Encode(es[1..])
  }

  /** The walk recovers exactly the structures of a well-formed payload, consuming length+1 bytes each. */
  lemma {:induction false} SegmentEncode(es: seq<Entry>)
    requires forall k :: 0 <= k < |es| ==> |es[k].value| <= 254
    ensures Segment(Encode(es)) == Segmentation(es, false)
  {
    if es != [] {
      var e := es[0];
      var bs := Encode(es);
      var tail := Encode(es[1..]);
      assert bs == [|e.value| + 1, e.adType] + e.value + tail;
      assert bs[0] == |e.value| + 1 && bs[1] == e.adType;
      assert Slice(bs, 2, bs[0] as int + 1) == e.value;
      assert From(bs, bs[0] as int + 1) == tail;
      SegmentEncode(es[1..]);
      assert Entry(bs[1], Slice(bs, 2, bs[0] as int + 1)) == e;
      assert [e] + es[1..] == es;
    }
  }

  /** A Short Name "AA" followed by a Complete Name "BB": the name is "BB", both fields are kept. */
  lemma NamePrecedenceExample()
    ensures DecodeBytes([3, 8, 65, 65, 3, 9, 66, 66], "c0ffee", []) ==
      Decoded("BB", [Field(Named("ShortName"), "AA"), Field(Named("CompleteName"), "BB")], false)
  {
    var bs: seq<Byte> := [3, 8, 65, 65, 3, 9, 66, 66];
    var cs: seq<Byte> := [3, 9, 66, 66];
    assert From(bs, 4) == cs;
    assert From(cs, 4) == [];
    assert Slice(bs, 2, 4) == [65, 65];
    assert Slice(cs, 2, 4) == [66, 66];
    assert DecodeName([65, 65]) == "AA";
    assert DecodeName([66, 66]) == "BB";
    var f1 := Field(Named("ShortName"), "AA");
    var f2 := Field(Named("CompleteName"), "BB");
    assert !HasTag([f1], f2.tag);
    assert !HasTag([], f1.tag);
    assert EntryField(Entry(8, [65, 65])) == Some(f1);
    assert EntryField(Entry(9, [66, 66])) == Some(f2);
    assert AddField([], f1) == [f1];
    assert AddField([f1], f2) == [f1, f2];
    DecodeBytesStep(bs, "c0ffee", []);
    DecodeBytesStep(cs, "AA", [f1]);
    assert DecodeBytes([], "BB", [f1, f2]) == Decoded("BB", [f1, f2], false);
  }

  /** The Service ID bytes AF FE (0xFEAF) name Nest Labs. */
  lemma NestServiceIdExample()
    ensures EntryField(Entry(AdTypeServiceId, [0xAF, 0xFE])) == Some(Field(Named("Service ID"), "Nest Labs Inc"))
  {
    assert Hex([0xFE, 0xAF]) == "feaf" by {
      assert ByteHex(0xFE) == "fe" && ByteHex(0xAF) == "af";
      assert Hex([0xAF]) == ByteHex(0xAF) + Hex([]);
    }
    assert Upper("feaf") == "FEAF";
  }

  /** An unknown Service ID stays as its swapped, upper-case hex; bytes past the second are ignored. */
  lemma UnknownServiceIdExample()
    ensures EntryField(Entry(AdTypeServiceId, [0x34, 0x12, 0x99])) == Some(Field(Named("Service ID"), "1234"))
  {
    assert Hex([0x12, 0x34]) == "1234" by {
      assert ByteHex(0x12) == "12" && ByteHex(0x34) == "34";
      assert Hex([0x34]) == ByteHex(0x34) + Hex([]);
    }
    assert Upper("1234") == "1234";
  }

  /** A final lone length byte raises; what came before it is kept. */
  lemma LoneLengthByteExample()
    ensures DecodeBytes([2, 9, 65, 1], "c0ffee", []) ==
      Decoded("A", [Field(Named("CompleteName"), "A")], true)
  {
    var bs: seq<Byte> := [2, 9, 65, 1];
    assert From(bs, 3) == [1];
    assert Slice(bs, 2, 3) == [65];
    assert DecodeName([65]) == "A";
    DecodeBytesStep(bs, "c0ffee", []);
  }

  /** A Service ID with one data byte raises before anything is recorded. */
  lemma ShortServiceIdExample()
    ensures DecodeBytes([2, 2, 0xAF], "c0ffee", []) == Decoded("c0ffee", [], true)
  {
    var cs: seq<Byte> := [2, 2, 0xAF];
    assert Slice(cs, 2, 3) == [0xAF];
    DecodeBytesStep(cs, "c0ffee", []);
  }

  /** `makeAscii`'s rule for one byte: letters and digits stay, everything else becomes '_'. */
  function AsciiOrUnderscore(b: Byte): char
  {
    var c := b as char;
    if 'a' <= c <= 'z' || 'A' <= c <= 'Z' || '0' <= c <= '9' then c else '_'
  }

  /** `makeAscii` on a hexadecimal string such as `adv_data`. */
  function MakeAscii(data: string): (r: string)
    requires IsHexString(data)
    ensures |r| == |data| / 2
    ensures forall k :: 0 <= k < |r| ==> r[k] == AsciiOrUnderscore(HexToBytes(data)[k])
  {
    if data == [] then ""
    else
      var rest := MakeAscii(data[2..]);
      assert HexToBytes(data)[1..] == HexToBytes(data[2..]);
      [AsciiOrUnderscore(16 * HexValue(data[0]) + HexValue(data[1]))] + rest
  }

  /** On the hex of letters and digits, `makeAscii` gives the same text as `decodeName`. */
  lemma MakeAsciiOfText(bs: seq<Byte>)
    requires forall k :: 0 <= k < |bs| ==> AsciiOrUnderscore(bs[k]) == bs[k] as char
    ensures IsHexString(Hex(bs)) && MakeAscii(Hex(bs)) == DecodeName(bs)
  {
    HexRoundTrip(bs);
  }

  // ---------------------------------------------------------------------------
  // Devices and the registry.

  /** The state of one `BLEItem`, as a value. */
  datatype BleRecord = BleRecord(addr: string, addrType: int, advType: int, rssi: int,
                                 advData: string, name: string, data: seq<Field>)

  /** A freshly constructed `BLEItem`: address and name are the address's hex, no fields yet. */
  function Sighting(addrType: int, addr: seq<Byte>, advType: int, rssi: int, advData: seq<Byte>): (r: BleRecord)
    ensures IsHexString(r.advData) && HexToBytes(r.advData) == advData
    ensures r.name == r.addr && r.data == []
  {
    HexRoundTrip(advData);
    BleRecord(Hex(addr), addrType, advType, rssi, Hex(advData), Hex(addr), [])
  }

  /** What `decode` does to a device record, and whether it completed. */
  function Redecode(r: BleRecord): (BleRecord, bool)
    requires IsHexString(r.advData)
  {
    var d := DecodeSpec(r.advType, HexToBytes(r.advData), r.name, r.data);
    (r.(name := d.name, data := d.fields), !d.failed)
  }

  predicate WellFormed(list: seq<BleRecord>)
  {
    forall k :: 0 <= k < |list| ==> IsHexString(list[k].advData)
  }

  /** No address appears twice. */
  predicate UniqueAddrs(list: seq<BleRecord>)
  {
    forall i, j :: 0 <= i < j < |list| ==> list[i].addr != list[j].addr
  }

  /** The position of the first device with this address. */
  function FindAddr(list: seq<BleRecord>, addr: string): (r: Option<nat>)
    ensures r.Some? ==> r.value < |list| && list[r.value].addr == addr
    ensures r.Some? ==> forall k :: 0 <= k < r.value ==> list[k].addr != addr
    ensures r.None? <==> forall k :: 0 <= k < |list| ==> list[k].addr != addr
  {
    if list == [] then None
    else if list[0].addr == addr then Some(0)
    else match FindAddr(list[1..], addr)
      case None => None
      case Some(i) => Some(i + 1)
  }

  /**
   * `BLEList.addItem` on records. A known address gets the new rssi,
   * advertising type and payload, then is decoded again. A new device is
   * decoded twice (once when the "Found" message formats it, once
   * explicitly) and then appended. The flag is false when a decode raised;
   * a new device is then not appended.
   */
  function AddSighting(list: seq<BleRecord>, s: BleRecord): (seq<BleRecord>, bool)
    requires WellFormed(list) && IsHexString(s.advData)
  {
    match FindAddr(list, s.addr)
    case Some(i) =>
      var u := Redecode(list[i].(rssi := s.rssi, advType := s.advType, advData := s.advData));
      (list[i := u.0], u.1)
    case None =>
      var shown := Redecode(s);
      if !shown.1 then (list, false)
      else
        var again := Redecode(shown.0);
        (if again.1 then list + [again.0] else list, again.1)
  }

  /** Addresses stay unique and payloads well formed. */
  lemma AddSightingKeepsInvariant(list: seq<BleRecord>, s: BleRecord)
    requires WellFormed(list) && IsHexString(s.advData) && UniqueAddrs(list)
    ensures WellFormed(AddSighting(list, s).0) && UniqueAddrs(AddSighting(list, s).0)
  {
  }

  /**
   * A known address is updated in place: same length, same order, every
   * other device untouched; the device takes the new rssi, type and payload,
   * and keeps all its old fields in front of any new ones.
   */
  lemma AddSightingUpdatesInPlace(list: seq<BleRecord>, s: BleRecord, i: nat)
    requires WellFormed(list) && IsHexString(s.advData) && UniqueAddrs(list)
    requires i < |list| && list[i].addr == s.addr
    ensures var r := AddSighting(list, s).0;
            |r| == |list| &&
            (forall k :: 0 <= k < |list| && k != i ==> r[k] == list[k]) &&
            r[i].addr == list[i].addr && r[i].rssi == s.rssi &&
            r[i].advType == s.advType && r[i].advData == s.advData &&
            |list[i].data| <= |r[i].data| && r[i].data[..|list[i].data|] == list[i].data
  {
    var m := list[i].(rssi := s.rssi, advType := s.advType, advData := s.advData);
    DecodeKeepsFields(m.advType, HexToBytes(m.advData), m.name, m.data);
  }

  /** A new address is appended once, as decoded once: the second decode is a no-op. */
  lemma AddSightingAppends(list: seq<BleRecord>, s: BleRecord)
    requires WellFormed(list) && IsHexString(s.advData)
    requires forall k :: 0 <= k < |list| ==> list[k].addr != s.addr
    ensures AddSighting(list, s) ==
      (if Redecode(s).1 then list + [Redecode(s).0] else list, Redecode(s).1)
  {
    DecodeIdempotent(s.advType, HexToBytes(s.advData), s.name, s.data);
  }

  /** Two sightings of one address with different rssi leave one device with the second rssi. */
  lemma RepeatedSightingMerges(s1: BleRecord, s2: BleRecord)
    requires IsHexString(s1.advData) && IsHexString(s2.advData)
    requires s1.addr == s2.addr && AddSighting([], s1).1
    ensures |AddSighting(AddSighting([], s1).0, s2).0| == 1
    ensures AddSighting(AddSighting([], s1).0, s2).0[0].rssi == s2.rssi
  {
    AddSightingAppends([], s1);
    AddSightingUpdatesInPlace(AddSighting([], s1).0, s2, 0);
  }

  /** One `BLEItem`: a sighted device, decoded in place. */
  class BleItem {
    const addr: string
    const addrType: int
    var name: string
    var advType: int
    var rssi: int
    var advData: string
    var data: seq<Field>

    ghost predicate Valid()
      reads this
    {
      IsHexString(advData)
    }

    function Record(): BleRecord
      reads this
    {
      BleRecord(addr, addrType, advType, rssi, advData, name, data)
    }

    constructor (addrType: int, addr: seq<Byte>, advType: int, rssi: int, advData: seq<Byte>)
      ensures Valid() && Record() == Sighting(addrType, addr, advType, rssi, advData)
    {
      HexRoundTrip(advData);
      this.name := Hex(addr);
      this.addr := Hex(addr);
      this.addrType := addrType;
      this.advType := advType;
      this.rssi := rssi;
      this.advData := Hex(advData);
      this.data := [];
    }

    /** `getAddrType`. */
    function GetAddrType(): (r: string)
      ensures r == "PUBLIC" <==> addrType == AddrTypePublic
      ensures r == "RANDOM" <==> addrType == AddrTypeRandom
      ensures r == "UNKNOWN" <==> addrType != AddrTypePublic && addrType != AddrTypeRandom
    {
      if addrType == AddrTypePublic then "PUBLIC"
      else if addrType == AddrTypeRandom then "RANDOM"
      else "UNKNOWN"
    }

    /** `getColor`: the signal tier of the device's last rssi. */
    function GetColor(): (c: int)
      reads this
      ensures c == Signal.RssiColor(rssi)
      ensures c in {ColorGreen, ColorYellow, ColorOrange, ColorRed}
    {
      Signal.RssiColor(rssi)
    }

    /** `_addData`: a tag already present is left alone, a new one is appended. */
    method AddData(tag: Tag, value: string)
      modifies this`data
      ensures HasTag(old(data), tag) ==> data == old(data)
      ensures !HasTag(old(data), tag) ==> data == old(data) + [Field(tag, value)]
    {
      var i := 0;
      while i < |data|
        invariant 0 <= i <= |data|
        invariant forall k :: 0 <= k < i ==> data[k].tag != tag
      {
        if data[i].tag == tag {
          return;
        }
        i := i + 1;
      }
      data := data + [Field(tag, value)];
    }

    /**
     * `decode`: walks the payload, updating `name` and `data` as it goes. The
     * result is false when the walk raised IndexError; the updates made
     * before that point stay, as they do in the source.
     */
    method Decode() returns (ok: bool)
      requires Valid()
      modifies this`name, this`data
      ensures var d := DecodeSpec(advType, HexToBytes(advData), old(name), old(data));
              name == d.name && data == d.fields && ok == !d.failed
    {
      ok := true;
      if AdvInd <= advType <= AdvScanRsp {
        var bs := HexToBytes(advData);
        while |bs| > 0
          invariant DecodeBytes(bs, name, data) == DecodeBytes(HexToBytes(advData), old(name), old(data))
          decreases |bs|
        {
          if |bs| == 1 {
            ok := false;
            return;
          }
          DecodeBytesStep(bs, name, data);
          var length := bs[0];
          var adType := bs[1];
          var value := Slice(bs, 2, length as int + 1);
          if adType == AdTypeComplete {
            name := DecodeName(value);
            AddData(Named("CompleteName"), name);
          } else if adType == AdTypeShortName {
            name := DecodeName(value);
            AddData(Named("ShortName"), name);
          } else if adType == AdTypeServiceData {
            AddData(Named("UUID"), Hex(value));
          } else if adType == AdTypeManData {
            AddData(Named("ManData"), Hex(value));
          } else if adType == AdTypeFlags {
            AddData(Named("Flags"), Hex(value));
          } else if adType == AdTypeServiceId {
            var swapped := LeSwap16(value);
            if swapped.None? {
              ok := false;
              return;
            }
            AddData(Named("Service ID"), ServiceName(swapped.value));
          } else if adType == AdTypeServiceIds {
            AddData(Named("All Service IDs"), Hex(value));
          } else if adType == AdTypePowerLevel {
            AddData(Named("PowerLevel"), Hex(value));
          } else {
            AddData(Raw(adType), Hex(value));
          }
          bs := From(bs, length as int + 1);
        }
      }
    }

    /** `__str__`: decodes again, then formats name, address type, advertising type and rssi. */
    method ToString() returns (s: Option<string>)
      requires Valid()
      modifies this`name, this`data
      ensures var d := DecodeSpec(advType, HexToBytes(advData), old(name), old(data));
              name == d.name && data == d.fields &&
              s == if d.failed then None
                   else Some(d.name + "\t" + IntToString(addrType) + "\t" +
                             IntToString(advType) + "\t" + IntToString(rssi))
    {
      var ok := Decode();
      if !ok {
        s := None;
        return;
      }
      s := Some(name + "\t" + IntToString(addrType) + "\t" + IntToString(advType) + "\t" + IntToString(rssi));
    }
  }

  /** A decimal number never holds a tab. */
  lemma NumberHasNoTab(n: int)
    ensures CountChar(IntToString(n), '\t') == 0
  {
    CountCharAbsent(IntToString(n), '\t');
  }

  /** A device line whose name holds no tab splits into exactly four tab-separated columns. */
  lemma DeviceLineColumns(name: string, addrType: int, advType: int, rssi: int)
    requires forall k :: 0 <= k < |name| ==> name[k] != '\t'
    ensures CountChar(name + "\t" + IntToString(addrType) + "\t" + IntToString(advType) + "\t" + IntToString(rssi), '\t') == 3
  {
    var a := IntToString(addrType);
    var b := IntToString(advType);
    var c := IntToString(rssi);
    CountCharAbsent(name, '\t');
    NumberHasNoTab(addrType);
    NumberHasNoTab(advType);
    NumberHasNoTab(rssi);
    assert CountChar("\t", '\t') == 1;
    CountCharAppend(name, "\t", '\t');
    CountCharAppend(name + "\t", a, '\t');
    CountCharAppend(name + "\t" + a, "\t", '\t');
    CountCharAppend(name + "\t" + a + "\t", b, '\t');
    CountCharAppend(name + "\t" + a + "\t" + b, "\t", '\t');
    CountCharAppend(name + "\t" + a + "\t" + b + "\t", c, '\t');
  }

  /** `BLEList`: the devices seen in one scan session, in order of first sighting. */
  class BleList {
    var items: seq<BleItem>
    var index: int

    ghost function Snapshot(): seq<BleRecord>
      reads this, items
    {
      seq(|items|, k requires 0 <= k < |items| reads this, items => items[k].Record())
    }

    ghost predicate Valid()
      reads this, items
    {
      WellFormed(Snapshot()) && UniqueAddrs(Snapshot())
    }

    constructor ()
      ensures Valid() && items == [] && index == -1
    {
      items := [];
      index := -1;
    }

    /** `__len__`. */
    function Length(): (n: nat)
      reads this
      ensures n == |items|
    {
      |items|
    }

    /** `__getitem__`. */
    function Get(index: int): (r: Lookup<BleItem>)
      reads this
      ensures 0 <= index < |items| ==> r == Found(items[index])
      ensures -|items| <= index < 0 ==> r == Found(items[|items| + index])
      ensures r.StopIteration? <==> index >= |items|
      ensures r.IndexError? <==> index < -|items|
    {
      GetItem(items, index)
    }

    /** `__iter__`: restarts the iteration. */
    method Iter()
      modifies this`index
      ensures index == -1
    {
      index := -1;
    }

    /** `__next__`: the next device, or `None` for StopIteration. */
    method Next() returns (r: Option<BleItem>)
      modifies this`index
      ensures index == old(index) + 1
      ensures r == if 0 <= index < |items| then Some(items[index]) else None
    {
      index := index + 1;
      if 0 <= index < |items| {
        r := Some(items[index]);
      } else {
        r := None;
      }
    }

    /** The position of the device with this address, as `addItem`'s loop looks for it. */
    method Find(addr: string) returns (found: Option<nat>)
      requires Valid()
      ensures found == FindAddr(Snapshot(), addr)
    {
      ghost var list := Snapshot();
      var i := 0;
      while i < |items|
        invariant 0 <= i <= |items|
        invariant forall k :: 0 <= k < i ==> list[k].addr != addr
      {
        if items[i].addr == addr {
          assert list[i].addr == addr;
          return Some(i);
        }
        i := i + 1;
      }
      return None;
    }

    /** The update branch of `addItem`: new rssi, type and payload, then decode again. */
    method Refresh(i: nat, b: BleItem) returns (ok: bool)
      requires Valid() && b.Valid() && i < |items|
      modifies items[i]
      ensures var s := old(b.Record());
              var u := Redecode(old(Snapshot())[i].(rssi := s.rssi, advType := s.advType, advData := s.advData));
              Snapshot() == old(Snapshot())[i := u.0] && ok == u.1
    {
      ObjectsDistinct(i);
      var item := items[i];
      item.rssi := b.rssi;
      item.advType := b.advType;
      item.advData := b.advData;
      ok := item.Decode();
    }

    /** `addItem`: updates the device with this address in place, or appends a new one. */
    method AddItem(b: BleItem) returns (ok: bool)
      requires Valid() && b.Valid()
      modifies this, items, b
      ensures Valid()
      ensures (Snapshot(), ok) == AddSighting(old(Snapshot()), old(b.Record()))
      ensures items == old(items) || items == old(items) + [b]
    {
      ghost var before := Snapshot();
      ghost var incoming := b.Record();
      AddSightingKeepsInvariant(before, incoming);
      var found := Find(b.addr);
      if found.Some? {
        ok := Refresh(found.value, b);
        return;
      }
      assert forall k :: 0 <= k < |items| ==> before[k].addr == items[k].addr;
      ok := Append(b);
    }

    /** The new-device branch of `addItem`: decode for the "Found" message, decode again, append. */
    method Append(b: BleItem) returns (ok: bool)
      requires Valid() && b.Valid()
      requires forall k :: 0 <= k < |items| ==> items[k].addr != b.addr
      modifies this, b
      ensures var shown := Redecode(old(b.Record()));
              var again := Redecode(shown.0);
              ok == (shown.1 && again.1) &&
              Snapshot() == (if ok then old(Snapshot()) + [again.0] else old(Snapshot())) &&
              items == (if ok then old(items) + [b] else old(items))
    {
      ghost var before := Snapshot();
      assert b !in items by {
        forall k | 0 <= k < |items| ensures items[k] != b {
          assert before[k].addr == items[k].addr;
        }
      }
      ok := b.Decode();  // the "Found" message formats the item, which decodes it
      assert Snapshot() == before;
      if !ok {
        return;
      }
      ok := b.Decode();
      assert Snapshot() == before;
      if ok {
        items := items + [b];
        assert Snapshot() == before + [b.Record()];
      }
    }

    lemma ObjectsDistinct(i: nat)
      requires Valid() && i < |items|
      ensures forall k :: 0 <= k < |items| && k != i ==> items[k] != items[i]
    {
      forall k | 0 <= k < |items| && k != i ensures items[k] != items[i] {
        assert Snapshot()[k].addr == items[k].addr && Snapshot()[i].addr == items[i].addr;
      }
    }
  }

  /** Whether the scanner's address filter lets a device through. */
  predicate Admits(filter: Option<string>, addr: string)
  {
    filter.None? || filter.value == addr
  }

  /** The filter and result-list logic of `BLEScanner`; the radio itself is not modelled. */
  class BleScanner {
    var results: BleList?
    var filter: Option<string>

    constructor ()
      ensures results == null && filter == None
    {
      results := null;
      filter := None;
    }

    /** `start_scan`: a fresh, empty result list (the driver call is not modelled). */
    method StartScan()
      modifies this`results
      ensures results != null && fresh(results) && results.Valid() && results.items == []
    {
      results := new BleList();
    }

    /** `setFilter`: installs the filter and a fresh, empty result list. */
    method SetFilter(address: Option<string>)
      modifies this
      ensures filter == address
      ensures results != null && fresh(results) && results.Valid() && results.items == []
    {
      filter := address;
      results := new BleList();
    }

    /**
     * `_irq`: a scan result becomes a new item, handed to `addItem` when the
     * filter admits its address. The result is false when that raised: a
     * decode failure, or no result list yet (`start_scan` not called).
     */
    method Irq(event: int, addrType: int, addr: seq<Byte>, advType: int, rssi: int, advData: seq<Byte>)
      returns (ok: bool)
      requires results != null ==> results.Valid()
      modifies results, if results == null then [] else results.items
      ensures results != null ==> results.Valid()
      ensures event != IrqScanResult || !Admits(filter, Hex(addr)) ==>
        ok && (results != null ==> results.items == old(results.items) && results.Snapshot() == old(results.Snapshot()))
      ensures event == IrqScanResult && Admits(filter, Hex(addr)) && results == null ==> !ok
      ensures event == IrqScanResult && Admits(filter, Hex(addr)) && results != null ==>
        (results.Snapshot(), ok) == AddSighting(old(results.Snapshot()), Sighting(addrType, addr, advType, rssi, advData))
    {
      ok := true;
      if event == IrqScanResult {
        var item := new BleItem(addrType, addr, advType, rssi, advData);
        if Admits(filter, item.addr) {
          if results == null {
            ok := false;
          } else {
            ok := results.AddItem(item);
          }
        }
      }
    }
  }
}
