/** The HID report descriptor the HID Service hands out (report_map), and what
    it declares. Its bytes are short items in the sense of section 6.2.2.2 of
    the HID 1.11 Device Class Definition: a prefix byte carrying the tag
    (bits 7-4), the type (bits 3-2) and a size code (bits 1-0: 0, 1, 2 or 4
    data bytes), then the data bytes, little-endian. */
module ReportMap {
  import opened Bytes
  import opened Wrappers
  import HidLayout
  import KeyboardReport

  datatype ItemType = Main | Global | Local

  datatype Item = Item(itemType: ItemType, tag: nat, size: nat, data: nat)

  // Tags used by the keyboard descriptor.
  const MainInput: nat := 0x8
  const MainOutput: nat := 0x9
  const MainCollection: nat := 0xA
  const MainEndCollection: nat := 0xC
  const GlobalUsagePage: nat := 0x0
  const GlobalLogicalMinimum: nat := 0x1
  const GlobalLogicalMaximum: nat := 0x2
  const GlobalReportSize: nat := 0x7
  const GlobalReportId: nat := 0x8
  const GlobalReportCount: nat := 0x9
  const LocalUsage: nat := 0x0
  const LocalUsageMinimum: nat := 0x1
  const LocalUsageMaximum: nat := 0x2

  function TypeCode(t: ItemType): nat
  {
    match t
    case Main => 0
    case Global => 1
    case Local => 2
  }

  function TypeOf(code: nat): ItemType
    requires code < 3
  {
    if code == 0 then Main else if code == 1 then Global else Local
  }

  /** A short item that has an encoding. */
  predicate WellFormed(it: Item)
  {
    && it.tag < 16
    && (it.size == 0 || it.size == 1 || it.size == 2 || it.size == 4)
    && it.data < Pow256(it.size)
  }

  function SizeCode(size: nat): nat
  {
    if size == 4 then 3 else size
  }

  function EncodeItem(it: Item): (r: seq<uint8>)
    requires WellFormed(it)
    ensures |r| == 1 + it.size
  {
    [16 * it.tag + 4 * TypeCode(it.itemType) + SizeCode(it.size)] + LeBytes(it.data, it.size)
  }

  function EncodeItems(items: seq<Item>): seq<uint8>
    requires forall i :: 0 <= i < |items| ==> WellFormed(items[i])
  {
    if items == [] then [] else EncodeItem(items[0]) + EncodeItems(items[1..])
  }

  /** Splits a descriptor into its short items; None when it holds a long item
      (type 3, which includes the long-item prefix 0xFE) or ends inside an item. */
  function ParseItems(bs: seq<uint8>): (r: Option<seq<Item>>)
    ensures r.Some? ==> forall i :: 0 <= i < |r.value| ==> WellFormed(r.value[i])
    ensures bs != [] && bs[0] / 4 % 4 == 3 ==> r.None?
    decreases |bs|
  {
    if bs == [] then Some([])
    else
      var p := bs[0];
      var size := if p % 4 == 3 then 4 else p % 4;
      if p / 4 % 4 == 3 || |bs| < 1 + size then None
      else
        match ParseItems(bs[1 + size..])
        case None => None
        case Some(rest) =>
          Some([Item(TypeOf(p / 4 % 4), p / 16, size, LeValue(bs[1..1 + size]))] + rest)
  }

  /** The fields of a prefix byte come back out of it. */
  lemma PrefixFields(tag: nat, typeCode: nat, sizeCode: nat)
    requires tag < 16 && typeCode < 4 && sizeCode < 4
    ensures var p := 16 * tag + 4 * typeCode + sizeCode;
      p % 4 == sizeCode && p / 4 % 4 == typeCode && p / 16 == tag
  {
    var p := 16 * tag + 4 * typeCode + sizeCode;
    assert p == 4 * (4 * tag + typeCode) + sizeCode;
    assert p / 4 == 4 * tag + typeCode;
  }

  /** Parsing an encoded item in front of some bytes yields that item in front
      of whatever the bytes parse to. */
  lemma ParseItemsCons(it: Item, rest: seq<uint8>)
    requires WellFormed(it)
    ensures ParseItems(EncodeItem(it) + rest)
         == (match ParseItems(rest) case None => None case Some(items) => Some([it] + items))
  {
    var bs := EncodeItem(it) + rest;
    var p := bs[0];
    PrefixFields(it.tag, TypeCode(it.itemType), SizeCode(it.size));
    assert p == 16 * it.tag + 4 * TypeCode(it.itemType) + SizeCode(it.size);
    assert (if p % 4 == 3 then 4 else p % 4) == it.size;
    assert bs[1..1 + it.size] == LeBytes(it.data, it.size);
    LeValueOfLeBytes(it.data, it.size);
    assert bs[1 + it.size..] == rest;
    assert TypeOf(p / 4 % 4) == it.itemType;
  }

  /** Parsing undoes encoding: every well-formed item list is read back exactly. */
  lemma {:induction false} ParseEncodeItems(items: seq<Item>)
    requires forall i :: 0 <= i < |items| ==> WellFormed(items[i])
    ensures ParseItems(EncodeItems(items)) == Some(items)
  {
    if items != [] {
      ParseEncodeItems(items[1..]);
      ParseItemsCons(items[0], EncodeItems(items[1..]));
      assert [items[0]] + items[1..] == items;
    }
  }

  /** The prefix byte is rebuilt from the fields the parser reads out of it. */
  lemma PrefixOfFields(p: uint8)
    requires p / 4 % 4 != 3
    ensures 16 * (p / 16) + 4 * TypeCode(TypeOf(p / 4 % 4)) + SizeCode(DataSize(p)) == p
  {
    assert p == 16 * (p / 16) + 4 * (p / 4 % 4) + p % 4;
  }

  /** The number of data bytes a prefix byte announces. */
  function DataSize(p: uint8): nat
  {
    if p % 4 == 3 then 4 else p % 4
  }

  /** The item a prefix byte and its data bytes stand for. */
  function ItemOf(p: uint8, data: seq<uint8>): Item
    requires p / 4 % 4 != 3
  {
    Item(TypeOf(p / 4 % 4), p / 16, DataSize(p), LeValue(data))
  }

  /** One step of the parser, when it succeeds. */
  lemma ParseItemsStep(bs: seq<uint8>, items: seq<Item>)
    requires ParseItems(bs) == Some(items) && bs != []
    ensures bs[0] / 4 % 4 != 3 && 1 + DataSize(bs[0]) <= |bs| && items != []
    ensures items[0] == ItemOf(bs[0], bs[1..1 + DataSize(bs[0])])
    ensures ParseItems(bs[1 + DataSize(bs[0])..]) == Some(items[1..])
  {}

  /** Encoding the item a prefix and its data stand for gives them back. */
  lemma EncodeItemOf(p: uint8, data: seq<uint8>)
    requires p / 4 % 4 != 3 && |data| == DataSize(p)
    ensures WellFormed(ItemOf(p, data))
    ensures EncodeItem(ItemOf(p, data)) == [p] + data
  {
    PrefixOfFields(p);
    LeBytesOfLeValue(data);
  }

  lemma EncodeItemsCons(it: Item, items: seq<Item>)
    requires WellFormed(it)
    requires forall i :: 0 <= i < |items| ==> WellFormed(items[i])
    ensures forall i :: 0 <= i < |[it] + items| ==> WellFormed(([it] + items)[i])
    ensures EncodeItems([it] + items) == EncodeItem(it) + EncodeItems(items)
  {
    assert ([it] + items)[1..] == items;
  }

  lemma SplitAfterFirst<T>(s: seq<T>, n: nat)
    requires 1 <= n <= |s|
    ensures [s[0]] + s[1..n] + s[n..] == s
  {
    assert [s[0]] + s[1..n] == s[..n];
  }

  /** Encoding undoes parsing: whatever the parser accepts is exactly the
      encoding of the items it returns. */
  lemma {:induction false} EncodeParseItems(bs: seq<uint8>, items: seq<Item>)
    requires ParseItems(bs) == Some(items)
    ensures forall i :: 0 <= i < |items| ==> WellFormed(items[i])
    ensures EncodeItems(items) == bs
    decreases |bs|
  {
    if bs != [] {
      var n := 1 + DataSize(bs[0]);
      ParseItemsStep(bs, items);
      EncodeParseItems(bs[n..], items[1..]);
      EncodeItemOf(bs[0], bs[1..n]);
      EncodeItemsCons(items[0], items[1..]);
      assert [items[0]] + items[1..] == items;
      SplitAfterFirst(bs, n);
    }
  }

  /** The Report Size and Report Count global items in effect. */
  datatype Globals = Globals(reportSize: nat, reportCount: nat)

  /** The globals after `it` has been read. */
  function Update(g: Globals, it: Item): Globals
  {
    if it.itemType == Global && it.tag == GlobalReportSize then g.(reportSize := it.data)
    else if it.itemType == Global && it.tag == GlobalReportCount then g.(reportCount := it.data)
    else g
  }

  function After(items: seq<Item>, g: Globals): Globals
    decreases |items|
  {
    if items == [] then g else After(items[1..], Update(g, items[0]))
  }

  /** Total bits the main items with tag `mainTag` declare: each contributes
      Report Size times Report Count, the global values in effect at it. */
  function MainBits(items: seq<Item>, mainTag: nat, g: Globals): nat
    decreases |items|
  {
    if items == [] then 0
    else
      var it := items[0];
      (if it.itemType == Main && it.tag == mainTag then g.reportSize * g.reportCount else 0)
      + MainBits(items[1..], mainTag, Update(g, it))
  }

  /** The Report ID items, in order. */
  function ReportIds(items: seq<Item>): seq<nat>
  {
    if items == [] then []
    else if items[0].itemType == Global && items[0].tag == GlobalReportId then [items[0].data] + ReportIds(items[1..])
    else ReportIds(items[1..])
  }

  lemma {:induction false} EncodeItemsAppend(a: seq<Item>, b: seq<Item>)
    requires forall i :: 0 <= i < |a| ==> WellFormed(a[i])
    requires forall i :: 0 <= i < |b| ==> WellFormed(b[i])
    ensures forall i :: 0 <= i < |a + b| ==> WellFormed((a + b)[i])
    ensures EncodeItems(a + b) == EncodeItems(a) + EncodeItems(b)
  {
    if a != [] {
      var ab := a + b;
      assert ab[0] == a[0];
      assert ab[1..] == a[1..] + b;
      EncodeItemsAppend(a[1..], b);
      assert EncodeItems(ab) == EncodeItem(a[0]) + EncodeItems(a[1..] + b);
    } else {
      assert a + b == b;
    }
  }

  /** A descriptor read in two parts: the second part starts from the globals
      the first part leaves. */
  lemma {:induction false} MainBitsAppend(a: seq<Item>, b: seq<Item>, mainTag: nat, g: Globals)
    ensures MainBits(a + b, mainTag, g) == MainBits(a, mainTag, g) + MainBits(b, mainTag, After(a, g))
  {
    if a != [] {
      assert (a + b)[1..] == a[1..] + b;
      MainBitsAppend(a[1..], b, mainTag, Update(g, a[0]));
    } else {
      assert a + b == b;
    }
  }

  lemma {:induction false} AfterAppend(a: seq<Item>, b: seq<Item>, g: Globals)
    ensures After(a + b, g) == After(b, After(a, g))
  {
    if a != [] {
      assert (a + b)[1..] == a[1..] + b;
      AfterAppend(a[1..], b, Update(g, a[0]));
    } else {
      assert a + b == b;
    }
  }

  lemma {:induction false} ReportIdsAppend(a: seq<Item>, b: seq<Item>)
    ensures ReportIds(a + b) == ReportIds(a) + ReportIds(b)
  {
    if a != [] {
      assert (a + b)[1..] == a[1..] + b;
      ReportIdsAppend(a[1..], b);
    } else {
      assert a + b == b;
    }
  }

  // The keyboard report descriptor, section by section, first as items and
  // then as the bytes report_map stores. Item tags are written as numbers so
  // that the verifier can evaluate the sections directly.

  const Head: seq<Item> := [
    Item(Global, 0x0, 1, 0x01),  // Usage Page (Generic Desktop)
    Item(Local, 0x0, 1, 0x06),   // Usage (Keyboard)
    Item(Main, 0xA, 1, 0x01),    // Collection (Application)
    Item(Global, 0x8, 1, 0x01)]  // Report ID (1)
  const HeadBytes: seq<uint8> := [0x05, 0x01, 0x09, 0x06, 0xA1, 0x01, 0x85, 0x01]

  /** Modifier keys: eight one-bit inputs. */
  const Modifiers: seq<Item> := [
    Item(Global, 0x0, 1, 0x07),  // Usage Page (Key Codes)
    Item(Local, 0x1, 1, 0xE0),   // Usage Minimum (224)
    Item(Local, 0x2, 1, 0xE7),   // Usage Maximum (231)
    Item(Global, 0x1, 1, 0x00),  // Logical Minimum (0)
    Item(Global, 0x2, 1, 0x01),  // Logical Maximum (1)
    Item(Global, 0x7, 1, 0x01),  // Report Size (1)
    Item(Global, 0x9, 1, 0x08),  // Report Count (8)
    Item(Main, 0x8, 1, 0x02)]    // Input (Data, Variable, Absolute)
  const ModifierBytes: seq<uint8> :=
    [0x05, 0x07, 0x19, 0xE0, 0x29, 0xE7, 0x15, 0x00, 0x25, 0x01, 0x75, 0x01, 0x95, 0x08, 0x81, 0x02]

  /** The reserved byte: one constant eight-bit input. */
  const Reserved: seq<Item> := [
    Item(Global, 0x9, 1, 0x01),  // Report Count (1)
    Item(Global, 0x7, 1, 0x08),  // Report Size (8)
    Item(Main, 0x8, 1, 0x01)]    // Input (Constant)
  const ReservedBytes: seq<uint8> := [0x95, 0x01, 0x75, 0x08, 0x81, 0x01]

  /** LED states: five one-bit outputs. */
  const Leds: seq<Item> := [
    Item(Global, 0x9, 1, 0x05),  // Report Count (5)
    Item(Global, 0x7, 1, 0x01),  // Report Size (1)
    Item(Global, 0x0, 1, 0x08),  // Usage Page (LEDs)
    Item(Local, 0x1, 1, 0x01),   // Usage Minimum (1)
    Item(Local, 0x2, 1, 0x05),   // Usage Maximum (5)
    Item(Main, 0x9, 1, 0x02)]    // Output (Data, Variable, Absolute)
  const LedBytes: seq<uint8> := [0x95, 0x05, 0x75, 0x01, 0x05, 0x08, 0x19, 0x01, 0x29, 0x05, 0x91, 0x02]

  /** LED padding: one constant three-bit output. */
  const LedPadding: seq<Item> := [
    Item(Global, 0x9, 1, 0x01),  // Report Count (1)
    Item(Global, 0x7, 1, 0x03),  // Report Size (3)
    Item(Main, 0x9, 1, 0x01)]    // Output (Constant)
  const LedPaddingBytes: seq<uint8> := [0x95, 0x01, 0x75, 0x03, 0x91, 0x01]

  /** The key array: six eight-bit inputs. */
  const Keys: seq<Item> := [
    Item(Global, 0x9, 1, 0x06),  // Report Count (6)
    Item(Global, 0x7, 1, 0x08),  // Report Size (8)
    Item(Global, 0x1, 1, 0x00),  // Logical Minimum (0)
    Item(Global, 0x2, 1, 0x65),  // Logical Maximum (101)
    Item(Global, 0x0, 1, 0x07),  // Usage Page (Key Codes)
    Item(Local, 0x1, 1, 0x00),   // Usage Minimum (0)
    Item(Local, 0x2, 1, 0x65),   // Usage Maximum (101)
    Item(Main, 0x8, 1, 0x00)]    // Input (Data, Array)
  const KeyBytes: seq<uint8> :=
    [0x95, 0x06, 0x75, 0x08, 0x15, 0x00, 0x25, 0x65, 0x05, 0x07, 0x19, 0x00, 0x29, 0x65, 0x81, 0x00]

  const End: seq<Item> := [Item(Main, 0xC, 0, 0)]  // End Collection
  const EndBytes: seq<uint8> := [0xC0]

  const Items: seq<Item> := Head + Modifiers + Reserved + Leds + LedPadding + Keys + End

  /** report_map: 65 bytes. */
  const Descriptor: seq<uint8> :=
    HeadBytes + ModifierBytes + ReservedBytes + LedBytes + LedPaddingBytes + KeyBytes + EndBytes

  predicate AllWellFormed(items: seq<Item>)
  {
    forall i :: 0 <= i < |items| ==> WellFormed(items[i])
  }

  // Each section's items are well formed and encode to that section's stored bytes.
  lemma HeadEncodes() ensures AllWellFormed(Head) && EncodeItems(Head) == HeadBytes {}
  lemma ModifiersWellFormed() ensures AllWellFormed(Modifiers) {}
  lemma ModifiersEncode() requires AllWellFormed(Modifiers) ensures EncodeItems(Modifiers) == ModifierBytes {}
  lemma ReservedEncodes() ensures AllWellFormed(Reserved) && EncodeItems(Reserved) == ReservedBytes {}
  lemma LedsEncode() ensures AllWellFormed(Leds) && EncodeItems(Leds) == LedBytes {}
  lemma LedPaddingEncodes() ensures AllWellFormed(LedPadding) && EncodeItems(LedPadding) == LedPaddingBytes {}
  lemma KeysWellFormed() ensures AllWellFormed(Keys) {}
  lemma KeysEncode() requires AllWellFormed(Keys) ensures EncodeItems(Keys) == KeyBytes {}
  lemma EndEncodes() ensures AllWellFormed(End) && EncodeItems(End) == EndBytes {}

  lemma AppendEncodes(a: seq<Item>, ab: seq<uint8>, b: seq<Item>, bb: seq<uint8>)
    requires AllWellFormed(a) && EncodeItems(a) == ab
    requires AllWellFormed(b) && EncodeItems(b) == bb
    ensures AllWellFormed(a + b) && EncodeItems(a + b) == ab + bb
  {
    EncodeItemsAppend(a, b);
  }

  /** The stored bytes parse into exactly the items above. */
  lemma ParsesToItems()
    ensures ParseItems(Descriptor) == Some(Items)
  {
    HeadEncodes();
    ModifiersWellFormed();
    ModifiersEncode();
    ReservedEncodes();
    LedsEncode();
    LedPaddingEncodes();
    KeysWellFormed();
    KeysEncode();
    EndEncodes();
    var a2 := Head + Modifiers;
    AppendEncodes(Head, HeadBytes, Modifiers, ModifierBytes);
    var a3 := a2 + Reserved;
    AppendEncodes(a2, HeadBytes + ModifierBytes, Reserved, ReservedBytes);
    var b3 := HeadBytes + ModifierBytes + ReservedBytes;
    AppendEncodes(a3, b3, Leds, LedBytes);
    AppendEncodes(a3 + Leds, b3 + LedBytes, LedPadding, LedPaddingBytes);
    AppendEncodes(a3 + Leds + LedPadding, b3 + LedBytes + LedPaddingBytes, Keys, KeyBytes);
    AppendEncodes(a3 + Leds + LedPadding + Keys, b3 + LedBytes + LedPaddingBytes + KeyBytes, End, EndBytes);
    ParseEncodeItems(Items);
  }

  /** Bits declared by the main items with tag `mainTag`, section by section. */
  lemma MainBitsBySection(mainTag: nat)
    ensures MainBits(Items, mainTag, Globals(0, 0))
         == MainBits(Head, mainTag, Globals(0, 0))
          + MainBits(Modifiers, mainTag, Globals(0, 0))
          + MainBits(Reserved, mainTag, Globals(1, 8))
          + MainBits(Leds, mainTag, Globals(8, 1))
          + MainBits(LedPadding, mainTag, Globals(1, 5))
          + MainBits(Keys, mainTag, Globals(3, 1))
          + MainBits(End, mainTag, Globals(8, 6))
  {
    var g0 := Globals(0, 0);
    assert After(Head, g0) == g0;
    assert After(Modifiers, g0) == Globals(1, 8);
    assert After(Reserved, Globals(1, 8)) == Globals(8, 1);
    assert After(Leds, Globals(8, 1)) == Globals(1, 5);
    assert After(LedPadding, Globals(1, 5)) == Globals(3, 1);
    assert After(Keys, Globals(3, 1)) == Globals(8, 6);
    var a1 := Head;
    var a2 := a1 + Modifiers;
    var a3 := a2 + Reserved;
    var a4 := a3 + Leds;
    var a5 := a4 + LedPadding;
    var a6 := a5 + Keys;
    AfterAppend(a1, Modifiers, g0);
    AfterAppend(a2, Reserved, g0);
    AfterAppend(a3, Leds, g0);
    AfterAppend(a4, LedPadding, g0);
    AfterAppend(a5, Keys, g0);
    MainBitsAppend(a1, Modifiers, mainTag, g0);
    MainBitsAppend(a2, Reserved, mainTag, g0);
    MainBitsAppend(a3, Leds, mainTag, g0);
    MainBitsAppend(a4, LedPadding, mainTag, g0);
    MainBitsAppend(a5, Keys, mainTag, g0);
    MainBitsAppend(a6, End, mainTag, g0);
  }

  lemma HeadBits()
    ensures MainBits(Head, MainInput, Globals(0, 0)) == 0 && MainBits(Head, MainOutput, Globals(0, 0)) == 0
  {}
  lemma ModifiersBits()
    ensures MainBits(Modifiers, MainInput, Globals(0, 0)) == 8 && MainBits(Modifiers, MainOutput, Globals(0, 0)) == 0
  {}
  lemma ReservedBits()
    ensures MainBits(Reserved, MainInput, Globals(1, 8)) == 8 && MainBits(Reserved, MainOutput, Globals(1, 8)) == 0
  {}
  lemma LedsBits()
    ensures MainBits(Leds, MainInput, Globals(8, 1)) == 0 && MainBits(Leds, MainOutput, Globals(8, 1)) == 5
  {}
  lemma LedPaddingBits()
    ensures MainBits(LedPadding, MainInput, Globals(1, 5)) == 0 && MainBits(LedPadding, MainOutput, Globals(1, 5)) == 3
  {}
  lemma KeysBits()
    ensures MainBits(Keys, MainInput, Globals(3, 1)) == 48 && MainBits(Keys, MainOutput, Globals(3, 1)) == 0
  {}
  lemma EndBits()
    ensures MainBits(End, MainInput, Globals(8, 6)) == 0 && MainBits(End, MainOutput, Globals(8, 6)) == 0
  {}

  /** The descriptor's Input items declare 64 bits: 8 one-bit modifiers, a
      reserved byte and six key codes. */
  lemma InputBits()
    ensures MainBits(Items, MainInput, Globals(0, 0)) == 64
  {
    MainBitsBySection(MainInput);
    HeadBits();
    ModifiersBits();
    ReservedBits();
    LedsBits();
    LedPaddingBits();
    KeysBits();
    EndBits();
  }

  /** The Output items declare 8 bits: five LEDs and three bits of padding. */
  lemma OutputBits()
    ensures MainBits(Items, MainOutput, Globals(0, 0)) == 8
  {
    MainBitsBySection(MainOutput);
    HeadBits();
    ModifiersBits();
    ReservedBits();
    LedsBits();
    LedPaddingBits();
    KeysBits();
    EndBits();
  }

  lemma HeadReportIds() ensures ReportIds(Head) == [1] {}
  lemma ModifiersReportIds() ensures ReportIds(Modifiers) == [] {}
  lemma KeysReportIds() ensures ReportIds(Keys) == [] {}
  lemma OtherReportIds()
    ensures ReportIds(Reserved) == [] && ReportIds(Leds) == [] && ReportIds(LedPadding) == [] && ReportIds(End) == []
  {}

  /** The descriptor names exactly one report, with the default Report ID. */
  lemma OnlyDefaultReportId()
    ensures ReportIds(Items) == [HidLayout.DefaultReportId]
  {
    var a2 := Head + Modifiers;
    var a3 := a2 + Reserved;
    var a4 := a3 + Leds;
    var a5 := a4 + LedPadding;
    var a6 := a5 + Keys;
    ReportIdsAppend(Head, Modifiers);
    ReportIdsAppend(a2, Reserved);
    ReportIdsAppend(a3, Leds);
    ReportIdsAppend(a4, LedPadding);
    ReportIdsAppend(a5, Keys);
    ReportIdsAppend(a6, End);
    HeadReportIds();
    ModifiersReportIds();
    KeysReportIds();
    OtherReportIds();
  }

  /** What report_map declares is the keyboard report struct: its bytes parse
      into the items above, whose Input items add up to the struct's size in
      bits, whose Output items add up to one LED byte and whose only Report ID
      is the default one. */
  lemma DeclaresKeyboardReport(r: KeyboardReport.Report)
    ensures ParseItems(Descriptor) == Some(Items)
    ensures MainBits(Items, MainInput, Globals(0, 0)) == 8 * |KeyboardReport.Encode(r)|
    ensures MainBits(Items, MainOutput, Globals(0, 0)) == 8
    ensures ReportIds(Items) == [HidLayout.DefaultReportId]
  {
    ParsesToItems();
    InputBits();
    OutputBits();
    OnlyDefaultReportId();
  }
}
