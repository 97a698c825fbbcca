/** LaunchpadMidiDevice.cs: the per-type tables, the lookup caches the
    constructor builds from them, and the coordinate getters. The connection
    state machine of the same class is in module Lifecycle. */
module LaunchpadMidi {
  import opened Common
  import opened Scan
  import DeviceInfo

  /** The largest LEDCount of any type. */
  const MaxLedCount: nat := 97

  /** The class's own `DeviceType` values; `OtherType` stands for every value
      the constructor's `default` branch receives. */
  datatype MidiType = Mk2 | Pro | ProWithPower | OtherType

  /** The Pro table with its power-button row (the rows of DeviceInfo's Pro table). */
  const ProWithPowerMidiLayout: Grid := DeviceInfo.ProLayout

  /** The Pro table without the power-button row. */
  const ProMidiLayout: Grid := [
    [255, 91, 92, 93, 94, 95, 96, 97, 98, 255],
    [80, 81, 82, 83, 84, 85, 86, 87, 88, 89],
    [70, 71, 72, 73, 74, 75, 76, 77, 78, 79],
    [60, 61, 62, 63, 64, 65, 66, 67, 68, 69],
    [50, 51, 52, 53, 54, 55, 56, 57, 58, 59],
    [40, 41, 42, 43, 44, 45, 46, 47, 48, 49],
    [30, 31, 32, 33, 34, 35, 36, 37, 38, 39],
    [20, 21, 22, 23, 24, 25, 26, 27, 28, 29],
    [10, 11, 12, 13, 14, 15, 16, 17, 18, 19],
    [255, 1, 2, 3, 4, 5, 6, 7, 8, 255]
  ]

  /** The Mk2 table, 10 by 10 with a blank left column and a blank last row. */
  const Mk2MidiLayout: Grid := [
    [255, 104, 105, 106, 107, 108, 109, 110, 111, 255],
    [255, 81, 82, 83, 84, 85, 86, 87, 88, 89],
    [255, 71, 72, 73, 74, 75, 76, 77, 78, 79],
    [255, 61, 62, 63, 64, 65, 66, 67, 68, 69],
    [255, 51, 52, 53, 54, 55, 56, 57, 58, 59],
    [255, 41, 42, 43, 44, 45, 46, 47, 48, 49],
    [255, 31, 32, 33, 34, 35, 36, 37, 38, 39],
    [255, 21, 22, 23, 24, 25, 26, 27, 28, 29],
    [255, 11, 12, 13, 14, 15, 16, 17, 18, 19],
    [255, 255, 255, 255, 255, 255, 255, 255, 255, 255]
  ]

  /** What the constructor's switch picks: LEDCount, Width, Height and the
      table the build reads. */
  datatype Shape = Shape(ledCount: nat, width: nat, height: nat, layout: Grid)

  /** The constructor's switch on the device type. */
  function ShapeOf(t: MidiType): (s: Shape)
    ensures s.width * s.height <= 110 && Covers(s.layout, s.width, s.height)
    ensures s.ledCount == if t == Mk2 then 80 else 97
  {
    Mk2MidiFormula();
    ProMidiFormula();
    DeviceInfo.ProFormula();
    match t
    case Mk2 => Shape(80, 9, 9, Mk2MidiLayout)
    case ProWithPower => Shape(97, 10, 11, ProWithPowerMidiLayout)
    case _ => Shape(97, 10, 10, ProMidiLayout)
  }

  /** The switch with the Mk2 table read whole, as RawMidiDevice reads it:
      a 10-by-10 window, so its right column is not cut off. */
  function CorrectedShapeOf(t: MidiType): (s: Shape)
    ensures s.width * s.height <= 110 && Covers(s.layout, s.width, s.height)
    ensures s.ledCount == ShapeOf(t).ledCount
    ensures t != Mk2 ==> s == ShapeOf(t)
  {
    Mk2MidiFormula();
    if t == Mk2 then Shape(80, 10, 10, Mk2MidiLayout) else ShapeOf(t)
  }

  /** The visiting order of the build for shape `s`. */
  function Cells(s: Shape): seq<byte>
    requires Covers(s.layout, s.width, s.height)
  {
    Scan.Scan(s.layout, s.width, s.height)
  }

  /** A constructed device: its type, its shape and the four cached lookups. */
  datatype Device = Device(deviceType: MidiType, shape: Shape, lookups: Lookups)

  /** The array lengths the constructor allocates. */
  predicate Valid(d: Device)
  {
    |d.lookups.indexToMidi| == 256 && |d.lookups.midiToIndex| == 256 &&
    |d.lookups.posToMidi| == |d.lookups.posToIndex| == d.shape.width * d.shape.height
  }

  /** The lookups are exactly the build over the device's window. */
  ghost predicate Built(d: Device)
  {
    Covers(d.shape.layout, d.shape.width, d.shape.height) &&
    d.shape.width * d.shape.height < 256 &&
    var cells := Cells(d.shape);
    d.lookups.posToMidi == cells && d.lookups.posToIndex == Ranks(cells) &&
    MidiToIndexOf(d.lookups, cells, Ranks(cells)) && IndexToMidiOf(d.lookups, cells, Ranks(cells))
  }

  lemma BuiltValid(d: Device)
    requires Built(d)
    ensures Valid(d)
  {}

  /** The LaunchpadMidiDevice constructor: pick the shape, then run the
      contiguous-index build over the bottom-first window. */
  method Create(t: MidiType) returns (d: Device)
    ensures d.deviceType == t && d.shape == ShapeOf(t)
    ensures Built(d) && Valid(d)
  {
    var s := ShapeOf(t);
    var lookups := Build(Cells(s));
    d := Device(t, s, lookups);
  }

  /** The same build over the corrected shapes. */
  method CreateCorrected(t: MidiType) returns (d: Device)
    ensures d.deviceType == t && d.shape == CorrectedShapeOf(t)
    ensures Built(d) && Valid(d)
  {
    var s := CorrectedShapeOf(t);
    var lookups := Build(Cells(s));
    d := Device(t, s, lookups);
  }

  // ---------------------------------------------------------------------
  // Getters: GetMidiId, GetIndex and GetPos

  /** Position (x, y) of a w-by-h grid, flattened. */
  function Flat(w: nat, h: nat, x: nat, y: nat): (k: nat)
    requires x < w && y < h
    ensures k < w * h
  {
    MulMono(y + 1, h, w);
    y * w + x
  }

  function GetIndex(d: Device, midiId: byte): byte
    requires Valid(d)
  {
    d.lookups.midiToIndex[midiId]
  }

  /** The `int` overload: truncates to a byte first. */
  function GetIndexInt(d: Device, midiId: int): byte
    requires Valid(d)
  {
    GetIndex(d, ToByte(midiId))
  }

  function GetIndexAt(d: Device, x: byte, y: byte): byte
    requires Valid(d)
  {
    if x < d.shape.width && y < d.shape.height
    then d.lookups.posToIndex[Flat(d.shape.width, d.shape.height, x, y)]
    else Sentinel
  }

  /** The `int, int` overload: truncates both before the bounds check. */
  function GetIndexAtInt(d: Device, x: int, y: int): byte
    requires Valid(d)
  {
    GetIndexAt(d, ToByte(x), ToByte(y))
  }

  /** `GetMidiId(byte)` as written: it reads the midi -> index array. */
  function GetMidiIdByte(d: Device, index: byte): byte
    requires Valid(d)
  {
    d.lookups.midiToIndex[index]
  }

  /** `GetMidiId(byte)` reading the index -> midi array, as its `int`
      sibling does. */
  function GetMidiIdByteCorrected(d: Device, index: byte): byte
    requires Valid(d)
  {
    d.lookups.indexToMidi[index]
  }

  /** The `int` overload: out-of-range indices answer the sentinel. */
  function GetMidiIdInt(d: Device, index: int): byte
    requires Valid(d)
  {
    if 0 <= index < 256 then d.lookups.indexToMidi[index] else Sentinel
  }

  function GetMidiIdAt(d: Device, x: byte, y: byte): byte
    requires Valid(d)
  {
    if x < d.shape.width && y < d.shape.height
    then d.lookups.posToMidi[Flat(d.shape.width, d.shape.height, x, y)]
    else Sentinel
  }

  function GetMidiIdAtInt(d: Device, x: int, y: int): byte
    requires Valid(d)
  {
    GetMidiIdAt(d, ToByte(x), ToByte(y))
  }

  /** `GetPos`: the decimal split of the id, after moving the Mk2 top row
      (104..111) down by 13 onto 91..98.
      The units digit is x and the tens digit y. */
  function GetPos(t: MidiType, midiId: byte): (p: Pos)
    ensures p.x < 10
    ensures !(t == Mk2 && midiId >= 104) ==> 10 * p.y + p.x == midiId
    ensures t == Mk2 && midiId >= 104 ==> 10 * p.y + p.x == midiId - 13
  {
    var id: byte := if t == Mk2 && midiId >= 104 then midiId - 13 else midiId;
    Pos(id % 10, id / 10)
  }

  // ---------------------------------------------------------------------
  // The tables as formulas

  function Mk2MidiCell(r: int, c: int): int
  {
    if r == 9 || c == 0 then 255
    else if r == 0 then (if c <= 8 then 103 + c else 255)
    else 10 * (9 - r) + c
  }

  lemma Mk2MidiFormula()
    ensures IsTable(Mk2MidiLayout, 10, 10)
    ensures forall r, c | 0 <= r < 10 && 0 <= c < 10 :: Mk2MidiLayout[r][c] == Mk2MidiCell(r, c)
  {}

  lemma ProMidiFormula()
    ensures IsTable(ProMidiLayout, 10, 10)
    ensures forall r, c | 0 <= r < 10 && 0 <= c < 10 :: ProMidiLayout[r][c] == DeviceInfo.ProCell(r, c)
  {}

  /** The Pro table is the Pro-with-power table without its last row. */
  lemma ProTablesShareRows()
    ensures ProMidiLayout == ProWithPowerMidiLayout[..10]
  {
    ProMidiFormula();
    DeviceInfo.ProFormula();
    forall r | 0 <= r < 10
      ensures ProMidiLayout[r] == ProWithPowerMidiLayout[r]
    {
    }
  }

  // ---------------------------------------------------------------------
  // The window

  /** The build visits step j at table cell [h-1-j/w, j%w]. */
  lemma CellAt(s: Shape, j: nat) returns (r: nat, c: nat)
    requires Covers(s.layout, s.width, s.height) && j < s.width * s.height
    ensures r == s.height - 1 - j / s.width && c == j % s.width
    ensures r < s.height && c < s.width
    ensures Cells(s)[j] == s.layout[r][c]
  {
    r, c := ScanCell(s.layout, s.width, s.height, j);
  }

  lemma Mk2MidiDistinct()
    ensures DistinctIds(Mk2MidiLayout)
  {
    Mk2MidiFormula();
  }

  lemma ProMidiDistinct()
    ensures DistinctIds(ProMidiLayout)
  {
    ProMidiFormula();
  }

  lemma ShapeDistinct(s: Shape)
    requires s == ShapeOf(Mk2) || s == ShapeOf(Pro) || s == ShapeOf(ProWithPower) || s == CorrectedShapeOf(Mk2)
    ensures DistinctIds(s.layout)
  {
    Mk2MidiDistinct();
    ProMidiDistinct();
    DeviceInfo.ProDistinct();
  }

  /** A mapped step always receives an index. */
  lemma RankMapped(cells: seq<byte>, j: nat)
    requires |cells| < 256 && j < |cells|
    ensures Ranks(cells)[j] != Sentinel <==> cells[j] != Sentinel
  {}

  // ---------------------------------------------------------------------
  // Properties of the lookups

  /** Position lookups answer the visited cell: GetMidiIdAt(x, y) is table
      cell [Height-1-y, x], GetIndexAt(x, y) is that cell's index, mapped
      exactly when the cell is, and both are 255 outside Width by Height. */
  lemma PositionLookups(d: Device, x: byte, y: byte)
    requires Built(d)
    ensures x < d.shape.width && y < d.shape.height ==>
              GetMidiIdAt(d, x, y) == d.shape.layout[d.shape.height - 1 - y][x] &&
              (GetIndexAt(d, x, y) == Sentinel <==> GetMidiIdAt(d, x, y) == Sentinel)
    ensures !(x < d.shape.width && y < d.shape.height) ==>
              GetMidiIdAt(d, x, y) == Sentinel && GetIndexAt(d, x, y) == Sentinel
  {
    if x < d.shape.width && y < d.shape.height {
      ScanAt(d.shape.layout, d.shape.width, d.shape.height, x, y);
    }
  }

  /** An id has an index exactly when the window holds it. */
  lemma IndexMapped(d: Device, m: byte)
    requires Built(d)
    ensures GetIndex(d, m) != Sentinel <==> (m != Sentinel && m in Cells(d.shape))
  {
    var cells := Cells(d.shape);
    var ranks := Ranks(cells);
    if GetIndex(d, m) != Sentinel {
      LastMatchSource(cells, ranks, |cells|, m);
    } else if m != Sentinel && m in cells {
      var j :| 0 <= j < |cells| && cells[j] == m;
      if GetIndex(d, m) == Sentinel {
        LastMatchSourceOrSentinel(cells, ranks, |cells|, j);
      }
    }
  }

  /** Some paired cell holding the key makes the match non-sentinel. */
  lemma {:induction false} LastMatchSourceOrSentinel(keys: seq<byte>, vals: seq<byte>, n: nat, j: nat)
    requires |keys| == |vals| && j < n <= |keys| && Paired(keys, vals, j)
    ensures LastMatch(keys, vals, n, keys[j]) != Sentinel
  {
    if n - 1 != j && !(keys[n - 1] == keys[j] && keys[n - 1] != Sentinel && vals[n - 1] != Sentinel) {
      LastMatchSourceOrSentinel(keys, vals, n - 1, j);
    }
  }

  /** On every window step holding an id, the `int` GetMidiId undoes GetIndex
      and GetIndex undoes the `int` GetMidiId, and the position lookups agree
      with both: the four caches describe one bijection between the mapped
      cells, their ids and 0 .. mapped-1. */
  lemma LookupRoundTrip(d: Device, j: nat)
    requires Built(d)
    requires d.shape == ShapeOf(d.deviceType) || d.shape == CorrectedShapeOf(d.deviceType)
    requires j < |Cells(d.shape)| && Cells(d.shape)[j] != Sentinel
    ensures GetIndex(d, Cells(d.shape)[j]) == d.lookups.posToIndex[j]
    ensures GetMidiIdInt(d, d.lookups.posToIndex[j]) == Cells(d.shape)[j]
    ensures GetMidiIdInt(d, GetIndex(d, Cells(d.shape)[j])) == Cells(d.shape)[j]
    ensures GetIndex(d, GetMidiIdInt(d, d.lookups.posToIndex[j])) == d.lookups.posToIndex[j]
    ensures d.lookups.posToIndex[j] < CountMapped(Cells(d.shape), |Cells(d.shape)|)
  {
    ShapeDistinct(d.shape);
    DistinctRoundTrip(d, j);
  }

  /** The round trip for any table whose ids are distinct. */
  lemma DistinctRoundTrip(d: Device, j: nat)
    requires Built(d) && DistinctIds(d.shape.layout)
    requires j < |Cells(d.shape)| && Cells(d.shape)[j] != Sentinel
    ensures GetIndex(d, Cells(d.shape)[j]) == d.lookups.posToIndex[j]
    ensures GetMidiIdInt(d, d.lookups.posToIndex[j]) == Cells(d.shape)[j]
    ensures GetMidiIdInt(d, GetIndex(d, Cells(d.shape)[j])) == Cells(d.shape)[j]
    ensures GetIndex(d, GetMidiIdInt(d, d.lookups.posToIndex[j])) == d.lookups.posToIndex[j]
    ensures d.lookups.posToIndex[j] < CountMapped(Cells(d.shape), |Cells(d.shape)|)
  {
    var cells := Cells(d.shape);
    ScanKeysDistinct(d.shape.layout, d.shape.width, d.shape.height);
    RanksDistinct(cells);
    RankMapped(cells, j);
    PairedRoundTrip(cells, Ranks(cells), j);
    RanksBelow(cells, j);
  }

  /** The same round trip through the corrected byte overload. */
  lemma CorrectedByteRoundTrip(d: Device, m: byte)
    requires Built(d)
    requires d.shape == ShapeOf(d.deviceType) || d.shape == CorrectedShapeOf(d.deviceType)
    requires m != Sentinel && m in Cells(d.shape)
    ensures GetMidiIdByteCorrected(d, GetIndex(d, m)) == m
  {
    var j :| 0 <= j < |Cells(d.shape)| && Cells(d.shape)[j] == m;
    LookupRoundTrip(d, j);
  }

  /** The `int` overloads truncate before they check bounds: an argument and
      the same argument plus 256 answer alike, so (256, 0) reads (0, 0). */
  lemma IntOverloadsTruncate(d: Device, m: int, x: int, y: int)
    requires Valid(d)
    ensures GetIndexInt(d, m + 256) == GetIndexInt(d, m)
    ensures GetIndexAtInt(d, x + 256, y) == GetIndexAtInt(d, x, y)
    ensures GetIndexAtInt(d, x, y + 256) == GetIndexAtInt(d, x, y)
    ensures GetMidiIdAtInt(d, x + 256, y) == GetMidiIdAtInt(d, x, y)
    ensures GetIndexAtInt(d, 256, 0) == GetIndexAt(d, 0, 0)
  {}

  // ---------------------------------------------------------------------
  // Concrete devices

  lemma ProCells(j: nat)
    requires j < 100
    ensures Cells(ShapeOf(Pro))[j] == DeviceInfo.ProCell(9 - j / 10, j % 10)
  {
    ProMidiFormula();
    var s := ShapeOf(Pro);
    assert s.width == 10 && s.height == 10 && s.layout == ProMidiLayout;
    var r, c := CellAt(s, j);
  }

  /** `GetMidiId(byte)` as written does not undo GetIndex: on the Pro, id 1
      gets index 0, and reading index 0 from the midi -> index array finds
      no id 0 and answers 255. */
  lemma GetMidiIdByteBreaksRoundTrip(d: Device)
    requires Built(d) && d.deviceType == Pro && d.shape == ShapeOf(Pro)
    ensures GetIndex(d, 1) == 0
    ensures GetMidiIdByte(d, GetIndex(d, 1)) == Sentinel
    ensures GetMidiIdByteCorrected(d, GetIndex(d, 1)) == 1
  {
    var cells := Cells(d.shape);
    ProCells(0);
    ProCells(1);
    assert cells[1] == 1;
    assert Ranks(cells)[1] == CountMapped(cells, 1) == 0;
    LookupRoundTrip(d, 1);
    forall j | 0 <= j < |cells|
      ensures cells[j] != 0
    {
      ProCells(j);
    }
    LastMatchAbsent(cells, Ranks(cells), |cells|, 0);
  }

  lemma Mk2Covers()
    ensures Covers(Mk2MidiLayout, 10, 10) && Covers(Mk2MidiLayout, 9, 9)
  {
    Mk2MidiFormula();
  }

  /** A row laid out like Mk2 midi row `r` maps columns 1..8 of its first
      nine in every row but the last, plus column 9 below the top row. */
  lemma Mk2RowCount(row: seq<byte>, r: nat)
    requires r < 10 && |row| == 10
    requires forall c | 0 <= c < 10 :: row[c] == Mk2MidiCell(r, c)
    ensures r < 9 ==> CountMapped(row, 9) == 8
    ensures r == 0 ==> CountMapped(row, 10) == 8
    ensures 1 <= r < 9 ==> CountMapped(row, 10) == 9
    ensures r == 9 ==> CountMapped(row, 10) == 0
  {
    if r == 9 {
      CountGap(row, 0, 10);
    } else {
      CountGap(row, 0, 1);
      CountStretch(row, 1, 9);
      if r == 0 {
        CountGap(row, 9, 10);
      } else {
        CountStretch(row, 9, 10);
      }
    }
  }

  lemma Mk2WindowCount()
    ensures Covers(Mk2MidiLayout, 9, 9) && WindowCount(Mk2MidiLayout, 9, 9, 9) == 72
    ensures Covers(Mk2MidiLayout, 10, 10) && WindowCount(Mk2MidiLayout, 10, 10, 10) == 80
  {
    Mk2Covers();
    Mk2MidiFormula();
    forall r | 0 <= r < 9
      ensures CountMapped(Mk2MidiLayout[r], 9) == 8
    {
      Mk2RowCount(Mk2MidiLayout[r], r);
    }
    forall r | 1 <= r < 9
      ensures CountMapped(Mk2MidiLayout[r], 10) == 9
    {
      Mk2RowCount(Mk2MidiLayout[r], r);
    }
    Mk2RowCount(Mk2MidiLayout[9], 9);
    Mk2RowCount(Mk2MidiLayout[0], 0);
    WindowCountRows(Mk2MidiLayout, 9, 9, 0, 9, 8);
    WindowCountRows(Mk2MidiLayout, 10, 10, 1, 9, 9);
  }

  lemma ProCovers()
    ensures Covers(ProMidiLayout, 10, 10)
  {
    ProMidiFormula();
  }

  lemma ProWindowCount()
    ensures Covers(ProMidiLayout, 10, 10) && WindowCount(ProMidiLayout, 10, 10, 10) == 96
  {
    ProCovers();
    ProMidiFormula();
    forall r | 1 <= r < 9
      ensures CountMapped(ProMidiLayout[r], 10) == 10
    {
      DeviceInfo.ProRowCount(ProMidiLayout[r], r);
    }
    DeviceInfo.ProRowCount(ProMidiLayout[9], 9);
    WindowCountRows(ProMidiLayout, 10, 10, 1, 9, 10);
    DeviceInfo.ProRowCount(ProMidiLayout[0], 0);
  }

  lemma ProWithPowerWindowCount()
    ensures Covers(ProWithPowerMidiLayout, 10, 11) && WindowCount(ProWithPowerMidiLayout, 10, 11, 11) == 97
  {
    var g := ProWithPowerMidiLayout;
    DeviceInfo.ProFormula();
    assert Covers(g, 10, 11);
    forall r | 1 <= r < 9
      ensures CountMapped(g[r], 10) == 10
    {
      DeviceInfo.ProRowCount(g[r], r);
    }
    DeviceInfo.ProRowCount(g[10], 10);
    DeviceInfo.ProRowCount(g[9], 9);
    WindowCountRows(g, 10, 11, 2, 10, 10);
    DeviceInfo.ProRowCount(g[0], 0);
  }

  /** The number of lights the as-written build maps, against LEDCount: 72
      for the Mk2, which declares 80; the corrected window maps 80. */
  lemma Mk2MappedCount(d: Device)
    requires Built(d) && (d.shape == ShapeOf(Mk2) || d.shape == CorrectedShapeOf(Mk2))
    ensures d.shape == ShapeOf(Mk2) ==>
              CountMapped(d.lookups.posToMidi, |d.lookups.posToMidi|) == 72 < d.shape.ledCount
    ensures d.shape == CorrectedShapeOf(Mk2) ==>
              CountMapped(d.lookups.posToMidi, |d.lookups.posToMidi|) == 80 == d.shape.ledCount
  {
    Mk2WindowCount();
    ScanRowsCount(d.shape.layout, d.shape.width, d.shape.height, d.shape.height);
  }

  /** 96 for the Pro and the default branch, which declare 97; 97 for the
      Pro with power, which declares 97. */
  lemma ProMappedCount(d: Device)
    requires Built(d) && d.shape == ShapeOf(d.deviceType) && d.deviceType != Mk2
    ensures d.deviceType != ProWithPower ==>
              CountMapped(d.lookups.posToMidi, |d.lookups.posToMidi|) == 96 < d.shape.ledCount
    ensures d.deviceType == ProWithPower ==>
              CountMapped(d.lookups.posToMidi, |d.lookups.posToMidi|) == 97 == d.shape.ledCount
  {
    ProWindowCount();
    ProWithPowerWindowCount();
    ScanRowsCount(d.shape.layout, d.shape.width, d.shape.height, d.shape.height);
  }

  /** On the Pro, GetPos inverts the position lookup: the id at (x, y)
      splits back into (x, y). */
  lemma ProPosition(d: Device, x: byte, y: byte)
    requires Built(d) && d.shape == ShapeOf(Pro) && GetMidiIdAt(d, x, y) != Sentinel
    ensures x < 10 && y < 10
    ensures GetPos(Pro, GetMidiIdAt(d, x, y)) == Pos(x, y)
  {
    PositionLookups(d, x, y);
    ProMidiFormula();
    assert x < 10 && y < 10;
    var m := GetMidiIdAt(d, x, y);
    assert m == DeviceInfo.ProCell(9 - y, x);
    ProCellPos(m, 9 - y, x);
  }

  /** A mapped Pro cell's id splits into its column and its row counted
      from the bottom. */
  lemma ProCellPos(m: byte, r: nat, c: nat)
    requires r < 10 && c < 10 && m == DeviceInfo.ProCell(r, c) != 255
    ensures GetPos(Pro, m) == Pos(c, 9 - r)
  {}

  /** On the Mk2 as written, the 9-by-9 window starts one row too low: the id
      at (x, y) splits into (x, y + 1). Over the corrected 10-by-10 window it
      splits back into (x, y). */
  lemma Mk2Position(d: Device, x: byte, y: byte)
    requires Built(d) && (d.shape == ShapeOf(Mk2) || d.shape == CorrectedShapeOf(Mk2))
    requires GetMidiIdAt(d, x, y) != Sentinel
    ensures d.shape == ShapeOf(Mk2) ==> x < 9 && y < 9 && GetPos(Mk2, GetMidiIdAt(d, x, y)) == Pos(x, y + 1)
    ensures d.shape == CorrectedShapeOf(Mk2) ==> x < 10 && y < 10 && GetPos(Mk2, GetMidiIdAt(d, x, y)) == Pos(x, y)
  {
    if d.shape == ShapeOf(Mk2) {
      Mk2PositionNarrow(d, x, y);
    } else {
      Mk2PositionWhole(d, x, y);
    }
  }

  lemma Mk2PositionNarrow(d: Device, x: byte, y: byte)
    requires Built(d) && d.shape == ShapeOf(Mk2) && GetMidiIdAt(d, x, y) != Sentinel
    ensures x < 9 && y < 9 && GetPos(Mk2, GetMidiIdAt(d, x, y)) == Pos(x, y + 1)
  {
    PositionLookups(d, x, y);
    Mk2MidiFormula();
    var m := GetMidiIdAt(d, x, y);
    assert m == Mk2MidiCell(8 - y, x);
    Mk2CellPos(m, 8 - y, x);
  }

  lemma Mk2PositionWhole(d: Device, x: byte, y: byte)
    requires Built(d) && d.shape == CorrectedShapeOf(Mk2) && GetMidiIdAt(d, x, y) != Sentinel
    ensures x < 10 && y < 10 && GetPos(Mk2, GetMidiIdAt(d, x, y)) == Pos(x, y)
  {
    PositionLookups(d, x, y);
    Mk2MidiFormula();
    var m := GetMidiIdAt(d, x, y);
    assert m == Mk2MidiCell(9 - y, x);
    Mk2CellPos(m, 9 - y, x);
  }

  /** A mapped Mk2 cell's id splits into its column and its row counted
      from the bottom of the 10-by-10 table. */
  lemma Mk2CellPos(m: byte, r: nat, c: nat)
    requires r < 10 && c < 10 && m == Mk2MidiCell(r, c) != 255
    ensures GetPos(Mk2, m) == Pos(c, 9 - r)
  {}

  /** The as-written Mk2 build leaves the right column (the Track buttons
      19, 29, .., 89) without an index; the corrected one indexes them. */
  lemma Mk2RightColumn(d: Device, k: nat)
    requires Built(d) && (d.shape == ShapeOf(Mk2) || d.shape == CorrectedShapeOf(Mk2))
    requires 1 <= k <= 8
    ensures d.shape == ShapeOf(Mk2) ==> GetIndex(d, 10 * k + 9) == Sentinel
    ensures d.shape == CorrectedShapeOf(Mk2) ==> GetIndex(d, 10 * k + 9) != Sentinel
  {
    var cells := Cells(d.shape);
    IndexMapped(d, 10 * k + 9);
    if d.shape == ShapeOf(Mk2) {
      forall j | 0 <= j < |cells|
        ensures cells[j] != 10 * k + 9
      {
        Mk2NarrowCell(d.shape, j, k);
      }
    } else {
      Mk2MidiFormula();
      var j := k * 10 + 9;
      var r, c := CellAt(d.shape, j);
      assert r == 9 - k && c == 9;
    }
  }

  lemma Mk2NarrowCell(s: Shape, j: nat, k: nat)
    requires s == ShapeOf(Mk2) && j < 81 && 1 <= k <= 8
    ensures Cells(s)[j] != 10 * k + 9
  {
    assert s.width == 9 && s.height == 9 && s.layout == Mk2MidiLayout;
    var r, c := CellAt(s, j);
    assert s.layout[r][c] == Mk2MidiCell(r, c) by {
      Mk2MidiFormula();
    }
    Mk2CellNotRight(r, c, k);
  }

  /** No cell left of the Mk2 table's last column holds a Track id. */
  lemma Mk2CellNotRight(r: nat, c: nat, k: nat)
    requires r < 9 && c < 9 && 1 <= k <= 8
    ensures Mk2MidiCell(r, c) != 10 * k + 9
  {}
}
