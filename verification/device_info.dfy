/** DeviceInfo.cs: the four static layout tables, their system-button maps,
    the constructor's derived sizes and `FromType`. */
module DeviceInfo {
  import opened Common

  /** The largest light count of any supported device (the Pro). */
  const MaxLightCount: nat := 97

  /** The `DeviceType` enum this file switches on. */
  datatype DeviceType = LaunchpadS | LaunchpadMini | LaunchpadMk2 | LaunchpadPro

  /** The named transport / navigation buttons. */
  datatype SystemButton =
    | Track1 | Track2 | Track3 | Track4 | Track5 | Track6 | Track7 | Track8
    | Up | Down | Left | Right | Mode1 | Mode2 | Mode3 | Mode4
    | RecordArm | TrackSelect | Mute | Solo | Volume | Pan | Sends | StopClip
    | Shift | Click | Undo | Delete | Quantise | Duplicate | Double | Record

  /** Which renderer `RendererFactory` builds. */
  datatype RendererKind = SRenderer | RgbRenderer

  datatype Info = Info(
    deviceType: DeviceType,
    midiName: string,
    midiSubName: string,
    width: nat,
    height: nat,
    innerOffsetX: int,
    innerOffsetY: int,
    lightCount: nat,
    layout: Grid,
    systemButtons: map<byte, SystemButton>,
    renderer: RendererKind)

  /** A C# `byte[,]`: all rows have the length of the first. */
  predicate Rectangular(g: Grid)
  {
    forall r | 0 <= r < |g| :: |g[r]| == |g[0]|
  }

  /** `GetLength(1)`: the column count. */
  function Columns(g: Grid): nat
  {
    if |g| == 0 then 0 else |g[0]|
  }

  /** The DeviceInfo constructor, with LightCount given by the row sums. */
  function Make(t: DeviceType, name: string, subName: string, layout: Grid, ox: int, oy: int,
                buttons: map<byte, SystemButton>, renderer: RendererKind): Info
  {
    Info(t, name, subName, Columns(layout), |layout|, ox, oy, TableCount(layout, |layout|),
         layout, buttons, renderer)
  }

  /** The cells of the first `rows` rows that hold an id. */
  ghost function MappedCells(g: Grid, rows: nat): set<(int, int)>
    requires rows <= |g|
  {
    set r, c | 0 <= r < rows && 0 <= c < |g[r]| && g[r][c] != Sentinel :: (r, c)
  }

  ghost function RowCells(g: Grid, r: nat, m: nat): set<(int, int)>
    requires r < |g| && m <= |g[r]|
  {
    set c | 0 <= c < m && g[r][c] != Sentinel :: (r, c)
  }

  lemma {:induction false} RowCellsCount(g: Grid, r: nat, m: nat)
    requires r < |g| && m <= |g[r]|
    ensures |RowCells(g, r, m)| == CountMapped(g[r], m)
  {
    if m > 0 {
      RowCellsCount(g, r, m - 1);
      RowCellsStep(g, r, m);
    }
  }

  /** The cells of a row prefix grow by the last cell exactly when it holds
      an id. */
  lemma RowCellsStep(g: Grid, r: nat, m: nat)
    requires r < |g| && 0 < m <= |g[r]|
    ensures |RowCells(g, r, m)| == |RowCells(g, r, m - 1)| + (if g[r][m - 1] != Sentinel then 1 else 0)
  {
    var prev := RowCells(g, r, m - 1);
    if g[r][m - 1] != Sentinel {
      assert RowCells(g, r, m) == prev + {(r, m - 1)};
      assert (r, m - 1) !in prev;
    } else {
      assert RowCells(g, r, m) == prev;
    }
  }

  /** The row-by-row count is the number of cells that hold an id. */
  lemma {:induction false} TableCountIsCardinality(g: Grid, rows: nat)
    requires rows <= |g|
    ensures TableCount(g, rows) == |MappedCells(g, rows)|
  {
    if rows > 0 {
      TableCountIsCardinality(g, rows - 1);
      RowCellsCount(g, rows - 1, |g[rows - 1]|);
      var prev := MappedCells(g, rows - 1);
      var row := RowCells(g, rows - 1, |g[rows - 1]|);
      assert MappedCells(g, rows) == prev + row;
      assert prev !! row;
    }
  }

  /** The DeviceInfo constructor's nested counting loop: LightCount is
      the number of layout cells that are not 255, Width the column count
      and Height the row count. */
  method New(t: DeviceType, name: string, subName: string, layout: Grid, ox: int, oy: int,
             buttons: map<byte, SystemButton>, renderer: RendererKind) returns (info: Info)
    requires Rectangular(layout)
    ensures info.deviceType == t && info.midiName == name && info.midiSubName == subName
    ensures info.innerOffsetX == ox && info.innerOffsetY == oy
    ensures info.layout == layout && info.systemButtons == buttons && info.renderer == renderer
    ensures info.lightCount == Make(t, name, subName, layout, ox, oy, buttons, renderer).lightCount
    ensures info.lightCount == |MappedCells(layout, |layout|)|
    ensures info.width == Columns(layout) && info.height == |layout|
  {
    var height := |layout|;
    var width := Columns(layout);
    var count := 0;
    var y := 0;
    while y < height
      invariant 0 <= y <= height
      invariant count == TableCount(layout, y)
    {
      var x := 0;
      while x < width
        invariant 0 <= x <= width
        invariant count == TableCount(layout, y) + CountMapped(layout[y], x)
      {
        if layout[y][x] != Sentinel {
          count := count + 1;
        }
        x := x + 1;
      }
      y := y + 1;
    }
    TableCountIsCardinality(layout, height);
    info := Info(t, name, subName, width, height, ox, oy, count, layout, buttons, renderer);
  }

  // ---------------------------------------------------------------------
  // The static tables: LaunchpadS, LaunchpadMini, LaunchpadMK2, LaunchpadPro

  const SLayout: Grid := [
    [204, 205, 206, 207, 208, 209, 210, 211, 255],
    [0, 1, 2, 3, 4, 5, 6, 7, 8],
    [16, 17, 18, 19, 20, 21, 22, 23, 24],
    [32, 33, 34, 35, 36, 37, 38, 39, 40],
    [48, 49, 50, 51, 52, 53, 54, 55, 56],
    [64, 65, 66, 67, 68, 69, 70, 71, 72],
    [80, 81, 82, 83, 84, 85, 86, 87, 88],
    [96, 97, 98, 99, 100, 101, 102, 103, 104],
    [112, 113, 114, 115, 116, 117, 118, 119, 120]
  ]

  /** The Launchpad S and Mini tables are identical. */
  const MiniLayout: Grid := SLayout

  const Mk2Layout: Grid := [
    [104, 105, 106, 107, 108, 109, 110, 111, 255],
    [81, 82, 83, 84, 85, 86, 87, 88, 89],
    [71, 72, 73, 74, 75, 76, 77, 78, 79],
    [61, 62, 63, 64, 65, 66, 67, 68, 69],
    [51, 52, 53, 54, 55, 56, 57, 58, 59],
    [41, 42, 43, 44, 45, 46, 47, 48, 49],
    [31, 32, 33, 34, 35, 36, 37, 38, 39],
    [21, 22, 23, 24, 25, 26, 27, 28, 29],
    [11, 12, 13, 14, 15, 16, 17, 18, 19]
  ]

  const ProLayout: Grid := [
    [255, 91, 92, 93, 94, 95, 96, 97, 98, 255],
    [80, 81, 82, 83, 84, 85, 86, 87, 88, 89],
    [70, 71, 72, 73, 74, 75, 76, 77, 78, 79],
    [60, 61, 62, 63, 64, 65, 66, 67, 68, 69],
    [50, 51, 52, 53, 54, 55, 56, 57, 58, 59],
    [40, 41, 42, 43, 44, 45, 46, 47, 48, 49],
    [30, 31, 32, 33, 34, 35, 36, 37, 38, 39],
    [20, 21, 22, 23, 24, 25, 26, 27, 28, 29],
    [10, 11, 12, 13, 14, 15, 16, 17, 18, 19],
    [255, 1, 2, 3, 4, 5, 6, 7, 8, 255],
    [255, 255, 255, 255, 99, 255, 255, 255, 255, 255]
  ]

  /** The Launchpad S and Mini system buttons (identical maps). */
  const SButtons: map<byte, SystemButton> := map[
    8 := Track1, 24 := Track2, 40 := Track3, 56 := Track4,
    72 := Track5, 88 := Track6, 104 := Track7, 120 := Track8,
    204 := Up, 205 := Down, 206 := Left, 207 := Right,
    208 := Mode1, 209 := Mode2, 210 := Mode3, 211 := Mode4]

  const Mk2Buttons: map<byte, SystemButton> := map[
    19 := Track8, 29 := Track7, 39 := Track6, 49 := Track5,
    59 := Track4, 69 := Track3, 79 := Track2, 89 := Track1,
    104 := Up, 105 := Down, 106 := Left, 107 := Right,
    108 := Mode1, 109 := Mode2, 110 := Mode3, 111 := Mode4]

  const ProButtons: map<byte, SystemButton> := map[
    1 := RecordArm, 2 := TrackSelect, 3 := Mute, 4 := Solo,
    5 := Volume, 6 := Pan, 7 := Sends, 8 := StopClip,
    19 := Track8, 29 := Track7, 39 := Track6, 49 := Track5,
    59 := Track4, 69 := Track3, 79 := Track2, 89 := Track1,
    91 := Up, 92 := Down, 93 := Left, 94 := Right,
    95 := Mode1, 96 := Mode2, 97 := Mode3, 98 := Mode4,
    80 := Shift, 70 := Click, 60 := Undo, 50 := Delete,
    40 := Quantise, 30 := Duplicate, 20 := Double, 10 := Record]

  function LaunchpadSInfo(): Info
  {
    Make(LaunchpadS, "Launchpad S", "Launchpad S MIDI 1", SLayout, 0, 0, SButtons, SRenderer)
  }

  function LaunchpadMiniInfo(): Info
  {
    Make(LaunchpadMini, "Launchpad Mini", "Launchpad Mini MIDI 1", MiniLayout, 0, 0, SButtons, SRenderer)
  }

  function LaunchpadMk2Info(): Info
  {
    Make(LaunchpadMk2, "Launchpad MK2", "Launchpad MK2 MIDI 2", Mk2Layout, 0, 0, Mk2Buttons, RgbRenderer)
  }

  function LaunchpadProInfo(): Info
  {
    Make(LaunchpadPro, "Launchpad Pro", "Launchpad Pro MIDI 2", ProLayout, 1, 2, ProButtons, RgbRenderer)
  }

  /** `FromType`: the matching static for Mini, Mk2 and Pro;
      every other type, the Launchpad S included, throws. */
  function FromType(t: DeviceType): (r: Result<Info>)
    ensures r.Ok? <==> t != LaunchpadS
    ensures r.Ok? ==> r.value.deviceType == t
    ensures r.Throws? ==> r.error == ArgumentOutOfRange
  {
    match t
    case LaunchpadMini => Ok(LaunchpadMiniInfo())
    case LaunchpadMk2 => Ok(LaunchpadMk2Info())
    case LaunchpadPro => Ok(LaunchpadProInfo())
    case _ => Throws(ArgumentOutOfRange)
  }

  // ---------------------------------------------------------------------
  // Facts about the static tables

  /** Each table, cell by cell, as a formula in its row and column. */
  function SCell(r: int, c: int): int
  {
    if r == 0 then (if c < 8 then 204 + c else 255) else 16 * (r - 1) + c
  }

  function Mk2Cell(r: int, c: int): int
  {
    if r == 0 then (if c < 8 then 104 + c else 255) else 10 * (9 - r) + c + 1
  }

  function ProCell(r: int, c: int): int
  {
    if r == 0 then (if 1 <= c <= 8 then 90 + c else 255)
    else if r <= 8 then 10 * (9 - r) + c
    else if r == 9 then (if 1 <= c <= 8 then c else 255)
    else (if c == 4 then 99 else 255)
  }

  lemma SFormula()
    ensures IsTable(SLayout, 9, 9)
    ensures forall r, c | 0 <= r < 9 && 0 <= c < 9 :: SLayout[r][c] == SCell(r, c)
  {}

  lemma Mk2Formula()
    ensures IsTable(Mk2Layout, 9, 9)
    ensures forall r, c | 0 <= r < 9 && 0 <= c < 9 :: Mk2Layout[r][c] == Mk2Cell(r, c)
  {}

  lemma ProFormula()
    ensures IsTable(ProLayout, 11, 10)
    ensures forall r, c | 0 <= r < 11 && 0 <= c < 10 :: ProLayout[r][c] == ProCell(r, c)
  {}

  /** Width is the column count and Height the row count: 9 by 9 for the S,
      Mini and Mk2, 10 wide by 11 high for the Pro. */
  lemma Sizes()
    ensures LaunchpadSInfo().width == 9 && LaunchpadSInfo().height == 9
    ensures LaunchpadMiniInfo().width == 9 && LaunchpadMiniInfo().height == 9
    ensures LaunchpadMk2Info().width == 9 && LaunchpadMk2Info().height == 9
    ensures LaunchpadProInfo().width == 10 && LaunchpadProInfo().height == 11
    ensures LaunchpadProInfo().innerOffsetX == 1 && LaunchpadProInfo().innerOffsetY == 2
  {}

  lemma STableCount()
    ensures TableCount(SLayout, 9) == 80
  {
    SFormula();
    assert CountMapped(SLayout[0], 9) == 8 by {
      CountStretch(SLayout[0], 0, 8);
      CountGap(SLayout[0], 8, 9);
    }
    forall r | 1 <= r < 9
      ensures CountMapped(SLayout[r], |SLayout[r]|) == 9
    {
      CountStretch(SLayout[r], 0, 9);
    }
    TableCountRows(SLayout, 1, 9, 9);
  }

  lemma Mk2TableCount()
    ensures TableCount(Mk2Layout, 9) == 80
  {
    Mk2Formula();
    assert CountMapped(Mk2Layout[0], 9) == 8 by {
      CountStretch(Mk2Layout[0], 0, 8);
      CountGap(Mk2Layout[0], 8, 9);
    }
    forall r | 1 <= r < 9
      ensures CountMapped(Mk2Layout[r], |Mk2Layout[r]|) == 9
    {
      CountStretch(Mk2Layout[r], 0, 9);
    }
    TableCountRows(Mk2Layout, 1, 9, 9);
  }

  /** A row laid out like Pro row `r` maps columns 1..8 in the top row and
      the bottom-but-one, all ten in the grid rows, and column 4 alone in
      the last row. */
  lemma ProRowCount(row: seq<byte>, r: nat)
    requires r < 11 && |row| == 10
    requires forall c | 0 <= c < 10 :: row[c] == ProCell(r, c)
    ensures r == 0 || r == 9 ==> CountMapped(row, 10) == 8
    ensures 1 <= r <= 8 ==> CountMapped(row, 10) == 10
    ensures r == 10 ==> CountMapped(row, 10) == 1
  {
    if r == 0 || r == 9 {
      CountGap(row, 0, 1);
      CountStretch(row, 1, 9);
      CountGap(row, 9, 10);
    } else if r <= 8 {
      CountStretch(row, 0, 10);
    } else {
      CountGap(row, 0, 4);
      CountStretch(row, 4, 5);
      CountGap(row, 5, 10);
    }
  }

  lemma ProTableCount()
    ensures TableCount(ProLayout, 11) == 97
  {
    ProFormula();
    ProRowCount(ProLayout[0], 0);
    forall r | 1 <= r < 9
      ensures CountMapped(ProLayout[r], |ProLayout[r]|) == 10
    {
      ProRowCount(ProLayout[r], r);
    }
    TableCountRows(ProLayout, 1, 9, 10);
    ProRowCount(ProLayout[9], 9);
    ProRowCount(ProLayout[10], 10);
  }

  /** The S and Mini tables map 80 lights, the Mk2 80, and the Pro 97, which
      is MaxLightCount. */
  lemma LightCounts()
    ensures LaunchpadSInfo().lightCount == 80
    ensures LaunchpadMiniInfo().lightCount == 80
    ensures LaunchpadMk2Info().lightCount == 80
    ensures LaunchpadProInfo().lightCount == 97 == MaxLightCount
  {
    STableCount();
    Mk2TableCount();
    ProTableCount();
  }

  /** No information FromType hands out has more lights than MaxLightCount. */
  lemma FromTypeLights(t: DeviceType)
    requires FromType(t).Ok?
    ensures FromType(t).value.lightCount <= MaxLightCount
  {
    LightCounts();
  }

  /** Every table FromType hands out is a full Width-by-Height table without
      repeated ids, and LightCount counts its mapped cells. */
  lemma InfoTable(t: DeviceType)
    requires FromType(t).Ok?
    ensures var i := FromType(t).value;
            IsTable(i.layout, i.height, i.width) && i.width * i.height < 256 && DistinctIds(i.layout)
  {
    InfoShape(t);
    InfoDistinct(t);
  }

  lemma InfoShape(t: DeviceType)
    requires FromType(t).Ok?
    ensures var i := FromType(t).value;
            IsTable(i.layout, i.height, i.width) && i.width * i.height < 256
  {
    Sizes();
    match t
    case LaunchpadMini => SFormula();
    case LaunchpadMk2 => Mk2Formula();
    case LaunchpadPro => ProFormula();
  }

  /** LightCount is the mapped-cell count of the whole table. */
  lemma InfoCount(t: DeviceType)
    requires FromType(t).Ok?
    ensures var i := FromType(t).value;
            i.height == |i.layout| && i.lightCount == TableCount(i.layout, i.height)
  {}

  lemma InfoDistinct(t: DeviceType)
    requires FromType(t).Ok?
    ensures DistinctIds(FromType(t).value.layout)
  {
    match t
    case LaunchpadMini => SDistinct();
    case LaunchpadMk2 => Mk2Distinct();
    case LaunchpadPro => ProDistinct();
  }

  /** The non-sentinel ids of each table are pairwise distinct. */
  lemma SDistinct()
    ensures DistinctIds(SLayout) && DistinctIds(MiniLayout)
  {
    SFormula();
  }

  lemma Mk2Distinct()
    ensures DistinctIds(Mk2Layout)
  {
    Mk2Formula();
  }

  lemma ProDistinct()
    ensures DistinctIds(ProLayout)
  {
    ProFormula();
  }

  /** The key sets of the three system-button maps, as arithmetic. */
  lemma SButtonKeys()
    ensures forall k: int :: k in SButtons <==> (8 <= k <= 120 && k % 16 == 8) || 204 <= k <= 211
  {}

  lemma Mk2ButtonKeys()
    ensures forall k: int :: k in Mk2Buttons <==> (19 <= k <= 89 && k % 10 == 9) || 104 <= k <= 111
  {}

  lemma ProButtonKeys()
    ensures forall k: int :: k in ProButtons <==>
              1 <= k <= 8 || 91 <= k <= 98 ||
              (10 <= k <= 80 && k % 10 == 0) || (19 <= k <= 89 && k % 10 == 9)
  {}

  /** S / Mini system buttons are exactly the right column and the top row. */
  lemma SButtonsPlacement()
    ensures forall r, c | 0 <= r < 9 && 0 <= c < 9 && SLayout[r][c] != Sentinel ::
              SLayout[r][c] in SButtons <==> (r == 0 || c == 8)
  {
    SFormula();
    SButtonKeys();
  }

  /** Every S / Mini system-button key is an id of the table. */
  lemma SButtonsMapped()
    ensures forall k | k in SButtons :: Holds(SLayout, k)
  {
    SFormula();
    SButtonKeys();
    forall k | k in SButtons
      ensures Holds(SLayout, k)
    {
      var r := if k >= 204 then 0 else k / 16 + 1;
      var c := if k >= 204 then k - 204 else 8;
      assert SLayout[r][c] == k;
    }
  }

  /** Mk2 system buttons are exactly the right column {19, 29, ..., 89} and
      the top row {104, ..., 111}. */
  lemma Mk2ButtonsPlacement()
    ensures forall r, c | 0 <= r < 9 && 0 <= c < 9 && Mk2Layout[r][c] != Sentinel ::
              Mk2Layout[r][c] in Mk2Buttons <==> (r == 0 || c == 8)
  {
    Mk2Formula();
    Mk2ButtonKeys();
  }

  /** Every Mk2 system-button key is an id of the table. */
  lemma Mk2ButtonsMapped()
    ensures forall k | k in Mk2Buttons :: Holds(Mk2Layout, k)
  {
    Mk2Formula();
    Mk2ButtonKeys();
    forall k | k in Mk2Buttons
      ensures Holds(Mk2Layout, k)
    {
      var r := if k >= 104 then 0 else 9 - k / 10;
      var c := if k >= 104 then k - 104 else 8;
      assert Mk2Layout[r][c] == k;
    }
  }

  /** Pro system buttons are exactly the outer ring of the upper 10-by-10
      block; the power button 99 below it is not one. */
  lemma ProButtonsPlacement()
    ensures forall r, c | 0 <= r < 11 && 0 <= c < 10 && ProLayout[r][c] != Sentinel ::
              ProLayout[r][c] in ProButtons <==> (r < 10 && (r == 0 || r == 9 || c == 0 || c == 9))
  {
    ProFormula();
    ProButtonKeys();
    forall r, c | 0 <= r < 11 && 0 <= c < 10 && ProLayout[r][c] != Sentinel
      ensures ProLayout[r][c] in ProButtons <==> (r < 10 && (r == 0 || r == 9 || c == 0 || c == 9))
    {
      ProCellRing(r, c);
    }
  }

  /** The arithmetic behind it: a mapped Pro cell's id has the shape of a
      system-button key exactly on the ring. */
  lemma ProCellRing(r: int, c: int)
    requires 0 <= r < 11 && 0 <= c < 10 && ProCell(r, c) != 255
    ensures var k := ProCell(r, c);
            (1 <= k <= 8 || 91 <= k <= 98 || (10 <= k <= 80 && k % 10 == 0) || (19 <= k <= 89 && k % 10 == 9)) <==>
            (r < 10 && (r == 0 || r == 9 || c == 0 || c == 9))
  {
    if 1 <= r <= 8 {
      assert ProCell(r, c) % 10 == c;
    }
  }

  /** Every Pro system-button key is an id of the table. */
  lemma ProButtonsMapped()
    ensures forall k | k in ProButtons :: Holds(ProLayout, k)
  {
    ProFormula();
    ProButtonKeys();
    forall k | k in ProButtons
      ensures Holds(ProLayout, k)
    {
      var r := if k <= 8 then 9 else if k >= 91 then 0 else 9 - k / 10;
      var c := if k <= 8 then k else if k >= 91 then k - 90 else k % 10;
      assert ProLayout[r][c] == k;
    }
  }
}
