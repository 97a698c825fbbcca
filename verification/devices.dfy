/** Devices/LaunchpadPro.cs, LaunchpadMk2.cs and LaunchpadMini.cs: the
    per-model definitions of the later snapshot, where the Pro carries a
    second table of light indices next to its midi-id table. */
module Devices {
  import opened Common
  import opened DeviceInfo

  /** One device definition. `indexLayout` is empty for the models whose
      file gives a single table. */
  datatype Definition = Definition(
    deviceType: DeviceType,
    midiName: string,
    midiSubName: string,
    midiLayout: Grid,
    indexLayout: Grid,
    innerOffsetX: int,
    innerOffsetY: int,
    systemButtons: map<byte, SystemButton>,
    renderer: RendererKind)

  /** The Pro's light-index table. Its own comment says the indices follow
      the S/Mini numbering: the 8-by-8 grid is 0..63, the right column
      64..71, the top row 72..79, the left column 80..87 and the power
      button 88, while the bottom row repeats 1..8. */
  const ProIndexLayout: Grid := [
    [255, 72, 73, 74, 75, 76, 77, 78, 79, 255],
    [80, 0, 1, 2, 3, 4, 5, 6, 7, 64],
    [81, 8, 9, 10, 11, 12, 13, 14, 15, 65],
    [82, 16, 17, 18, 19, 20, 21, 22, 23, 66],
    [83, 24, 25, 26, 27, 28, 29, 30, 31, 67],
    [84, 32, 33, 34, 35, 36, 37, 38, 39, 68],
    [85, 40, 41, 42, 43, 44, 45, 46, 47, 69],
    [86, 48, 49, 50, 51, 52, 53, 54, 55, 70],
    [87, 56, 57, 58, 59, 60, 61, 62, 63, 71],
    [255, 1, 2, 3, 4, 5, 6, 7, 8, 255],
    [255, 255, 255, 255, 88, 255, 255, 255, 255, 255]
  ]

  /** Its midi table has exactly the rows of DeviceInfo's Pro table. */
  function Pro(): Definition
  {
    Definition(LaunchpadPro, "Launchpad Pro", "MIDI 2", ProLayout, ProIndexLayout, 1, 2,
               ProButtons, RgbRenderer)
  }

  function Mk2(): Definition
  {
    Definition(LaunchpadMk2, "Launchpad MK2", "Launchpad MK2 MIDI 2", Mk2Layout, [], 0, 0,
               Mk2Buttons, RgbRenderer)
  }

  function Mini(): Definition
  {
    Definition(LaunchpadMini, "Launchpad Mini", "Launchpad Mini MIDI 1", MiniLayout, [], 0, 0,
               SButtons, SRenderer)
  }

  /** The index table, cell by cell, as a formula. */
  function ProIndexCell(r: int, c: int): int
  {
    if r == 0 then (if 1 <= c <= 8 then 71 + c else 255)
    else if r <= 8 then (if c == 0 then 79 + r else if c == 9 then 63 + r else 8 * (r - 1) + c - 1)
    else if r == 9 then (if 1 <= c <= 8 then c else 255)
    else (if c == 4 then 88 else 255)
  }

  lemma ProIndexFormula()
    ensures IsTable(ProIndexLayout, 11, 10)
    ensures forall r, c | 0 <= r < 11 && 0 <= c < 10 :: ProIndexLayout[r][c] == ProIndexCell(r, c)
  {}

  /** Two grids of one shape with the sentinel in the same cells map the
      same number of cells. */
  lemma {:induction false} SameSentinelsSameCount(a: Grid, b: Grid, rows: nat)
    requires rows <= |a| && rows <= |b|
    requires forall r | 0 <= r < rows :: |a[r]| == |b[r]|
    requires forall r, c | 0 <= r < rows && 0 <= c < |a[r]| :: a[r][c] == Sentinel <==> b[r][c] == Sentinel
    ensures TableCount(a, rows) == TableCount(b, rows)
  {
    if rows > 0 {
      SameSentinelsSameCount(a, b, rows - 1);
      SameSentinelsRow(a[rows - 1], b[rows - 1], |a[rows - 1]|);
    }
  }

  lemma {:induction false} SameSentinelsRow(a: seq<byte>, b: seq<byte>, n: nat)
    requires n <= |a| && n <= |b|
    requires forall c | 0 <= c < n :: a[c] == Sentinel <==> b[c] == Sentinel
    ensures CountMapped(a, n) == CountMapped(b, n)
  {
    if n > 0 {
      SameSentinelsRow(a, b, n - 1);
    }
  }

  /** The midi table and the index table are both 11 by 10 and hold the
      sentinel in exactly the same cells, so both map 97 cells. */
  lemma ProTablesAgree()
    ensures IsTable(Pro().midiLayout, 11, 10) && IsTable(Pro().indexLayout, 11, 10)
    ensures forall r, c | 0 <= r < 11 && 0 <= c < 10 ::
              Pro().midiLayout[r][c] == Sentinel <==> Pro().indexLayout[r][c] == Sentinel
    ensures TableCount(Pro().indexLayout, 11) == TableCount(Pro().midiLayout, 11) == 97
  {
    ProFormula();
    ProIndexFormula();
    SameSentinelsSameCount(ProIndexLayout, ProLayout, 11);
    ProTableCount();
  }

  /** The index table is not injective: each bottom-row index 1..8 is also
      the index of a grid cell with another midi id (1..7 one column to the
      right in the top grid row, 8 at the start of the next row). */
  lemma ProIndexReused()
    ensures forall c | 1 <= c <= 8 :: ProIndexLayout[9][c] == c && ProLayout[9][c] == c
    ensures forall c | 2 <= c <= 8 :: ProIndexLayout[1][c] == c - 1 && ProLayout[1][c] == 80 + c
    ensures ProIndexLayout[2][1] == 8 && ProLayout[2][1] == 71
    ensures !DistinctIds(ProIndexLayout)
  {
    ProFormula();
    ProIndexFormula();
    assert ProIndexLayout[9][1] == ProIndexLayout[1][2] != Sentinel;
  }

  /** Every index the table hands out is at most 88, so its 97 mapped cells
      cannot all carry different indices. */
  lemma ProIndexBound()
    ensures forall r, c | 0 <= r < 11 && 0 <= c < 10 && ProIndexLayout[r][c] != Sentinel ::
              ProIndexLayout[r][c] <= 88
    ensures TableCount(ProIndexLayout, 11) == 97 > 88 + 1
  {
    assert forall r, c | 0 <= r < 11 && 0 <= c < 10 && ProIndexLayout[r][c] != Sentinel ::
             ProIndexLayout[r][c] <= 88 by {
      ProIndexFormula();
      ProIndexCellBound();
    }
    assert TableCount(ProIndexLayout, 11) == 97 by {
      ProIndexCount();
    }
  }

  lemma ProIndexCellBound()
    ensures forall r, c | 0 <= r < 11 && 0 <= c < 10 && ProIndexCell(r, c) != 255 :: ProIndexCell(r, c) <= 88
  {}

  /** The index table maps as many cells as the midi table: 97. */
  lemma ProIndexCount()
    ensures TableCount(ProIndexLayout, 11) == 97
  {
    ProFormula();
    ProIndexFormula();
    SameSentinelsSameCount(ProIndexLayout, ProLayout, 11);
    ProTableCount();
  }

  /** Inner offsets, renderers, and the button maps as arithmetic sets. */
  lemma DefinitionFacts()
    ensures Pro().innerOffsetX == 1 && Pro().innerOffsetY == 2
    ensures Mk2().innerOffsetX == 0 && Mk2().innerOffsetY == 0 && Mk2().renderer == RgbRenderer
    ensures Mini().innerOffsetX == 0 && Mini().innerOffsetY == 0 && Mini().renderer == SRenderer
  {}

  /** Every Pro system-button key (1..8, 10..80 by tens, 19..89 by tens,
      91..98) is a midi id of the table. */
  lemma ProKeysMapped()
    ensures forall k: int :: k in Pro().systemButtons <==>
              1 <= k <= 8 || 91 <= k <= 98 ||
              (10 <= k <= 80 && k % 10 == 0) || (19 <= k <= 89 && k % 10 == 9)
    ensures forall k | k in Pro().systemButtons :: Holds(Pro().midiLayout, k)
  {
    ProButtonKeys();
    ProButtonsMapped();
  }

  /** The Mk2 table is 9 by 9, its only sentinel at row 0, column 8; the top
      row holds 104..111 and grid row r (1..8) holds the two-digit ids whose
      tens digit is 9 - r and whose units digit is the column plus one. */
  lemma Mk2Table()
    ensures IsTable(Mk2().midiLayout, 9, 9)
    ensures forall r, c | 0 <= r < 9 && 0 <= c < 9 ::
              Mk2().midiLayout[r][c] == Sentinel <==> (r == 0 && c == 8)
    ensures forall c | 0 <= c < 8 :: Mk2().midiLayout[0][c] == 104 + c
    ensures forall r, c | 1 <= r < 9 && 0 <= c < 9 :: Mk2().midiLayout[r][c] == 10 * (9 - r) + (c + 1)
  {
    Mk2Formula();
  }

  /** The Mk2 system-button keys are exactly the right column 19, 29, .., 89
      and the top row 104..111, and each is an id of the table. */
  lemma Mk2Keys()
    ensures forall k: int :: k in Mk2().systemButtons <==> (19 <= k <= 89 && k % 10 == 9) || 104 <= k <= 111
    ensures forall k | k in Mk2().systemButtons :: Holds(Mk2().midiLayout, k)
  {
    Mk2ButtonKeys();
    Mk2ButtonsMapped();
  }

  /** The Mini table is 9 by 9, its only sentinel at row 0, column 8; the top
      row holds 204..211 and grid row k (1..8) holds 16 (k - 1) + c. */
  lemma MiniTable()
    ensures IsTable(Mini().midiLayout, 9, 9)
    ensures forall r, c | 0 <= r < 9 && 0 <= c < 9 ::
              Mini().midiLayout[r][c] == Sentinel <==> (r == 0 && c == 8)
    ensures forall c | 0 <= c < 8 :: Mini().midiLayout[0][c] == 204 + c
    ensures forall k, c | 1 <= k < 9 && 0 <= c < 9 :: Mini().midiLayout[k][c] == 16 * (k - 1) + c
  {
    SFormula();
  }

  /** The Mini system-button keys are exactly 8, 24, .., 120 and 204..211,
      and each is an id of the table. */
  lemma MiniKeys()
    ensures forall k: int :: k in Mini().systemButtons <==> (8 <= k <= 120 && k % 16 == 8) || 204 <= k <= 211
    ensures forall k | k in Mini().systemButtons :: Holds(Mini().midiLayout, k)
  {
    SButtonKeys();
    SButtonsMapped();
  }
}
