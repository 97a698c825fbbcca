/** The lookup build shared by LaunchpadMidiDevice, RawMidiDevice and the
    two renderers: the layout table is visited bottom row first, left to
    right, and each visited cell feeds the midi <-> index lookups. */
module Scan {
  import opened Common

  /** `g` has at least `h` rows of at least `w` cells: the window the build reads. */
  predicate Covers(g: Grid, w: nat, h: nat)
  {
    h <= |g| && forall r | 0 <= r < h :: w <= |g[r]|
  }

  /** The cells of the first `n` visited rows. Visited row y is table row
      h-1-y, read from column 0 to column w-1. */
  function ScanRows(g: Grid, w: nat, h: nat, n: nat): (s: seq<byte>)
    requires Covers(g, w, h) && n <= h
    ensures |s| == n * w
  {
    if n == 0 then [] else ScanRows(g, w, h, n - 1) + g[h - n][..w]
  }

  /** Every cell of the w-by-h window, in the order the build visits them:
      position (x, y) is visited at step y * w + x. */
  function Scan(g: Grid, w: nat, h: nat): (s: seq<byte>)
    requires Covers(g, w, h)
    ensures |s| == w * h
  {
    ScanRows(g, w, h, h)
  }

  lemma MulMono(a: nat, b: nat, w: nat)
    requires a <= b
    ensures a * w <= b * w
  {}

  lemma {:induction false} ScanRowsAt(g: Grid, w: nat, h: nat, n: nat, x: nat, y: nat)
    requires Covers(g, w, h) && n <= h && x < w && y < n
    ensures y * w + x < |ScanRows(g, w, h, n)|
    ensures ScanRows(g, w, h, n)[y * w + x] == g[h - 1 - y][x]
  {
    var prev := ScanRows(g, w, h, n - 1);
    assert ScanRows(g, w, h, n) == prev + g[h - n][..w];
    if y == n - 1 {
      assert y * w + x == |prev| + x;
    } else {
      MulMono(y + 1, n - 1, w);
      ScanRowsAt(g, w, h, n - 1, x, y);
    }
  }

  /** The cell visited for grid position (x, y) is table cell [h-1-y, x]. */
  lemma ScanAt(g: Grid, w: nat, h: nat, x: nat, y: nat)
    requires Covers(g, w, h) && x < w && y < h
    ensures y * w + x < |Scan(g, w, h)|
    ensures Scan(g, w, h)[y * w + x] == g[h - 1 - y][x]
  {
    ScanRowsAt(g, w, h, h, x, y);
  }

  /** Step j of the build reads table cell [h-1-j/w, j%w]. */
  lemma ScanCell(g: Grid, w: nat, h: nat, j: nat) returns (r: nat, c: nat)
    requires Covers(g, w, h) && j < w * h
    ensures r == h - 1 - j / w && c == j % w
    ensures r < h && c < w
    ensures Scan(g, w, h)[j] == g[r][c]
  {
    assert j == (j / w) * w + j % w;
    if j / w >= h {
      MulMono(h, j / w, w);
    }
    ScanAt(g, w, h, j % w, j / w);
    r, c := h - 1 - j / w, j % w;
  }

  /** Two steps reading the same cell are the same step. */
  lemma StepsDistinct(w: nat, h: nat, j1: nat, j2: nat)
    requires 0 < w && j1 != j2
    ensures (h - 1 - j1 / w, j1 % w) != (h - 1 - j2 / w, j2 % w)
  {
    assert j1 == (j1 / w) * w + j1 % w;
    assert j2 == (j2 / w) * w + j2 % w;
  }

  /** The build visits each cell once, so a table without repeated ids
      yields a visiting order without repeated ids. */
  lemma ScanDistinct(g: Grid, w: nat, h: nat, j1: nat, j2: nat)
    requires Covers(g, w, h) && DistinctIds(g)
    requires j1 < w * h && j2 < w * h && j1 != j2
    requires Scan(g, w, h)[j1] != Sentinel
    ensures Scan(g, w, h)[j1] != Scan(g, w, h)[j2]
  {
    var r1, c1 := ScanCell(g, w, h, j1);
    var r2, c2 := ScanCell(g, w, h, j2);
    StepsDistinct(w, h, j1, j2);
    assert (r1, c1) != (r2, c2);
  }

  /** A table without repeated ids gives a visiting order whose mapped
      cells all carry different ids. */
  lemma ScanKeysDistinct(g: Grid, w: nat, h: nat)
    requires Covers(g, w, h) && DistinctIds(g) && w * h < 256
    ensures KeysDistinct(Scan(g, w, h), Ranks(Scan(g, w, h)))
  {
    var cells := Scan(g, w, h);
    forall j1, j2 | Paired(cells, Ranks(cells), j1) && Paired(cells, Ranks(cells), j2) && j1 != j2
      ensures cells[j1] != cells[j2]
    {
      ScanDistinct(g, w, h, j1, j2);
    }
  }

  /** The number of mapped cells of the window is the sum of its rows' counts. */
  lemma {:induction false} ScanRowsCount(g: Grid, w: nat, h: nat, n: nat)
    requires Covers(g, w, h) && n <= h
    ensures CountMapped(ScanRows(g, w, h, n), n * w) == WindowCount(g, w, h, n)
  {
    if n > 0 {
      ScanRowsCount(g, w, h, n - 1);
      var prev := ScanRows(g, w, h, n - 1);
      CountMappedAppend(prev, g[h - n][..w], w);
      CountMappedPrefix(g[h - n][..w], g[h - n], w);
    }
  }

  /** The mapped cells of the first `n` visited rows, counted row by row. */
  function WindowCount(g: Grid, w: nat, h: nat, n: nat): nat
    requires Covers(g, w, h) && n <= h
  {
    if n == 0 then 0 else WindowCount(g, w, h, n - 1) + CountMapped(g[h - n], w)
  }

  /** Table rows `h - n` up to `h - from`, visited as window rows `from`
      up to `n`, each mapping `k` cells add `k` per row. */
  lemma {:induction false} WindowCountRows(g: Grid, w: nat, h: nat, from: nat, n: nat, k: nat)
    requires Covers(g, w, h) && from <= n <= h
    requires forall r | h - n <= r < h - from :: CountMapped(g[r], w) == k
    ensures WindowCount(g, w, h, n) == WindowCount(g, w, h, from) + k * (n - from)
    decreases n - from
  {
    if from < n {
      WindowCountRows(g, w, h, from, n - 1, k);
      assert k * (n - from) == k * (n - 1 - from) + k;
    }
  }

  /** Over a whole table the window count is the table's count: the build
      hands out exactly LightCount indices. */
  lemma {:induction false} WindowCountTable(g: Grid, w: nat, h: nat, n: nat)
    requires IsTable(g, h, w) && n <= h
    ensures Covers(g, w, h)
    ensures WindowCount(g, w, h, n) + TableCount(g, h - n) == TableCount(g, h)
  {
    if n > 0 {
      WindowCountTable(g, w, h, n - 1);
    }
  }

  /** The ranks of a whole table stay below its count. */
  lemma RanksBelowTable(g: Grid, w: nat, h: nat, j: nat)
    requires IsTable(g, h, w) && w * h < 256 && j < w * h
    ensures Covers(g, w, h)
    ensures Scan(g, w, h)[j] != Sentinel ==> Ranks(Scan(g, w, h))[j] < TableCount(g, h)
  {
    WindowCountTable(g, w, h, h);
    ScanRowsCount(g, w, h, h);
    if Scan(g, w, h)[j] != Sentinel {
      RanksBelow(Scan(g, w, h), j);
    }
  }

  /** The value paired with the last visited cell whose key is `key`, among
      the first `n` cells where neither key nor value is the sentinel; the
      sentinel when there is none. Later cells overwrite earlier ones, as the
      build's plain array stores do. */
  function LastMatch(keys: seq<byte>, vals: seq<byte>, n: nat, key: int): byte
    requires |keys| == |vals| && n <= |keys|
  {
    if n == 0 then Sentinel
    else if keys[n - 1] == key && keys[n - 1] != Sentinel && vals[n - 1] != Sentinel then vals[n - 1]
    else LastMatch(keys, vals, n - 1, key)
  }

  /** The light index each visited cell receives when indices are handed out
      contiguously: the number of mapped cells before it, or the sentinel. */
  function Ranks(cells: seq<byte>): (r: seq<byte>)
    requires |cells| < 256
    ensures |r| == |cells|
  {
    seq(|cells|, k requires 0 <= k < |cells| =>
      if cells[k] != Sentinel then CountMapped(cells, k) as byte else Sentinel)
  }

  /** The four lookups the device classes cache. Positions are flattened:
      grid position (x, y) lives at entry y * width + x. */
  datatype Lookups = Lookups(
    indexToMidi: seq<byte>,
    midiToIndex: seq<byte>,
    posToMidi: seq<byte>,
    posToIndex: seq<byte>)

  /** The midi -> index lookup answers with the last matching cell's index. */
  ghost predicate MidiToIndexOf(t: Lookups, keys: seq<byte>, vals: seq<byte>)
    requires |keys| == |vals|
  {
    |t.midiToIndex| == 256 &&
    forall m | 0 <= m < 256 :: t.midiToIndex[m] == LastMatch(keys, vals, |keys|, m)
  }

  /** The index -> midi lookup answers with the last matching cell's midi id. */
  ghost predicate IndexToMidiOf(t: Lookups, keys: seq<byte>, vals: seq<byte>)
    requires |keys| == |vals|
  {
    |t.indexToMidi| == 256 &&
    forall i | 0 <= i < 256 :: t.indexToMidi[i] == LastMatch(vals, keys, |keys|, i)
  }

  /** No visited cell before step `n` has a rank at or above `i` once `i`
      mapped cells have been seen. */
  lemma {:induction false} NoRankYet(cells: seq<byte>, n: nat, i: int)
    requires |cells| < 256 && n <= |cells| && i >= CountMapped(cells, n)
    ensures LastMatch(Ranks(cells), cells, n, i) == Sentinel
  {
    if n > 0 {
      NoRankYet(cells, n - 1, i);
    }
  }

  /** The contiguous-index build of the LaunchpadMidiDevice, RawMidiDevice
      and LaunchpadSRenderer constructors,
      run over the visiting order `cells`. */
  method Build(cells: seq<byte>) returns (t: Lookups)
    requires |cells| < 256
    ensures t.posToMidi == cells
    ensures t.posToIndex == Ranks(cells)
    ensures MidiToIndexOf(t, cells, Ranks(cells))
    ensures IndexToMidiOf(t, cells, Ranks(cells))
  {
    var indexToMidi := seq(256, _ => Sentinel);
    var midiToIndex := seq(256, _ => Sentinel);
    var posToMidi := [];
    var posToIndex := [];
    var i := 0;
    var k := 0;
    ghost var ranks := Ranks(cells);
    while k < |cells|
      invariant 0 <= k <= |cells|
      invariant i == CountMapped(cells, k)
      invariant posToMidi == cells[..k]
      invariant posToIndex == ranks[..k]
      invariant |indexToMidi| == 256 && |midiToIndex| == 256
      invariant forall m | 0 <= m < 256 :: midiToIndex[m] == LastMatch(cells, ranks, k, m)
      invariant forall j | 0 <= j < 256 :: indexToMidi[j] == LastMatch(ranks, cells, k, j)
    {
      var val := cells[k];
      NoRankYet(cells, k, i);
      if val != Sentinel {
        indexToMidi := indexToMidi[i := val];
        posToMidi := posToMidi + [val];
        midiToIndex := midiToIndex[val := i];
        posToIndex := posToIndex + [i];
        i := i + 1;
      } else {
        indexToMidi := indexToMidi[i := Sentinel];
        posToMidi := posToMidi + [Sentinel];
        posToIndex := posToIndex + [Sentinel];
      }
      assert cells[..k + 1] == cells[..k] + [cells[k]];
      assert ranks[..k + 1] == ranks[..k] + [ranks[k]];
      k := k + 1;
    }
    assert cells[..k] == cells;
    assert ranks[..k] == ranks;
    t := Lookups(indexToMidi, midiToIndex, posToMidi, posToIndex);
  }

  // ---------------------------------------------------------------------
  // Round trips

  /** Cell j holds both a key and a value. */
  predicate Paired(keys: seq<byte>, vals: seq<byte>, j: int)
    requires |keys| == |vals|
  {
    0 <= j < |keys| && keys[j] != Sentinel && vals[j] != Sentinel
  }

  /** No key occurs in two paired cells. */
  ghost predicate KeysDistinct(keys: seq<byte>, vals: seq<byte>)
    requires |keys| == |vals|
  {
    forall j1, j2 | Paired(keys, vals, j1) && Paired(keys, vals, j2) && j1 != j2 :: keys[j1] != keys[j2]
  }

  /** The last paired cell holding `keys[j]` is cell j when no later paired
      cell repeats it. */
  lemma {:induction false} LastMatchAt(keys: seq<byte>, vals: seq<byte>, n: nat, j: nat)
    requires |keys| == |vals| && j < n <= |keys| && Paired(keys, vals, j)
    requires forall j' | j < j' < n && Paired(keys, vals, j') :: keys[j'] != keys[j]
    ensures LastMatch(keys, vals, n, keys[j]) == vals[j]
  {
    if n - 1 != j {
      LastMatchAt(keys, vals, n - 1, j);
    }
  }

  /** A key no paired cell holds has no match. */
  lemma {:induction false} LastMatchAbsent(keys: seq<byte>, vals: seq<byte>, n: nat, key: int)
    requires |keys| == |vals| && n <= |keys|
    requires forall j | 0 <= j < n && Paired(keys, vals, j) :: keys[j] != key
    ensures LastMatch(keys, vals, n, key) == Sentinel
  {
    if n > 0 {
      LastMatchAbsent(keys, vals, n - 1, key);
    }
  }

  /** Any match is the value of some paired cell holding the key. */
  lemma {:induction false} LastMatchSource(keys: seq<byte>, vals: seq<byte>, n: nat, key: int)
    requires |keys| == |vals| && n <= |keys|
    requires LastMatch(keys, vals, n, key) != Sentinel
    ensures exists j | 0 <= j < n ::
              Paired(keys, vals, j) && keys[j] == key && vals[j] == LastMatch(keys, vals, n, key)
  {
    if !(keys[n - 1] == key && keys[n - 1] != Sentinel && vals[n - 1] != Sentinel) {
      LastMatchSource(keys, vals, n - 1, key);
    }
  }

  /** When keys and values are each distinct over the paired cells, the two
      lookups are mutual inverses on every paired cell. */
  lemma PairedRoundTrip(keys: seq<byte>, vals: seq<byte>, j: nat)
    requires |keys| == |vals| && Paired(keys, vals, j)
    requires KeysDistinct(keys, vals) && KeysDistinct(vals, keys)
    ensures LastMatch(keys, vals, |keys|, keys[j]) == vals[j]
    ensures LastMatch(vals, keys, |keys|, vals[j]) == keys[j]
  {
    LastMatchAt(keys, vals, |keys|, j);
    LastMatchAt(vals, keys, |keys|, j);
  }

  /** Contiguous ranks never repeat: each mapped cell gets its own index. */
  lemma {:induction false} RanksDistinct(cells: seq<byte>)
    requires |cells| < 256
    ensures KeysDistinct(Ranks(cells), cells)
  {
    forall j1, j2 | Paired(Ranks(cells), cells, j1) && Paired(Ranks(cells), cells, j2) && j1 < j2
      ensures Ranks(cells)[j1] != Ranks(cells)[j2]
    {
      CountMappedMono(cells, j1 + 1, j2);
    }
  }

  lemma {:induction false} CountMappedMono(s: seq<byte>, a: nat, b: nat)
    requires a <= b <= |s|
    ensures CountMapped(s, a) <= CountMapped(s, b)
  {
    if a < b {
      CountMappedMono(s, a, b - 1);
    }
  }

  /** Every handed-out index is below the number of mapped cells. */
  lemma RanksBelow(cells: seq<byte>, j: nat)
    requires |cells| < 256 && j < |cells| && cells[j] != Sentinel
    ensures Ranks(cells)[j] < CountMapped(cells, |cells|)
  {
    CountMappedMono(cells, j + 1, |cells|);
  }
}
