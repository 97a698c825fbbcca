/** Shared vocabulary: bytes, the sentinel, C# exceptions as values, and
    counting over the `byte[,]` layout tables. */
module Common {

  /** An unsigned 8-bit value, as C# `byte`. */
  type byte = b: int | 0 <= b < 256

  /** The "no button / no light here" marker used by every table and lookup. */
  const Sentinel: byte := 255

  /** C#'s unchecked `(byte)` conversion: keep the low eight bits. */
  function ToByte(n: int): (b: byte)
    ensures 0 <= n < 256 ==> b == n
    ensures (n - b) % 256 == 0
  {
    n % 256
  }

  /** The exceptions the modelled code throws, as values. */
  datatype Exception =
    | ArgumentOutOfRange   // ArgumentOutOfRangeException
    | InvalidOperation     // InvalidOperationException
    | NotSupported         // NotSupportedException
    | IndexOutOfRange      // an array access past its end
    | Overflow             // OverflowException: a negative array size

  /** The outcome of a call that may throw. */
  datatype Result<T> = Ok(value: T) | Throws(error: Exception)

  /** A grid position, as the `out byte x, out byte y` pair of `GetPos`. */
  datatype Pos = Pos(x: byte, y: byte)

  /** A two-dimensional C# `byte[,]`, stored row by row. */
  type Grid = seq<seq<byte>>

  /** `g` is a `byte[rows, cols]`: every row has the same length. */
  predicate IsTable(g: Grid, rows: nat, cols: nat)
  {
    |g| == rows && forall r | 0 <= r < rows :: |g[r]| == cols
  }

  /** The number of entries among the first `n` of `s` that are not the sentinel. */
  function CountMapped(s: seq<byte>, n: nat): (c: nat)
    requires n <= |s|
    ensures c <= n
  {
    if n == 0 then 0 else CountMapped(s, n - 1) + (if s[n - 1] != Sentinel then 1 else 0)
  }

  /** The number of non-sentinel cells in the first `rows` rows of `g`. */
  function TableCount(g: Grid, rows: nat): nat
    requires rows <= |g|
  {
    if rows == 0 then 0 else TableCount(g, rows - 1) + CountMapped(g[rows - 1], |g[rows - 1]|)
  }

  /** The set of ids a table holds (every non-sentinel cell). */
  ghost predicate Holds(g: Grid, v: int)
  {
    exists r, c | 0 <= r < |g| && 0 <= c < |g[r]| :: g[r][c] == v && v != Sentinel
  }

  /** No id occurs in two different cells of `g`. */
  ghost predicate DistinctIds(g: Grid)
  {
    forall r1, c1, r2, c2 |
      0 <= r1 < |g| && 0 <= c1 < |g[r1]| && 0 <= r2 < |g| && 0 <= c2 < |g[r2]| &&
      (r1, c1) != (r2, c2) && g[r1][c1] != Sentinel
      :: g[r1][c1] != g[r2][c2]
  }

  /** A stretch of mapped entries adds its length to the count. */
  lemma {:induction false} CountStretch(s: seq<byte>, lo: nat, hi: nat)
    requires lo <= hi <= |s|
    requires forall c | lo <= c < hi :: s[c] != Sentinel
    ensures CountMapped(s, hi) == CountMapped(s, lo) + (hi - lo)
    decreases hi - lo
  {
    if lo < hi {
      CountStretch(s, lo, hi - 1);
    }
  }

  /** A stretch of sentinels adds nothing. */
  lemma {:induction false} CountGap(s: seq<byte>, lo: nat, hi: nat)
    requires lo <= hi <= |s|
    requires forall c | lo <= c < hi :: s[c] == Sentinel
    ensures CountMapped(s, hi) == CountMapped(s, lo)
    decreases hi - lo
  {
    if lo < hi {
      CountGap(s, lo, hi - 1);
    }
  }

  /** Rows `from` up to `rows` each mapping `w` cells add `w` per row. */
  lemma {:induction false} TableCountRows(g: Grid, from: nat, rows: nat, w: nat)
    requires from <= rows <= |g|
    requires forall r | from <= r < rows :: CountMapped(g[r], |g[r]|) == w
    ensures TableCount(g, rows) == TableCount(g, from) + w * (rows - from)
    decreases rows - from
  {
    if from < rows {
      TableCountRows(g, from, rows - 1, w);
      assert w * (rows - from) == w * (rows - 1 - from) + w;
    }
  }

  /** CountMapped grows by one exactly at the non-sentinel entries. */
  lemma {:induction false} CountMappedAppend(a: seq<byte>, b: seq<byte>, n: nat)
    requires n <= |b|
    ensures CountMapped(a + b, |a| + n) == CountMapped(a, |a|) + CountMapped(b, n)
  {
    if n == 0 {
      CountMappedPrefix(a + b, a, |a|);
    } else {
      CountMappedAppend(a, b, n - 1);
      assert (a + b)[|a| + n - 1] == b[n - 1];
    }
  }

  /** CountMapped only looks at the first `n` entries. */
  lemma {:induction false} CountMappedPrefix(s: seq<byte>, t: seq<byte>, n: nat)
    requires n <= |s| && n <= |t| && s[..n] == t[..n]
    ensures CountMapped(s, n) == CountMapped(t, n)
  {
    if n > 0 {
      assert s[n - 1] == s[..n][n - 1] == t[..n][n - 1] == t[n - 1];
      assert s[..n - 1] == s[..n][..n - 1];
      assert t[..n - 1] == t[..n][..n - 1];
      CountMappedPrefix(s, t, n - 1);
    }
  }
}

/** The `MidiDeviceType` enum (None, Mk2, Pro) of the later snapshot, used by
    RawMidiDevice and both SysEx helpers. */
module MidiDeviceTypes {
  datatype MidiDeviceType = NoDevice | Mk2 | Pro
}
