/** Engines/Emulator/EmulatorLaunchpadMidiDevice.cs: a device that takes
    the SysEx light commands a real Launchpad would receive and applies them
    to its own LED array. Only the command decoder (SendInternal) is
    modelled; the console drawing it triggers is reported as a flag. The
    emulator inherits its lookups from LaunchpadMidiDevice (module
    LaunchpadMidi) and validates buffers with Helpers/SysEx.cs (module
    SysExBuffers); the type it validates against is a parameter, because the
    two snapshots name the device type with different enums. */
module Emulator {
  import opened Common
  import opened MidiDeviceTypes
  import SysExBuffers
  import LaunchpadMidi
  import LaunchpadDevice

  type Led = LaunchpadDevice.Led

  /** LaunchpadMidiDevice.MaxLEDCount: the length of the emulator's array. */
  const MaxLedCount: nat := 97

  datatype Emu = Emu(t: MidiDeviceType, core: LaunchpadMidi.Device, leds: seq<Led>)

  /** The constructor: MaxLEDCount dark LEDs. */
  function Create(t: MidiDeviceType, core: LaunchpadMidi.Device): (e: Emu)
    ensures e.t == t && e.core == core && |e.leds| == MaxLedCount
    ensures forall k | 0 <= k < |e.leds| :: e.leds[k] == LaunchpadDevice.Dark
  {
    Emu(t, core, seq(MaxLedCount, _ => LaunchpadDevice.Dark))
  }

  /** What every painting command stores: the colour, no flash colour, and
      Normal mode unless the colour is 0, which is Off. */
  function Painted(color: byte): (l: Led)
    ensures l.color == color && l.flashColor == 0
    ensures l.mode == LaunchpadDevice.Normal <==> color != 0
    ensures l.mode == LaunchpadDevice.Off <==> color == 0
    ensures color == 0 <==> l == LaunchpadDevice.Dark
  {
    LaunchpadDevice.Led(if color != 0 then LaunchpadDevice.Normal else LaunchpadDevice.Off, color, 0)
  }

  /** One LED write: an unmapped index is skipped; an index past the array
      throws. */
  function Write(leds: seq<Led>, index: byte, color: byte): (r: Result<seq<Led>>)
    ensures r.Throws? <==> index != Sentinel && index >= |leds|
    ensures r.Throws? ==> r.error == IndexOutOfRange
    ensures r.Ok? ==> |r.value| == |leds|
  {
    if index == Sentinel then Ok(leds)
    else if index >= |leds| then Throws(IndexOutOfRange)
    else Ok(leds[index := Painted(color)])
  }

  // ---------------------------------------------------------------------
  // 0x0A: (id, colour) pairs

  /** The `0x0A` loop of `SendInternal`: from `i`, while a whole pair lies
      before `end` (the terminator's position), paint the LED the id maps
      to. */
  function PaintIds(core: LaunchpadMidi.Device, leds: seq<Led>, buf: seq<byte>, i: nat, end: int): Result<seq<Led>>
    requires LaunchpadMidi.Valid(core) && end <= |buf|
    decreases |buf| - i
  {
    if i >= end - 1 then Ok(leds)
    else
      match Write(leds, LaunchpadMidi.GetIndex(core, buf[i]), buf[i + 1])
      case Throws(e) => Throws(e)
      case Ok(l) => PaintIds(core, l, buf, i + 2, end)
  }

  /** The pairs the loop reads: whole pairs from `i` up to `end`; a lone
      byte before `end` is not read. */
  function Pairs(buf: seq<byte>, i: nat, end: int): (ps: seq<(byte, byte)>)
    requires end <= |buf|
    decreases |buf| - i
  {
    if i >= end - 1 then [] else [(buf[i], buf[i + 1])] + Pairs(buf, i + 2, end)
  }

  /** Pairs laid out as bytes. */
  function Encode(ps: seq<(byte, byte)>): (b: seq<byte>)
    ensures |b| == 2 * |ps|
  {
    if ps == [] then [] else [ps[0].0, ps[0].1] + Encode(ps[1..])
  }

  /** The reference semantics: paint the pairs in order, the last write to
      an LED winning. */
  function PaintAll(core: LaunchpadMidi.Device, leds: seq<Led>, ps: seq<(byte, byte)>): Result<seq<Led>>
    requires LaunchpadMidi.Valid(core)
    decreases |ps|
  {
    if ps == [] then Ok(leds)
    else
      match Write(leds, LaunchpadMidi.GetIndex(core, ps[0].0), ps[0].1)
      case Throws(e) => Throws(e)
      case Ok(l) => PaintAll(core, l, ps[1..])
  }

  /** Reading and painting in one loop is painting the pairs it reads. */
  lemma {:induction false} PaintIdsPairs(core: LaunchpadMidi.Device, leds: seq<Led>, buf: seq<byte>, i: nat, end: int)
    requires LaunchpadMidi.Valid(core) && end <= |buf|
    ensures PaintIds(core, leds, buf, i, end) == PaintAll(core, leds, Pairs(buf, i, end))
    decreases |buf| - i
  {
    if i < end - 1 {
      var ps := Pairs(buf, i, end);
      assert ps[0] == (buf[i], buf[i + 1]) && ps[1..] == Pairs(buf, i + 2, end);
      match Write(leds, LaunchpadMidi.GetIndex(core, buf[i]), buf[i + 1])
      case Throws(e) =>
      case Ok(l) => PaintIdsPairs(core, l, buf, i + 2, end);
    }
  }

  /** Encoded pairs read back as the same pairs, with or without a lone
      byte after them. */
  lemma {:induction false} PairsEncode(buf: seq<byte>, i: nat, ps: seq<(byte, byte)>, extra: nat)
    requires extra <= 1 && i + 2 * |ps| + extra <= |buf| && buf[i..i + 2 * |ps|] == Encode(ps)
    ensures Pairs(buf, i, i + 2 * |ps| + extra) == ps
    decreases |ps|
  {
    var end := i + 2 * |ps| + extra;
    if ps != [] {
      var e := Encode(ps);
      assert e[..2] == [ps[0].0, ps[0].1] && e[2..] == Encode(ps[1..]);
      assert buf[i] == e[0] && buf[i + 1] == e[1];
      assert buf[i + 2..i + 2 + 2 * |ps[1..]|] == e[2..];
      PairsEncode(buf, i + 2, ps[1..], extra);
    }
  }

  // ---------------------------------------------------------------------
  // 0x0C / 0x0D: (column or row, colour) pairs

  /** Which line a `0x0C` / `0x0D` pair names. */
  datatype Line = Column | Row

  /** The index of cell k (0..8) along a line, through LaunchpadMidiDevice's
      `int, int` GetIndex. */
  function LineIndex(core: LaunchpadMidi.Device, line: Line, n: byte, k: nat): byte
    requires LaunchpadMidi.Valid(core)
  {
    if line == Column then LaunchpadMidi.GetIndexAtInt(core, n, k) else LaunchpadMidi.GetIndexAtInt(core, k, n)
  }

  /** The inner loop of the `0x0C` and `0x0D` cases: cells k..8 of the line. */
  function PaintLine(core: LaunchpadMidi.Device, leds: seq<Led>, line: Line, n: byte, color: byte, k: nat): Result<seq<Led>>
    requires LaunchpadMidi.Valid(core) && k <= 9
    decreases 9 - k
  {
    if k == 9 then Ok(leds)
    else
      match Write(leds, LineIndex(core, line, n, k), color)
      case Throws(e) => Throws(e)
      case Ok(l) => PaintLine(core, l, line, n, color, k + 1)
  }

  /** LED j is on the line at one of cells k..8 (the sentinel is no LED). */
  ghost predicate Hit(core: LaunchpadMidi.Device, line: Line, n: byte, k: nat, j: int)
    requires LaunchpadMidi.Valid(core)
  {
    j != Sentinel && exists y | k <= y < 9 :: LineIndex(core, line, n, y) == j
  }

  /** One of cells k..8 maps past an array of `len` LEDs. */
  ghost predicate Spills(core: LaunchpadMidi.Device, line: Line, n: byte, k: nat, len: nat)
    requires LaunchpadMidi.Valid(core)
  {
    exists y | k <= y < 9 :: LineIndex(core, line, n, y) != Sentinel && LineIndex(core, line, n, y) >= len
  }

  /** A line paints every mapped LED on it and nothing else; it throws
      exactly when one of its indices lies past the array. */
  lemma {:induction false} PaintLineEffect(core: LaunchpadMidi.Device, leds: seq<Led>, line: Line, n: byte, color: byte, k: nat)
    requires LaunchpadMidi.Valid(core) && k <= 9
    ensures PaintLine(core, leds, line, n, color, k).Throws? <==> Spills(core, line, n, k, |leds|)
    ensures var r := PaintLine(core, leds, line, n, color, k);
            r.Ok? ==> |r.value| == |leds| &&
                      forall j | 0 <= j < |leds| :: r.value[j] == (if Hit(core, line, n, k, j) then Painted(color) else leds[j])
    decreases 9 - k
  {
    if k < 9 {
      var index := LineIndex(core, line, n, k);
      assert Spills(core, line, n, k, |leds|) <==> (index != Sentinel && index >= |leds|) || Spills(core, line, n, k + 1, |leds|);
      match Write(leds, index, color)
      case Throws(e) =>
      case Ok(l) =>
        PaintLineEffect(core, l, line, n, color, k + 1);
        var r := PaintLine(core, leds, line, n, color, k);
        assert r == PaintLine(core, l, line, n, color, k + 1);
        if r.Ok? {
          forall j | 0 <= j < |leds|
            ensures r.value[j] == (if Hit(core, line, n, k, j) then Painted(color) else leds[j])
          {
            assert Hit(core, line, n, k, j) <==> (index == j && j != Sentinel) || Hit(core, line, n, k + 1, j);
            if j == index && j != Sentinel {
              assert l[j] == Painted(color);
            } else {
              assert l[j] == leds[j];
            }
          }
        }
    }
  }

  /** The outer loop: each whole (line number, colour) pair before `end`
      paints its line. */
  function PaintLines(core: LaunchpadMidi.Device, leds: seq<Led>, line: Line, buf: seq<byte>, i: nat, end: int): Result<seq<Led>>
    requires LaunchpadMidi.Valid(core) && end <= |buf|
    decreases |buf| - i
  {
    if i >= end - 1 then Ok(leds)
    else
      match PaintLine(core, leds, line, buf[i], buf[i + 1], 0)
      case Throws(e) => Throws(e)
      case Ok(l) => PaintLines(core, l, line, buf, i + 2, end)
  }

  // ---------------------------------------------------------------------
  // 0x0E: one colour for every LED

  /** The `0x0E` loop of `SendInternal` as written: its counter is `i`, the
      read position (8 after the colour byte), while it writes `index`,
      which stays 0. So it writes LED 0, and only when the array is longer
      than 8. */
  function FillAsWritten(leds: seq<Led>, color: byte): (r: seq<Led>)
    ensures |r| == |leds|
    ensures forall k | 1 <= k < |leds| :: r[k] == leds[k]
    ensures |leds| > 8 ==> r[0] == Painted(color)
  {
    if 8 < |leds| then leds[0 := Painted(color)] else leds
  }

  /** The loop with `index` as its counter: every LED painted. */
  function FillCorrected(leds: seq<Led>, color: byte): (r: seq<Led>)
    ensures |r| == |leds|
    ensures forall k | 0 <= k < |leds| :: r[k] == Painted(color)
  {
    seq(|leds|, _ => Painted(color))
  }

  // ---------------------------------------------------------------------
  // SendInternal

  /** What SendInternal reports: the emulator after the command, the
      return value, and whether the command set the redraw flag (the
      console redraw then clears it again). */
  datatype Reply = Reply(emu: Emu, returned: bool, redraw: bool)

  /** Commands that are recognised but not supported. */
  predicate Unsupported(cmd: byte)
  {
    cmd in {0x0B, 0x0F, 0x14, 0x22, 0x23, 0x28, 0x2B, 0x2D, 0x2E, 0x2F}
  }

  /** `SendInternal(buffer, count)`, with the `0x0E` loop
      as written or corrected. The decoder starts at byte 6, the command,
      and reads pairs up to the terminator at `count - 1`. */
  function Decode(e: Emu, buf: seq<byte>, count: int, corrected: bool): (r: Result<Reply>)
    requires LaunchpadMidi.Valid(e.core) && count <= |buf|
  {
    if !SysExBuffers.IsValid(buf, count, e.t) then Ok(Reply(e, false, false))
    else
      var end := count - 1;
      var cmd := buf[6];
      if cmd == 0x0A then
        match PaintIds(e.core, e.leds, buf, 7, end)
        case Throws(x) => Throws(x)
        case Ok(l) => Ok(Reply(e.(leds := l), true, true))
      else if cmd == 0x0C || cmd == 0x0D then
        match PaintLines(e.core, e.leds, if cmd == 0x0C then Column else Row, buf, 7, end)
        case Throws(x) => Throws(x)
        case Ok(l) => Ok(Reply(e.(leds := l), true, true))
      else if cmd == 0x0E then
        var l := if corrected then FillCorrected(e.leds, buf[7]) else FillAsWritten(e.leds, buf[7]);
        Ok(Reply(e.(leds := l), true, true))
      else if cmd == 0x21 then
        if buf[7] == 1 then Ok(Reply(e, true, false)) else Throws(NotSupported)
      else if cmd == 0x2C then
        if buf[7] == 3 then Ok(Reply(e, true, false)) else Throws(NotSupported)
      else if Unsupported(cmd) then Throws(NotSupported)
      else Ok(Reply(e, true, false))
  }

  /** SendInternal as written. */
  function SendInternal(e: Emu, buf: seq<byte>, count: int): (r: Result<Reply>)
    requires LaunchpadMidi.Valid(e.core) && count <= |buf|
    ensures !SysExBuffers.IsValid(buf, count, e.t) ==> r == Ok(Reply(e, false, false))
    ensures SysExBuffers.IsValid(buf, count, e.t) && Unsupported(buf[6]) ==> r == Throws(NotSupported)
    ensures SysExBuffers.IsValid(buf, count, e.t) && buf[6] == 0x21 ==> (r.Ok? <==> buf[7] == 1)
    ensures SysExBuffers.IsValid(buf, count, e.t) && buf[6] == 0x2C ==> (r.Ok? <==> buf[7] == 3)
    ensures SysExBuffers.IsValid(buf, count, e.t) && buf[6] == 0x0E ==>
              r == Ok(Reply(e.(leds := FillAsWritten(e.leds, buf[7])), true, true))
    ensures r.Ok? ==> r.value.emu.t == e.t && r.value.emu.core == e.core && |r.value.emu.leds| == |e.leds|
    ensures r.Ok? ==> (r.value.returned <==> SysExBuffers.IsValid(buf, count, e.t))
    ensures SysExBuffers.IsValid(buf, count, e.t) && buf[6] == 0x0A ==>
              var p := PaintIds(e.core, e.leds, buf, 7, count - 1);
              (r.Ok? <==> p.Ok?) && (p.Ok? ==> r.value == Reply(e.(leds := p.value), true, true))
    ensures SysExBuffers.IsValid(buf, count, e.t) && (buf[6] == 0x0C || buf[6] == 0x0D) ==>
              var p := PaintLines(e.core, e.leds, if buf[6] == 0x0C then Column else Row, buf, 7, count - 1);
              (r.Ok? <==> p.Ok?) && (p.Ok? ==> r.value == Reply(e.(leds := p.value), true, true))
    ensures r.Ok? && SysExBuffers.IsValid(buf, count, e.t) && buf[6] !in {0x0A, 0x0C, 0x0D, 0x0E} ==> r.value == Reply(e, true, false)
  {
    DecodeLength(e, buf, count, false);
    Decode(e, buf, count, false)
  }

  /** SendInternal with the `0x0E` loop corrected. */
  function SendInternalCorrected(e: Emu, buf: seq<byte>, count: int): (r: Result<Reply>)
    requires LaunchpadMidi.Valid(e.core) && count <= |buf|
    ensures SysExBuffers.IsValid(buf, count, e.t) && buf[6] == 0x0E ==>
              r == Ok(Reply(e.(leds := FillCorrected(e.leds, buf[7])), true, true))
    ensures SysExBuffers.IsValid(buf, count, e.t) && buf[6] != 0x0E ==> r == SendInternal(e, buf, count)
    ensures !SysExBuffers.IsValid(buf, count, e.t) ==> r == Ok(Reply(e, false, false))
  {
    Decode(e, buf, count, true)
  }

  /** Painting keeps the array's length. */
  lemma DecodeLength(e: Emu, buf: seq<byte>, count: int, corrected: bool)
    requires LaunchpadMidi.Valid(e.core) && count <= |buf|
    ensures var r := Decode(e, buf, count, corrected);
            r.Ok? ==> |r.value.emu.leds| == |e.leds|
  {
    if SysExBuffers.IsValid(buf, count, e.t) {
      if buf[6] == 0x0A {
        PaintIdsLength(e.core, e.leds, buf, 7, count - 1);
      } else if buf[6] == 0x0C || buf[6] == 0x0D {
        PaintLinesLength(e.core, e.leds, if buf[6] == 0x0C then Column else Row, buf, 7, count - 1);
      }
    }
  }

  lemma {:induction false} PaintIdsLength(core: LaunchpadMidi.Device, leds: seq<Led>, buf: seq<byte>, i: nat, end: int)
    requires LaunchpadMidi.Valid(core) && end <= |buf|
    ensures var r := PaintIds(core, leds, buf, i, end); r.Ok? ==> |r.value| == |leds|
    decreases |buf| - i
  {
    if i < end - 1 {
      match Write(leds, LaunchpadMidi.GetIndex(core, buf[i]), buf[i + 1])
      case Throws(e) =>
      case Ok(l) => PaintIdsLength(core, l, buf, i + 2, end);
    }
  }

  lemma {:induction false} PaintLinesLength(core: LaunchpadMidi.Device, leds: seq<Led>, line: Line, buf: seq<byte>, i: nat, end: int)
    requires LaunchpadMidi.Valid(core) && end <= |buf|
    ensures var r := PaintLines(core, leds, line, buf, i, end); r.Ok? ==> |r.value| == |leds|
    decreases |buf| - i
  {
    if i < end - 1 {
      PaintLineEffect(core, leds, line, buf[i], buf[i + 1], 0);
      match PaintLine(core, leds, line, buf[i], buf[i + 1], 0)
      case Throws(e) =>
      case Ok(l) => PaintLinesLength(core, l, line, buf, i + 2, end);
    }
  }

  // ---------------------------------------------------------------------
  // What the driver sends, as the emulator reads it

  /** The `0x0A` envelope of a list of pairs. */
  function SetLedsFrame(t: MidiDeviceType, ps: seq<(byte, byte)>): (b: seq<byte>)
    ensures |b| == 8 + 2 * |ps|
  {
    SysExBuffers.Header + [SysExBuffers.ModelByte(t), 0x0A] + Encode(ps) + [SysExBuffers.Terminator]
  }

  /** A `0x0A` envelope of encoded pairs paints exactly those pairs, in
      order, whatever the buffer holds after the terminator. */
  lemma SetLedsRoundTrip(e: Emu, ps: seq<(byte, byte)>, rest: seq<byte>)
    requires LaunchpadMidi.Valid(e.core) && (e.t == Mk2 || e.t == Pro)
    ensures var buf := SetLedsFrame(e.t, ps) + rest;
            var r := SendInternal(e, buf, 8 + 2 * |ps|);
            var p := PaintAll(e.core, e.leds, ps);
            (r.Ok? <==> p.Ok?) && (p.Ok? ==> r.value == Reply(e.(leds := p.value), true, true))
  {
    var buf := SetLedsFrame(e.t, ps) + rest;
    SetLedsEnvelope(e.t, ps, rest);
    SetLedsPayload(e.t, ps, rest);
    SetLedsPaints(e, buf, 8 + 2 * |ps|, ps);
  }

  /** Such a buffer is a valid `0x0A` envelope whose payload reads back as
      the pairs. */
  lemma SetLedsEnvelope(t: MidiDeviceType, ps: seq<(byte, byte)>, rest: seq<byte>)
    requires t == Mk2 || t == Pro
    ensures var buf := SetLedsFrame(t, ps) + rest;
            SysExBuffers.IsValid(buf, 8 + 2 * |ps|, t) && buf[6] == 0x0A
  {
    var buf := SetLedsFrame(t, ps) + rest;
    FrameParts(t, ps, rest);
    EnvelopeValid(t, buf, 8 + 2 * |ps|, 0x0A);
  }

  lemma SetLedsPayload(t: MidiDeviceType, ps: seq<(byte, byte)>, rest: seq<byte>)
    ensures var buf := SetLedsFrame(t, ps) + rest;
            Pairs(buf, 7, 7 + 2 * |ps|) == ps
  {
    var buf := SetLedsFrame(t, ps) + rest;
    FrameParts(t, ps, rest);
    PairsEncode(buf, 7, ps, 0);
  }

  /** The parts of a framed buffer: prefix, payload and terminator. */
  lemma FrameParts(t: MidiDeviceType, ps: seq<(byte, byte)>, rest: seq<byte>)
    ensures var buf := SetLedsFrame(t, ps) + rest;
            buf[..7] == SysExBuffers.Header + [SysExBuffers.ModelByte(t), 0x0A] &&
            buf[7..7 + 2 * |ps|] == Encode(ps) && buf[7 + 2 * |ps|] == SysExBuffers.Terminator
  {
    var head := SysExBuffers.Header + [SysExBuffers.ModelByte(t), 0x0A];
    var tail := [SysExBuffers.Terminator] + rest;
    assert SetLedsFrame(t, ps) + rest == head + Encode(ps) + tail;
    Slices(head, Encode(ps), tail);
  }

  /** Slicing a concatenation of three parts gives the parts back. */
  lemma Slices(head: seq<byte>, mid: seq<byte>, tail: seq<byte>)
    requires |tail| > 0
    ensures var s := head + mid + tail;
            s[..|head|] == head && s[|head|..|head| + |mid|] == mid && s[|head| + |mid|] == tail[0]
  {
    var s := head + mid + tail;
    assert s[..|head|] == head;
    assert s[|head|..|head| + |mid|] == mid;
  }

  /** A valid `0x0A` buffer is answered by painting the pairs before its
      terminator. */
  lemma SetLedsPaints(e: Emu, buf: seq<byte>, count: int, ps: seq<(byte, byte)>)
    requires LaunchpadMidi.Valid(e.core) && count <= |buf|
    requires SysExBuffers.IsValid(buf, count, e.t) && buf[6] == 0x0A
    requires Pairs(buf, 7, count - 1) == ps
    ensures var r := SendInternal(e, buf, count);
            var p := PaintAll(e.core, e.leds, ps);
            (r.Ok? <==> p.Ok?) && (p.Ok? ==> r.value == Reply(e.(leds := p.value), true, true))
  {
    PaintIdsPairs(e.core, e.leds, buf, 7, count - 1);
  }

  /** A buffer headed by a type's prefix and ending its count with the
      terminator passes the validity test for that type. */
  lemma EnvelopeValid(t: MidiDeviceType, buf: seq<byte>, count: int, cmd: byte)
    requires t == Mk2 || t == Pro
    requires 8 <= count <= |buf| && buf[..7] == SysExBuffers.Header + [SysExBuffers.ModelByte(t), cmd]
    requires buf[count - 1] == SysExBuffers.Terminator
    ensures SysExBuffers.IsValid(buf, count, t) && buf[6] == cmd
  {
    assert buf[..5] == buf[..7][..5];
    assert buf[5] == buf[..7][5] && buf[6] == buf[..7][6];
  }

  /** The driver's connect messages are accepted by an emulator of the
      matching type and change nothing but the clear, which is the `0x0E`
      command. */
  lemma ConnectMessagesAccepted(e: Emu, k: nat)
    requires LaunchpadMidi.Valid(e.core) && (e.t == Mk2 || e.t == Pro) && k < 3
    ensures var r := SendInternal(e, LaunchpadDevice.ConnectMessages(e.t)[k], 9);
            r.Ok? && r.value.returned && (k < 2 ==> r.value.emu == e)
  {
    LaunchpadDevice.ConnectMessagesValid(e.t, k, e.t);
  }

  /** As written, the driver's clear message darkens only LED 0: any other
      LED that was lit stays lit. */
  lemma ClearLeavesLit(e: Emu, k: nat)
    requires LaunchpadMidi.Valid(e.core) && (e.t == Mk2 || e.t == Pro)
    requires |e.leds| == MaxLedCount && 1 <= k < |e.leds|
    ensures var r := SendInternal(e, LaunchpadDevice.ClearMessage(e.t), 9);
            r.Ok? && r.value.emu.leds[0] == LaunchpadDevice.Dark && r.value.emu.leds[k] == e.leds[k]
  {
    LaunchpadDevice.ConnectMessagesValid(e.t, 2, e.t);
  }

  /** With the loop corrected, the clear message darkens every LED. */
  lemma ClearCorrected(e: Emu)
    requires LaunchpadMidi.Valid(e.core) && (e.t == Mk2 || e.t == Pro)
    ensures var r := SendInternalCorrected(e, LaunchpadDevice.ClearMessage(e.t), 9);
            r.Ok? && |r.value.emu.leds| == |e.leds| &&
            forall k | 0 <= k < |e.leds| :: r.value.emu.leds[k] == LaunchpadDevice.Dark
  {
    LaunchpadDevice.ConnectMessagesValid(e.t, 2, e.t);
  }
}
