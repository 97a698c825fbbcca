/** LaunchpadDevice.cs: the application-facing device. It holds its own
    light array and a snapshot of what was last sent. Setters write the array,
    and Render sends only the lights that differ from the snapshot, in three
    SysEx batches whose buffers are allocated once by Start. The underlying
    RawMidiDevice supplies the lookups (module RawMidi) and the connection
    state machine (module Lifecycle). The worker loop, its queue and its clock
    are not modelled: each operation here is one call made by that loop or by
    the application. */
module LaunchpadDevice {
  import opened Common
  import opened MidiDeviceTypes
  import SysExBuffers
  import LaunchpadMidi
  import RawMidi
  import Buttons
  import Lifecycle

  /** LEDMode. Off is taken to be the enum's zero value, so a freshly
      allocated LED is Off with both colours 0. */
  datatype LedMode = Off | Normal | Pulse | Flash

  datatype Led = Led(mode: LedMode, color: byte, flashColor: byte)

  /** `default(LED)`, and what `Clear` writes. */
  const Dark: Led := Led(Off, 0, 0)

  /** The three batches Render fills. */
  datatype Batch = NormalBatch | PulseBatch | FlashBatch

  /** The command byte of each batch's buffer, as `Start` creates them. */
  function Mode(b: Batch): byte
  {
    match b
    case NormalBatch => 0x0A
    case PulseBatch => 0x28
    case FlashBatch => 0x23
  }

  /** Payload bytes one light may add to a batch: two per normal or pulse
      entry, three per flash entry. */
  function Stride(b: Batch): nat
  {
    if b == FlashBatch then 3 else 2
  }

  /** The seven bytes before a batch's payload: the SysEx header, the
      model byte and the command. */
  function Prefix(t: MidiDeviceType, b: Batch): (p: seq<byte>)
    ensures |p| == 7
  {
    SysExBuffers.Header + [SysExBuffers.ModelByte(t), Mode(b)]
  }

  /** The device state: the underlying device's connection flag and
      lookups, the light array, the last-sent snapshot, the dirty flag, and
      the three render buffers. */
  datatype State = State(
    conn: Lifecycle.Device,
    device: RawMidi.RawDevice,
    leds: seq<Led>,
    oldLeds: seq<Led>,
    invalidated: bool,
    normalMsg: seq<byte>,
    pulseMsg: seq<byte>,
    flashMsg: seq<byte>)

  /** A device whose lookups are allocated and whose LEDCount is the one
      RawMidiDevice declares for its type. */
  predicate Usable(d: RawMidi.RawDevice)
  {
    LaunchpadMidi.Valid(d.core) && d.core.shape.ledCount == RawMidi.Declared(d.deviceType).0
  }

  /** What Start leaves and every later operation keeps: the snapshot is
      LEDCount long, the light array no longer than the snapshot (it is 80
      long after `Set(LED[])`), and the buffers are as Start allocated
      them: `7 + 2n + 1` and `7 + 3n + 1` bytes for n = LEDCount, headed by
      their prefix. */
  predicate Ready(s: State)
  {
    Usable(s.device) &&
    |s.oldLeds| == s.device.core.shape.ledCount && |s.leds| <= |s.oldLeds| &&
    |s.normalMsg| == 8 + 2 * |s.oldLeds| && |s.pulseMsg| == 8 + 3 * |s.oldLeds| && |s.flashMsg| == 8 + 3 * |s.oldLeds| &&
    s.normalMsg[..7] == Prefix(s.device.deviceType, NormalBatch) &&
    s.pulseMsg[..7] == Prefix(s.device.deviceType, PulseBatch) &&
    s.flashMsg[..7] == Prefix(s.device.deviceType, FlashBatch)
  }

  // ---------------------------------------------------------------------
  // Construction and connection: the constructor, Start, Stop, Connect, Disconnect

  /** The constructor: empty arrays, no buffers yet (they are null until
      Start), not invalidated. */
  function New(d: RawMidi.RawDevice): (s: State)
    ensures s.device == d && !s.conn.isConnected && s.leds == [] && s.oldLeds == [] && !s.invalidated
  {
    State(Lifecycle.Device(Lifecycle.RawMidiDeviceClass, false), d, [], [], false, [], [], [])
  }

  /** One of the constructor's three one-byte commands, as Send transmits
      it: `CreateBuffer(1, type, command)` with the value at byte 7, sent
      with count `Length - 1`, which puts `F7` in the last byte. */
  function Command(t: MidiDeviceType, command: byte, value: byte): (m: seq<byte>)
    ensures |m| == 9 && m[..5] == SysExBuffers.Header && m[5] == SysExBuffers.ModelByte(t)
    ensures m[6] == command && m[7] == value && m[8] == SysExBuffers.Terminator
  {
    var b := SysExBuffers.CreateBuffer(1, t, command).value;
    b[7 := value][8 := SysExBuffers.Terminator]
  }

  /** Standalone mode (`21 01`), programmer layout (`2C 03`), clear all
      (`0E 00`): what the Connected handler sends. */
  function ConnectMessages(t: MidiDeviceType): seq<seq<byte>>
  {
    [Command(t, 0x21, 1), Command(t, 0x2C, 3), ClearMessage(t)]
  }

  /** What the Disconnecting handler sends. */
  function ClearMessage(t: MidiDeviceType): seq<byte>
  {
    Command(t, 0x0E, 0)
  }

  /** Every handler message is a well-formed envelope in the sense of the
      emulator's validity test, for exactly the type whose model byte it
      carries: a Mk2 message as a Mk2 one, any other as a Pro one. */
  lemma ConnectMessagesValid(t: MidiDeviceType, k: nat, t': MidiDeviceType)
    requires k < 3
    ensures SysExBuffers.IsValid(ConnectMessages(t)[k], 9, t') <==> (t' == Mk2 && t == Mk2) || (t' == Pro && t != Mk2)
  {
    var m := ConnectMessages(t)[k];
    assert m[..5] == SysExBuffers.Header;
    assert m[0] == 0xF0 && m[1] == 0x00 && m[2] == 0x20 && m[3] == 0x29 && m[4] == 0x02;
  }

  /** `Connect()` over RawMidiDevice's Connect: a connected
      device is disconnected first, and its Disconnecting handler sends the
      clear message; the Connected handler sends the three connect
      messages when ConnectInternal (`internalOk`) succeeds. Both handlers
      run while the device counts as connected, so the send gate passes
      them. RawMidiDevice's Connect always answers true, so the dirty flag
      is always set. The light array and the snapshot are kept. */
  function Connect(s: State, internalOk: bool): (r: (State, seq<seq<byte>>))
    ensures var o := Lifecycle.Connect(s.conn, true, internalOk);
            r.0 == s.(conn := o.device, invalidated := true) &&
            r.1 == (if Lifecycle.Disconnecting in o.trace then [ClearMessage(s.device.deviceType)] else []) +
                   (if Lifecycle.Connected in o.trace then ConnectMessages(s.device.deviceType) else [])
  {
    var o := Lifecycle.Connect(s.conn, true, internalOk);
    var t := s.device.deviceType;
    var before := if s.conn.isConnected then [ClearMessage(t)] else [];
    (s.(conn := o.device, invalidated := true), before + (if internalOk then ConnectMessages(t) else []))
  }

  /** `Disconnect()`, and Stop once the worker is gone: the
      clear message only if the device was connected. */
  function Disconnect(s: State): (r: (State, seq<seq<byte>>))
    ensures !r.0.conn.isConnected && r.0 == s.(conn := r.0.conn)
    ensures r.1 == (if Lifecycle.Disconnecting in Lifecycle.Disconnect(s.conn, true).trace then [ClearMessage(s.device.deviceType)] else [])
  {
    var o := Lifecycle.Disconnect(s.conn, true);
    (s.(conn := o.device), if s.conn.isConnected then [ClearMessage(s.device.deviceType)] else [])
  }

  /** `Start`: its Stop first, which disconnects and so
      sends the clear message when the device was connected; then both
      arrays LEDCount dark lights and the three buffers allocated. The
      dirty flag is left as it was. */
  function Start(s: State): (r: (State, seq<seq<byte>>))
    requires Usable(s.device)
    ensures Ready(r.0) && r.0.device == s.device && r.0.invalidated == s.invalidated
    ensures r.0.leds == r.0.oldLeds == seq(s.device.core.shape.ledCount, _ => Dark)
    ensures !r.0.conn.isConnected
    ensures r.1 == (if s.conn.isConnected then [ClearMessage(s.device.deviceType)] else [])
  {
    var n := s.device.core.shape.ledCount;
    var t := s.device.deviceType;
    var normal := SysExBuffers.CreateBuffer(2 * n, t, Mode(NormalBatch)).value;
    var pulse := SysExBuffers.CreateBuffer(3 * n, t, Mode(PulseBatch)).value;
    var flash := SysExBuffers.CreateBuffer(3 * n, t, Mode(FlashBatch)).value;
    var (off, sent) := Disconnect(s);
    (off.(leds := seq(n, _ => Dark), oldLeds := seq(n, _ => Dark), normalMsg := normal, pulseMsg := pulse, flashMsg := flash), sent)
  }

  // ---------------------------------------------------------------------
  // Setters: Clear, Set(LED[]) and the coordinate setters

  /** The four coordinate setters with their `int` colour arguments. */
  datatype LedOp =
    | SetColor(color: int)
    | SetOff
    | SetPulse(color: int)
    | SetFlash(fromColor: int, toColor: int)

  /** The LED a setter stores; colours go through the `(byte)` cast. */
  function Target(op: LedOp): Led
  {
    match op
    case SetColor(c) => Led(Normal, ToByte(c), 0)
    case SetOff => Dark
    case SetPulse(c) => Led(Pulse, ToByte(c), 0)
    case SetFlash(c1, c2) => Led(Flash, ToByte(c1), ToByte(c2))
  }

  /** SetPulse returns early for a colour outside 0..128. */
  predicate Rejected(op: LedOp)
  {
    op.SetPulse? && (op.color < 0 || op.color > 128)
  }

  /** The index a setter resolves, through RawMidiDevice's `int, int`
      overload of GetIndex. */
  function IndexOf(s: State, x: int, y: int): byte
    requires LaunchpadMidi.Valid(s.device.core)
  {
    LaunchpadMidi.GetIndexAtInt(s.device.core, x, y)
  }

  /** `Set(x, y, color)`, `SetOff`, `SetPulse`, `SetFlash`: an unmapped
      position or a rejected pulse colour is a no-op; an index past the
      array throws; otherwise the LED is overwritten and the flag set,
      even when the LED already held that value. */
  function Set(s: State, x: int, y: int, op: LedOp): (r: Result<State>)
    requires LaunchpadMidi.Valid(s.device.core)
    ensures var i := IndexOf(s, x, y);
            r.Throws? <==> i != Sentinel && !Rejected(op) && i >= |s.leds|
    ensures r.Throws? ==> r.error == IndexOutOfRange
    ensures var i := IndexOf(s, x, y);
            r.Ok? && (i == Sentinel || Rejected(op)) ==> r.value == s
    ensures var i := IndexOf(s, x, y);
            r.Ok? && i != Sentinel && !Rejected(op) ==>
              i < |s.leds| && r.value == s.(leds := s.leds[i := Target(op)], invalidated := true)
  {
    var i := IndexOf(s, x, y);
    if i == Sentinel || Rejected(op) then Ok(s)
    else if i >= |s.leds| then Throws(IndexOutOfRange)
    else Ok(s.(leds := s.leds[i := Target(op)], invalidated := true))
  }

  /** Unlike the two renderers' setters, these never elide: repeating a
      request leaves the same state, but each accepted request sets the
      flag even when the LED already showed it. */
  lemma SetNeverElides(s: State, x: int, y: int, op: LedOp)
    requires LaunchpadMidi.Valid(s.device.core) && Set(s, x, y, op).Ok?
    ensures Set(Set(s, x, y, op).value, x, y, op) == Set(s, x, y, op)
    ensures IndexOf(s, x, y) != Sentinel && !Rejected(op) ==> Set(s, x, y, op).value.invalidated
  {
    var i := IndexOf(s, x, y);
    if i != Sentinel && !Rejected(op) {
      var s1 := Set(s, x, y, op).value;
      assert IndexOf(s1, x, y) == i;
      assert s1.leds[i := Target(op)] == s1.leds;
    }
  }

  /** Setters touch only the light array and the flag, so they keep Ready. */
  lemma SetKeepsReady(s: State, x: int, y: int, op: LedOp)
    requires Ready(s) && Set(s, x, y, op).Ok?
    ensures Ready(Set(s, x, y, op).value)
  {}

  /** `Set(LED[])`: exactly 80 LEDs or InvalidOperation;
      otherwise the array is adopted and the flag set. */
  function SetAll(s: State, leds: seq<Led>): (r: Result<State>)
    ensures r.Ok? <==> |leds| == 80
    ensures r.Throws? ==> r.error == InvalidOperation
    ensures r.Ok? ==> r.value.leds == leds && r.value.invalidated && r.value == s.(leds := leds, invalidated := true)
  {
    if |leds| != 80 then Throws(InvalidOperation) else Ok(s.(leds := leds, invalidated := true))
  }

  /** Every declared LEDCount (80 or 96) holds 80 LEDs, so an adopted array
      keeps Ready. */
  lemma SetAllKeepsReady(s: State, leds: seq<Led>)
    requires Ready(s) && SetAll(s, leds).Ok?
    ensures Ready(SetAll(s, leds).value)
  {}

  /** `Clear`: every LED dark; the flag is set if some LED
      was not Off, and otherwise left as it was. */
  method Clear(s: State) returns (r: State)
    ensures r.leds == seq(|s.leds|, _ => Dark)
    ensures r.invalidated <==> s.invalidated || exists i | 0 <= i < |s.leds| :: s.leds[i].mode != Off
    ensures r == s.(leds := r.leds, invalidated := r.invalidated)
  {
    var leds := s.leds;
    var invalidated := s.invalidated;
    var i := 0;
    while i < |leds|
      invariant 0 <= i <= |leds| == |s.leds|
      invariant leds[..i] == seq(i, _ => Dark) && leds[i..] == s.leds[i..]
      invariant invalidated <==> s.invalidated || exists k | 0 <= k < i :: s.leds[k].mode != Off
    {
      assert leds[i] == s.leds[i..][0];
      if leds[i].mode != Off {
        invalidated := true;
      }
      leds := leds[i := Dark];
      assert leds[i + 1..] == s.leds[i + 1..];
      i := i + 1;
    }
    r := s.(leds := leds, invalidated := invalidated);
  }

  // ---------------------------------------------------------------------
  // Render and its Send helper

  /** The midi id of light i: RawMidiDevice's `int` GetMidiId. */
  function IdOf(d: RawMidi.RawDevice, i: int): (id: byte)
    ensures LaunchpadMidi.Valid(d.core) ==> id == LaunchpadMidi.GetMidiIdInt(d.core, i)
  {
    var ids := d.core.lookups.indexToMidi;
    if 0 <= i < 256 && |ids| == 256 then ids[i] else Sentinel
  }

  /** What a changed light adds to a batch: Off as (id, 0) and Normal as
      (id, colour) to the normal batch; Pulse as (id, colour) to the pulse
      batch; Flash as (id, colour) to the normal batch and
      (0, id, flash colour) to the flash batch. */
  function Part(b: Batch, l: Led, id: byte): (p: seq<byte>)
    ensures |p| == 0 || |p| == Stride(b)
  {
    match b
    case NormalBatch =>
      if l.mode == Off then [id, 0] else if l.mode == Pulse then [] else [id, l.color]
    case PulseBatch => if l.mode == Pulse then [id, l.color] else []
    case FlashBatch => if l.mode == Flash then [0, id, l.flashColor] else []
  }

  /** A light belongs to the batches of its mode, and every light to at
      least one: Off, Normal and Flash to the normal batch, Pulse to the
      pulse batch, Flash also to the flash batch. */
  lemma PartsByMode(l: Led, id: byte)
    ensures Part(NormalBatch, l, id) != [] <==> l.mode != Pulse
    ensures Part(PulseBatch, l, id) != [] <==> l.mode == Pulse
    ensures Part(FlashBatch, l, id) != [] <==> l.mode == Flash
    ensures Part(NormalBatch, l, id) != [] ==> Part(NormalBatch, l, id)[0] == id
    ensures Part(PulseBatch, l, id) != [] ==> Part(PulseBatch, l, id)[0] == id
    ensures Part(FlashBatch, l, id) != [] ==> Part(FlashBatch, l, id)[1] == id
  {}

  /** A batch's payload after the first n lights: the parts of the lights
      that differ from the snapshot, in index order. */
  function Diff(b: Batch, d: RawMidi.RawDevice, leds: seq<Led>, oldLeds: seq<Led>, n: nat): (p: seq<byte>)
    requires n <= |leds| <= |oldLeds|
  {
    if n == 0 then []
    else
      var p := Diff(b, d, leds, oldLeds, n - 1);
      p + Contribution(b, d, leds, oldLeds, n - 1)
  }

  /** What light i adds to batch b: nothing when it equals its snapshot
      entry, its part otherwise. */
  function Contribution(b: Batch, d: RawMidi.RawDevice, leds: seq<Led>, oldLeds: seq<Led>, i: nat): seq<byte>
    requires i < |leds| <= |oldLeds|
  {
    if leds[i] == oldLeds[i] then [] else Part(b, leds[i], IdOf(d, i))
  }

  /** The message a batch is sent as, if any: Send skips a buffer with no
      payload and otherwise sends the prefix, the payload and `F7`. */
  function Framed(t: MidiDeviceType, b: Batch, payload: seq<byte>): seq<seq<byte>>
  {
    if payload == [] then [] else [Prefix(t, b) + payload + [SysExBuffers.Terminator]]
  }

  /** The messages one Render of an invalidated state sends, in order. */
  function Expected(s: State): seq<seq<byte>>
    requires Usable(s.device) && |s.leds| <= |s.oldLeds|
  {
    var t, n := s.device.deviceType, |s.leds|;
    Framed(t, NormalBatch, Diff(NormalBatch, s.device, s.leds, s.oldLeds, n)) +
    Framed(t, PulseBatch, Diff(PulseBatch, s.device, s.leds, s.oldLeds, n)) +
    Framed(t, FlashBatch, Diff(FlashBatch, s.device, s.leds, s.oldLeds, n))
  }

  /** Overwrite `part` into `buf` at `pos`. */
  function Put(buf: seq<byte>, pos: nat, part: seq<byte>): (r: seq<byte>)
    requires pos + |part| <= |buf|
    ensures |r| == |buf| && r[..pos] == buf[..pos] && r[pos..pos + |part|] == part
  {
    buf[..pos] + part + buf[pos + |part|..]
  }

  /** A write at the write position extends the payload written so far. */
  lemma PutExtends(buf: seq<byte>, pos: nat, part: seq<byte>, payload: seq<byte>)
    requires 7 <= pos && pos + |part| <= |buf| && buf[7..pos] == payload
    ensures Put(buf, pos, part)[..7] == buf[..7]
    ensures Put(buf, pos, part)[7..pos + |part|] == payload + part
  {
    var r := Put(buf, pos, part);
    assert r[..pos] == buf[..pos];
    assert r[..7] == r[..pos][..7];
    assert r[7..pos] == r[..pos][7..];
    assert r[7..pos + |part|] == r[7..pos] + r[pos..pos + |part|];
  }

  /** One batch's write position and buffer through the loop: the
      buffer's prefix kept, the payload so far at 7..pos. */
  ghost predicate Filled(b: Batch, s: State, buf: seq<byte>, buf0: seq<byte>, pos: nat, i: nat)
    requires Usable(s.device) && i <= |s.leds| <= |s.oldLeds|
  {
    var p := Diff(b, s.device, s.leds, s.oldLeds, i);
    |buf| == |buf0| && 7 <= pos == 7 + |p| <= |buf| && buf[..7] == buf0[..7] && buf[7..pos] == p
  }

  /** One pass of the loop body for one batch. */
  lemma {:induction false} FillStep(b: Batch, s: State, buf: seq<byte>, buf0: seq<byte>, pos: nat, i: nat)
    requires Usable(s.device) && i < |s.leds| <= |s.oldLeds|
    requires |buf0| >= 8 + Stride(b) * |s.oldLeds|
    requires Filled(b, s, buf, buf0, pos, i)
    ensures var part := Contribution(b, s.device, s.leds, s.oldLeds, i);
            pos + |part| < |buf| && Filled(b, s, Put(buf, pos, part), buf0, pos + |part|, i + 1)
  {
    var part := Contribution(b, s.device, s.leds, s.oldLeds, i);
    var p := Diff(b, s.device, s.leds, s.oldLeds, i);
    assert Diff(b, s.device, s.leds, s.oldLeds, i + 1) == p + part;
    DiffBound(b, s.device, s.leds, s.oldLeds, i + 1);
    assert |p + part| <= Stride(b) * (i + 1) <= Stride(b) * |s.oldLeds| by {
      assert Stride(b) * (i + 1) <= Stride(b) * |s.oldLeds|;
    }
    PutExtends(buf, pos, part, p);
  }

  /** The loop of `Render`: each light that differs from the snapshot
      is written into the buffers of its mode at the batch's write
      position. */
  method RenderLoop(s: State) returns (normal: seq<byte>, np: nat, pulse: seq<byte>, pp: nat, flash: seq<byte>, fp: nat)
    requires Ready(s)
    ensures Filled(NormalBatch, s, normal, s.normalMsg, np, |s.leds|)
    ensures Filled(PulseBatch, s, pulse, s.pulseMsg, pp, |s.leds|)
    ensures Filled(FlashBatch, s, flash, s.flashMsg, fp, |s.leds|)
    ensures np < |normal| && pp < |pulse| && fp < |flash|
  {
    normal, pulse, flash := s.normalMsg, s.pulseMsg, s.flashMsg;
    np, pp, fp := 7, 7, 7;
    var i := 0;
    while i < |s.leds|
      invariant 0 <= i <= |s.leds|
      invariant Filled(NormalBatch, s, normal, s.normalMsg, np, i)
      invariant Filled(PulseBatch, s, pulse, s.pulseMsg, pp, i)
      invariant Filled(FlashBatch, s, flash, s.flashMsg, fp, i)
    {
      var id := IdOf(s.device, i);
      var led, oldLed := s.leds[i], s.oldLeds[i];
      FillStep(NormalBatch, s, normal, s.normalMsg, np, i);
      FillStep(PulseBatch, s, pulse, s.pulseMsg, pp, i);
      FillStep(FlashBatch, s, flash, s.flashMsg, fp, i);
      if led != oldLed {
        var n, u, f := Part(NormalBatch, led, id), Part(PulseBatch, led, id), Part(FlashBatch, led, id);
        normal, np := Put(normal, np, n), np + |n|;
        pulse, pp := Put(pulse, pp, u), pp + |u|;
        flash, fp := Put(flash, fp, f), fp + |f|;
      }
      i := i + 1;
    }
    PositionsFit(s);
  }

  /** `Send(buffer, count)`: a count of 7 means an empty
      payload and nothing is sent; otherwise `F7` goes at `count` and the
      first `count + 1` bytes are sent. */
  function Send(buffer: seq<byte>, count: nat): (r: (seq<byte>, seq<seq<byte>>))
    requires count < |buffer|
    ensures r.1 == [] <==> count == 7
    ensures r.1 != [] ==> r.1 == [buffer[..count] + [SysExBuffers.Terminator]] && r.0 == buffer[count := SysExBuffers.Terminator]
    ensures r.1 == [] ==> r.0 == buffer
  {
    if count == 7 then (buffer, [])
    else
      var b := buffer[count := SysExBuffers.Terminator];
      assert b[..count + 1] == buffer[..count] + [SysExBuffers.Terminator];
      (b, [b[..count + 1]])
  }

  /** A filled buffer sends exactly the framed payload: whatever an
      earlier render left past the write position never leaks out. */
  lemma SendFramed(b: Batch, s: State, buf: seq<byte>, buf0: seq<byte>, pos: nat)
    requires Ready(s) && Filled(b, s, buf, buf0, pos, |s.leds|) && pos < |buf|
    requires buf0[..7] == Prefix(s.device.deviceType, b)
    ensures Send(buf, pos).1 == Framed(s.device.deviceType, b, Diff(b, s.device, s.leds, s.oldLeds, |s.leds|))
    ensures Send(buf, pos).0[..7] == buf0[..7]
  {
    assert buf[..pos] == buf[..7] + buf[7..pos];
  }

  /** `Render`: a no-op unless invalidated; otherwise the
      three batches are filled and sent (normal, pulse, flash; empty ones
      skipped), the light array is copied over the front of the snapshot
      (it may be shorter than the snapshot after `Set(LED[])`), and the
      flag is cleared. */
  method Render(s: State) returns (r: State, sent: seq<seq<byte>>)
    requires Ready(s)
    ensures Ready(r)
    ensures !s.invalidated ==> r == s && sent == []
    ensures s.invalidated ==> sent == Expected(s)
    ensures s.invalidated ==> !r.invalidated && r.leds == s.leds && r.oldLeds == s.leds + s.oldLeds[|s.leds|..]
    ensures r.conn == s.conn && r.device == s.device
  {
    if !s.invalidated {
      return s, [];
    }
    var normal, np, pulse, pp, flash, fp := RenderLoop(s);
    SendFramed(NormalBatch, s, normal, s.normalMsg, np);
    SendFramed(PulseBatch, s, pulse, s.pulseMsg, pp);
    SendFramed(FlashBatch, s, flash, s.flashMsg, fp);
    var n := Send(normal, np);
    var u := Send(pulse, pp);
    var f := Send(flash, fp);
    sent := n.1 + u.1 + f.1;
    r := s.(oldLeds := s.leds + s.oldLeds[|s.leds|..], invalidated := false,
            normalMsg := n.0, pulseMsg := u.0, flashMsg := f.0);
  }

  /** Lights equal to their snapshot contribute nothing. */
  lemma {:induction false} DiffUnchanged(b: Batch, d: RawMidi.RawDevice, leds: seq<Led>, oldLeds: seq<Led>, n: nat)
    requires n <= |leds| <= |oldLeds|
    requires forall i | 0 <= i < n :: leds[i] == oldLeds[i]
    ensures Diff(b, d, leds, oldLeds, n) == []
  {
    if n > 0 {
      DiffUnchanged(b, d, leds, oldLeds, n - 1);
    }
  }

  /** After a Render, a second Render sends nothing, and would send
      nothing even if something set the flag again without changing a
      light. */
  lemma RenderTwiceSilent(s: State)
    requires Usable(s.device) && |s.leds| <= |s.oldLeds|
    ensures var s' := s.(oldLeds := s.leds + s.oldLeds[|s.leds|..]);
            Expected(s') == []
  {
    var s' := s.(oldLeds := s.leds + s.oldLeds[|s.leds|..]);
    forall b: Batch {
      DiffUnchanged(b, s'.device, s'.leds, s'.oldLeds, |s'.leds|);
    }
  }

  /** The count of lights among the first n that differ from the snapshot
      and add to batch b. */
  function Changed(b: Batch, d: RawMidi.RawDevice, leds: seq<Led>, oldLeds: seq<Led>, n: nat): (c: nat)
    requires n <= |leds| <= |oldLeds|
    ensures c <= n
  {
    if n == 0 then 0
    else Changed(b, d, leds, oldLeds, n - 1) +
         (if Contribution(b, d, leds, oldLeds, n - 1) != [] then 1 else 0)
  }

  /** Every changed light is emitted exactly once per batch of its mode,
      in index order: light k's part sits right after the parts of the
      changed lights before it, and the payload is one stride per changed
      light. */
  lemma {:induction false} DiffPlacement(b: Batch, d: RawMidi.RawDevice, leds: seq<Led>, oldLeds: seq<Led>, n: nat, k: nat)
    requires k < n <= |leds| <= |oldLeds|
    ensures |Diff(b, d, leds, oldLeds, n)| == Stride(b) * Changed(b, d, leds, oldLeds, n)
    ensures var at := Stride(b) * Changed(b, d, leds, oldLeds, k);
            var part := Contribution(b, d, leds, oldLeds, k);
            at + |part| <= |Diff(b, d, leds, oldLeds, n)| &&
            Diff(b, d, leds, oldLeds, n)[at..at + |part|] == part
  {
    DiffLength(b, d, leds, oldLeds, n);
    DiffLength(b, d, leds, oldLeds, k);
    DiffPartAt(b, d, leds, oldLeds, n, k);
  }

  /** Light k's part follows the payload of the lights before it. */
  lemma {:induction false} DiffPartAt(b: Batch, d: RawMidi.RawDevice, leds: seq<Led>, oldLeds: seq<Led>, n: nat, k: nat)
    requires k < n <= |leds| <= |oldLeds|
    ensures var p := Diff(b, d, leds, oldLeds, k);
            var part := Contribution(b, d, leds, oldLeds, k);
            |p| + |part| <= |Diff(b, d, leds, oldLeds, n)| &&
            Diff(b, d, leds, oldLeds, n)[|p|..|p| + |part|] == part
    decreases n
  {
    var p := Diff(b, d, leds, oldLeds, k);
    var part := Contribution(b, d, leds, oldLeds, k);
    if n == k + 1 {
      assert Diff(b, d, leds, oldLeds, n) == p + part;
      SliceAfter(p, part);
    } else {
      DiffPartAt(b, d, leds, oldLeds, n - 1, k);
      var prev := Diff(b, d, leds, oldLeds, n - 1);
      assert Diff(b, d, leds, oldLeds, n) == prev + Contribution(b, d, leds, oldLeds, n - 1);
      SliceOfConcat(prev, Contribution(b, d, leds, oldLeds, n - 1), |p|, |p| + |part|);
    }
  }

  /** The second half of a concatenation, sliced back out. */
  lemma SliceAfter(p: seq<byte>, part: seq<byte>)
    ensures (p + part)[|p|..|p| + |part|] == part
  {}

  /** Appending leaves a slice of the first half alone. */
  lemma SliceOfConcat(x: seq<byte>, y: seq<byte>, lo: nat, hi: nat)
    requires lo <= hi <= |x|
    ensures (x + y)[lo..hi] == x[lo..hi]
  {}

  lemma {:induction false} DiffLength(b: Batch, d: RawMidi.RawDevice, leds: seq<Led>, oldLeds: seq<Led>, n: nat)
    requires n <= |leds| <= |oldLeds|
    ensures |Diff(b, d, leds, oldLeds, n)| == Stride(b) * Changed(b, d, leds, oldLeds, n)
  {
    if n > 0 {
      DiffLength(b, d, leds, oldLeds, n - 1);
      var c := Changed(b, d, leds, oldLeds, n - 1);
      PartLength(b, leds[n - 1], IdOf(d, n - 1));
      assert Stride(b) * (c + 1) == Stride(b) * c + Stride(b);
    }
  }

  /** A batch's payload is at most one stride per light. */
  lemma {:induction false} DiffBound(b: Batch, d: RawMidi.RawDevice, leds: seq<Led>, oldLeds: seq<Led>, n: nat)
    requires n <= |leds| <= |oldLeds|
    ensures |Diff(b, d, leds, oldLeds, n)| <= Stride(b) * n
  {
    if n > 0 {
      DiffBound(b, d, leds, oldLeds, n - 1);
      PartLength(b, leds[n - 1], IdOf(d, n - 1));
      assert Stride(b) * n == Stride(b) * (n - 1) + Stride(b);
    }
  }

  /** A part is empty or one stride long. */
  lemma PartLength(b: Batch, l: Led, id: byte)
    ensures |Part(b, l, id)| == if Part(b, l, id) == [] then 0 else Stride(b)
  {}

  /** The payload only grows as the loop goes on. */
  lemma {:induction false} DiffPrefix(b: Batch, d: RawMidi.RawDevice, leds: seq<Led>, oldLeds: seq<Led>, m: nat, n: nat)
    requires m <= n <= |leds| <= |oldLeds|
    ensures var q := Diff(b, d, leds, oldLeds, m);
            |q| <= |Diff(b, d, leds, oldLeds, n)| && Diff(b, d, leds, oldLeds, n)[..|q|] == q
  {
    if m < n {
      DiffPrefix(b, d, leds, oldLeds, m, n - 1);
      var q := Diff(b, d, leds, oldLeds, m);
      var p := Diff(b, d, leds, oldLeds, n - 1);
      assert Diff(b, d, leds, oldLeds, n)[..|p|] == p;
      assert p[..|q|] == q;
    }
  }

  /** The write positions Render reaches stay inside Start's buffers: at
      most `7 + 2n` and `7 + 3n` for n lights, so `F7` at the position fits
      in the `7 + len + 1` bytes as long as the array is no longer than
      LEDCount. */
  lemma PositionsFit(s: State)
    requires Ready(s)
    ensures 7 + |Diff(NormalBatch, s.device, s.leds, s.oldLeds, |s.leds|)| <= 7 + 2 * |s.leds| < |s.normalMsg|
    ensures 7 + |Diff(PulseBatch, s.device, s.leds, s.oldLeds, |s.leds|)| <= 7 + 2 * |s.leds| < |s.pulseMsg|
    ensures 7 + |Diff(FlashBatch, s.device, s.leds, s.oldLeds, |s.leds|)| <= 7 + 3 * |s.leds| < |s.flashMsg|
  {
    forall b: Batch {
      DiffBound(b, s.device, s.leds, s.oldLeds, |s.leds|);
    }
  }

  // ---------------------------------------------------------------------
  // Reconnection

  /** After a reconnect, Render still diffs against the snapshot, although
      the connect messages end with a clear-all: a device whose lights all
      matched the snapshot is sent nothing, whatever was lit. */
  lemma ReconnectLeavesDark(s: State, internalOk: bool)
    requires Ready(s) && s.leds == s.oldLeds[..|s.leds|]
    ensures var s' := Connect(s, internalOk).0;
            s'.invalidated && Ready(s') && Expected(s') == []
    ensures internalOk ==> var m := Connect(s, internalOk).1; m[|m| - 1] == ClearMessage(s.device.deviceType)
  {
    var s' := Connect(s, internalOk).0;
    forall b: Batch {
      DiffUnchanged(b, s'.device, s'.leds, s'.oldLeds, |s'.leds|);
    }
  }

  /** Render does not look at the connection: while the device is
      disconnected (a failed ConnectInternal still lets the worker render)
      its batches reach no SendInternal, yet the snapshot catches up with
      the lights, so after a later connect, successful or not, those
      lights are never sent. */
  lemma RenderWhileDisconnectedIsLost(s: State, internalOk: bool)
    requires Ready(s) && !s.conn.isConnected
    ensures Lifecycle.Delivered(s.conn, Expected(s)) == []
    ensures var after := s.(oldLeds := s.leds + s.oldLeds[|s.leds|..], invalidated := false);
            Ready(after) && Expected(Connect(after, internalOk).0) == []
  {
    Lifecycle.DeliveredAll(s.conn, Expected(s));
    var after := s.(oldLeds := s.leds + s.oldLeds[|s.leds|..], invalidated := false);
    assert after.leds == after.oldLeds[..|after.leds|];
    ReconnectLeavesDark(after, internalOk);
  }

  /** A concrete case: a disconnected Mk2 whose first LED is set Normal.
      Render has a batch for it, none of it is delivered, and after a
      successful connect the next Render sends nothing. */
  lemma RenderWhileDisconnectedLosesLitLed(d: RawMidi.RawDevice)
    requires Usable(d) && d.deviceType == Mk2
    ensures var s0 := Start(New(d)).0;
            var s := s0.(leds := s0.leds[0 := Led(Normal, 5, 0)], invalidated := true);
            var after := s.(oldLeds := s.leds + s.oldLeds[|s.leds|..], invalidated := false);
            Ready(s) && !s.conn.isConnected && Expected(s) != [] &&
            Lifecycle.Delivered(s.conn, Expected(s)) == [] && Expected(Connect(after, true).0) == []
  {
    var s0 := Start(New(d)).0;
    var s := s0.(leds := s0.leds[0 := Led(Normal, 5, 0)], invalidated := true);
    ChangedPlacement(NormalBatch, s.device, s.leds, s.oldLeds, 0);
    assert |Diff(NormalBatch, s.device, s.leds, s.oldLeds, |s.leds|)| >= 2;
    RenderWhileDisconnectedIsLost(s, true);
  }

  /** A concrete case: a Mk2 whose first LED is lit Normal and already
      sent; after a successful reconnect the device has been cleared and
      the next Render sends nothing. */
  lemma ReconnectLeavesLitLedDark(d: RawMidi.RawDevice)
    requires Usable(d) && d.deviceType == Mk2
    ensures var s0 := Start(New(d)).0;
            var s := s0.(leds := s0.leds[0 := Led(Normal, 5, 0)], oldLeds := s0.oldLeds[0 := Led(Normal, 5, 0)]);
            var r := Connect(s, true);
            Ready(s) && s.leds[0].mode == Normal && r.1[2] == ClearMessage(Mk2) && Expected(r.0) == []
  {
    var s0 := Start(New(d)).0;
    var s := s0.(leds := s0.leds[0 := Led(Normal, 5, 0)], oldLeds := s0.oldLeds[0 := Led(Normal, 5, 0)]);
    ReconnectLeavesDark(s, true);
  }

  /** Connect with the snapshot reset to what the clear-all leaves on the
      device, whenever the connect messages went out. */
  function ConnectCorrected(s: State, internalOk: bool): (r: (State, seq<seq<byte>>))
    ensures r.1 == Connect(s, internalOk).1
    ensures internalOk ==> r.0 == Blanked(Connect(s, internalOk).0)
    ensures !internalOk ==> r.0 == Connect(s, internalOk).0
  {
    var c := Connect(s, internalOk);
    if internalOk then (Blanked(c.0), c.1) else c
  }

  /** The snapshot of a freshly cleared device: every LED dark. */
  function Blanked(s: State): (r: State)
    ensures r == s.(oldLeds := seq(|s.oldLeds|, _ => Dark))
    ensures Ready(s) ==> Ready(r)
  {
    s.(oldLeds := seq(|s.oldLeds|, _ => Dark))
  }

  /** After a corrected reconnect, which keeps the light array and blanks
      the snapshot, every LED that is not dark is sent again, at its place
      in the batch of its mode. */
  lemma ConnectCorrectedRedraws(s: State, b: Batch, k: nat)
    requires Usable(s.device) && k < |s.leds| <= |s.oldLeds| && s.leds[k] != Dark
    ensures var dark := Blanked(s).oldLeds;
            var p := Diff(b, s.device, s.leds, dark, |s.leds|);
            var at := Stride(b) * Changed(b, s.device, s.leds, dark, k);
            var part := Part(b, s.leds[k], IdOf(s.device, k));
            at + |part| <= |p| && p[at..at + |part|] == part
  {
    ChangedPlacement(b, s.device, s.leds, Blanked(s).oldLeds, k);
  }

  /** A light that differs from its snapshot entry is sent, at its place. */
  lemma ChangedPlacement(b: Batch, d: RawMidi.RawDevice, leds: seq<Led>, oldLeds: seq<Led>, k: nat)
    requires k < |leds| <= |oldLeds| && leds[k] != oldLeds[k]
    ensures var p := Diff(b, d, leds, oldLeds, |leds|);
            var at := Stride(b) * Changed(b, d, leds, oldLeds, k);
            var part := Part(b, leds[k], IdOf(d, k));
            at + |part| <= |p| && p[at..at + |part|] == part
  {
    DiffPlacement(b, d, leds, oldLeds, |leds|, k);
  }

  // ---------------------------------------------------------------------
  // Button events: the constructor's ButtonDown and ButtonUp handlers

  datatype EventType = ButtonDown | ButtonUp | SystemButtonDown | SystemButtonUp

  datatype LaunchpadEvent = LaunchpadEvent(kind: EventType, button: Buttons.Button)

  /** The ButtonDown / ButtonUp handlers: the id's button with the position
      GetPos decodes, tagged as a system event exactly when that button is
      on the outer ring. */
  function OnButton(t: MidiDeviceType, midiId: byte, down: bool): (e: LaunchpadEvent)
    ensures e.button == Buttons.ButtonFor(t, midiId)
    ensures (e.kind == SystemButtonDown || e.kind == SystemButtonUp) <==> Buttons.IsSystem(e.button)
    ensures (e.kind == ButtonDown || e.kind == SystemButtonDown) <==> down
  {
    var btn := Buttons.ButtonFor(t, midiId);
    var kind := if Buttons.IsSystem(btn)
                then (if down then SystemButtonDown else SystemButtonUp)
                else (if down then ButtonDown else ButtonUp);
    LaunchpadEvent(kind, btn)
  }

  /** Press and release of one id carry the same button and the same
      system tag; for ids below 100 (and the Mk2's shifted top row) the
      tag is set exactly for an edge digit. */
  lemma EventsAgree(t: MidiDeviceType, m: byte)
    requires m < 100 || (t == Mk2 && 104 <= m < 113)
    ensures OnButton(t, m, true).button == OnButton(t, m, false).button
    ensures OnButton(t, m, true).kind == SystemButtonDown <==> OnButton(t, m, false).kind == SystemButtonUp
    ensures var id := if t == Mk2 && m >= 104 then m - 13 else m;
            OnButton(t, m, true).kind == SystemButtonDown <==> (id % 10 == 0 || id % 10 == 9 || id / 10 == 0 || id / 10 == 9)
  {
    Buttons.SystemByDigits(t, m);
  }
}
