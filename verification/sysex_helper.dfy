/** Helpers/SysEx.cs (the later snapshot): a blank SysEx buffer with its
    header and command (mode) byte filled in, and the validity test the
    emulator applies to incoming buffers. The caller writes the payload and
    the `F7` terminator itself. */
module SysExBuffers {
  import opened Common
  import opened MidiDeviceTypes

  /** LaunchpadDevice.MaxLEDCount is 96. */
  const MaxLedCount: nat := 96

  /** Header, mode byte, three bytes per light, terminator. */
  const MaxMessageLength: nat := 7 + 3 * MaxLedCount + 1

  /** `F0`, manufacturer id `00 20 29`, and `02`. */
  const Header: seq<byte> := [0xF0, 0x00, 0x20, 0x29, 0x02]

  const Terminator: byte := 0xF7

  /** The model byte CreateBuffer writes: `18` for the Mk2, `10` for every
      other type, None included. */
  function ModelByte(t: MidiDeviceType): (b: byte)
    ensures b == 0x18 <==> t == Mk2
    ensures b == 0x10 <==> t != Mk2
  {
    if t == Mk2 then 0x18 else 0x10
  }

  /** `CreateBuffer(length, type, mode)`: a `7 + length + 1` byte array with
      the header, the model byte and the mode at 0..6 and zeros after. A
      negative size throws OverflowException; a size below 7 fails on the
      header writes. */
  function CreateBuffer(length: int, t: MidiDeviceType, mode: byte): (r: Result<seq<byte>>)
    ensures r.Ok? <==> length >= -1
    ensures r.Throws? ==> r.error == (if length < -8 then Overflow else IndexOutOfRange)
    ensures r.Ok? ==>
              var b := r.value;
              |b| == 7 + length + 1 && b[..5] == Header && b[5] == ModelByte(t) && b[6] == mode &&
              forall i | 7 <= i < |b| :: b[i] == 0
  {
    var size := 7 + length + 1;
    if size < 0 then Throws(Overflow)
    else if size < 7 then Throws(IndexOutOfRange)
    else Ok(Header + [ModelByte(t), mode] + seq(size - 7, _ => 0))
  }

  /** `IsValid(buffer, count, type)`: at least 8 bytes, the header, the
      type's own model byte (None has none), and `F7` as the last counted
      byte. The callers pass a count within the buffer. */
  predicate IsValid(buffer: seq<byte>, count: int, t: MidiDeviceType)
    requires count <= |buffer|
  {
    count >= 8 &&
    buffer[0] == 0xF0 && buffer[1] == 0x00 && buffer[2] == 0x20 && buffer[3] == 0x29 && buffer[4] == 0x02 &&
    ((t == Mk2 && buffer[5] == 0x18) || (t == Pro && buffer[5] == 0x10)) &&
    buffer[count - 1] == 0xF7
  }

  /** Filling a created buffer: `F7` written at `c - 1` for any count from
      8 up to the buffer's length makes a Mk2 buffer valid as a Mk2 one
      only, and every other buffer valid as a Pro one only: a None buffer
      carries the Pro's model byte and is never valid as None. */
  lemma CreateThenValid(n: int, t: MidiDeviceType, mode: byte, c: int, t': MidiDeviceType)
    requires CreateBuffer(n, t, mode).Ok?
    requires 8 <= c <= 8 + n
    ensures IsValid(CreateBuffer(n, t, mode).value[c - 1 := Terminator], c, t') <==>
              (t' == Mk2 && t == Mk2) || (t' == Pro && t != Mk2)
  {
    var b := CreateBuffer(n, t, mode).value;
    assert b[..5] == Header;
    var f := b[c - 1 := Terminator];
    assert f[0] == Header[0] && f[1] == Header[1] && f[2] == Header[2] && f[3] == Header[3] && f[4] == Header[4];
    assert f[5] == ModelByte(t) && f[c - 1] == 0xF7;
  }

  /** A created buffer on its own is never valid: the terminator is the
      caller's to write. */
  lemma CreatedNotValid(n: int, t: MidiDeviceType, mode: byte, c: int)
    requires CreateBuffer(n, t, mode).Ok?
    requires c <= |CreateBuffer(n, t, mode).value|
    ensures !IsValid(CreateBuffer(n, t, mode).value, c, t)
  {}

  /** An envelope of up to three bytes per light for LaunchpadDevice's 96
      lights fits MaxMessageLength. */
  lemma MaxMessageFits(t: MidiDeviceType, mode: byte, lights: nat)
    requires lights <= MaxLedCount
    ensures |CreateBuffer(3 * lights, t, mode).value| <= MaxMessageLength == 296
  {}
}
