/** SysEx.cs (the DeviceInfo snapshot): Novation's System Exclusive
    envelope. A message is `F0`, the manufacturer id `00 20 29`, `02`, a
    model byte (`18` Mk2, `10` Pro), the payload, and `F7`, as in the System
    Exclusive framing of the MIDI 1.0 Detailed Specification. */
module SysExEnvelope {
  import opened Common
  import opened DeviceInfo

  /** Header, command byte, three bytes for each of the most lights any
      device has, and the terminator. */
  const MaxMessageLength: nat := 7 + 3 * MaxLightCount + 1

  /** `F0`, manufacturer id `00 20 29`, and `02`. */
  const Header: seq<byte> := [0xF0, 0x00, 0x20, 0x29, 0x02]

  const Terminator: byte := 0xF7

  /** The model byte of the types that speak SysEx. */
  function ModelByte(t: DeviceType): (r: Result<byte>)
    ensures r.Ok? <==> t == LaunchpadMk2 || t == LaunchpadPro
    ensures r.Ok? ==> r.value == (if t == LaunchpadMk2 then 0x18 else 0x10)
    ensures r.Throws? ==> r.error == InvalidOperation
  {
    match t
    case LaunchpadMk2 => Ok(0x18)
    case LaunchpadPro => Ok(0x10)
    case _ => Throws(InvalidOperation)
  }

  /** The model byte tells the two types apart. */
  lemma ModelByteInjective(t1: DeviceType, t2: DeviceType)
    requires ModelByte(t1).Ok? && ModelByte(t2).Ok?
    ensures ModelByte(t1) == ModelByte(t2) <==> t1 == t2
  {}

  /** The payload block: `msg`, or `msglen` bytes when that is longer. A
      negative `msglen` (the default is -1) means "just msg". */
  function BlockLength(msg: seq<byte>, msglen: int): (n: nat)
    ensures n >= |msg| && n >= msglen
    ensures n == |msg| || n == msglen
  {
    if msglen < |msg| then |msg| else msglen
  }

  function Zeros(n: nat): (z: seq<byte>)
    ensures |z| == n && forall i | 0 <= i < n :: z[i] == 0
  {
    seq(n, _ => 0)
  }

  /** Header, model byte, `msg`, zero padding up to the block length, F7. */
  function Envelope(model: byte, msg: seq<byte>, blockLen: nat): seq<byte>
    requires |msg| <= blockLen
  {
    Header + [model] + msg + Zeros(blockLen - |msg|) + [Terminator]
  }

  /** `CreateBuffer(type, msg, msglen)`: the envelope for the Mk2 and the
      Pro, InvalidOperationException for every other type. */
  function CreateBuffer(t: DeviceType, msg: seq<byte>, msglen: int): (r: Result<seq<byte>>)
    ensures r.Ok? <==> t == LaunchpadMk2 || t == LaunchpadPro
    ensures r.Throws? ==> r.error == InvalidOperation
    ensures r.Ok? ==>
              var b := r.value;
              |b| == 6 + BlockLength(msg, msglen) + 1 &&
              b[..5] == Header && b[5] == (if t == LaunchpadMk2 then 0x18 else 0x10) &&
              b[6..6 + |msg|] == msg &&
              (forall i | 6 + |msg| <= i < |b| - 1 :: b[i] == 0) &&
              b[|b| - 1] == Terminator
  {
    match ModelByte(t)
    case Ok(model) =>
      var b := Envelope(model, msg, BlockLength(msg, msglen));
      assert b[6..6 + |msg|] == msg;
      Ok(b)
    case Throws(e) => Throws(e)
  }

  /** Reading an envelope back: the type its model byte names and the bytes
      between the model byte and the terminator. */
  function Open(b: seq<byte>): (r: Result<(DeviceType, seq<byte>)>)
    ensures r.Ok? ==> |b| >= 7 && b[..5] == Header && b[|b| - 1] == Terminator
    ensures r.Ok? ==> |r.value.1| == |b| - 7
  {
    if |b| < 7 || b[..5] != Header || b[|b| - 1] != Terminator then Throws(InvalidOperation)
    else if b[5] == 0x18 then Ok((LaunchpadMk2, b[6..|b| - 1]))
    else if b[5] == 0x10 then Ok((LaunchpadPro, b[6..|b| - 1]))
    else Throws(InvalidOperation)
  }

  /** Opening a created envelope gives back the type and the payload
      followed by its zero padding. */
  lemma OpenCreate(t: DeviceType, msg: seq<byte>, msglen: int)
    requires t == LaunchpadMk2 || t == LaunchpadPro
    ensures Open(CreateBuffer(t, msg, msglen).value) == Ok((t, msg + Zeros(BlockLength(msg, msglen) - |msg|)))
  {
    var model := ModelByte(t).value;
    var z := Zeros(BlockLength(msg, msglen) - |msg|);
    var b := Envelope(model, msg, BlockLength(msg, msglen));
    assert b == Header + [model] + (msg + z) + [Terminator];
    assert b[6..|b| - 1] == msg + z;
    assert b[..5] == Header;
  }

  /** Every well-formed envelope is the one CreateBuffer builds from its
      payload with the default length. */
  lemma CreateOpen(b: seq<byte>)
    requires Open(b).Ok?
    ensures CreateBuffer(Open(b).value.0, Open(b).value.1, -1) == Ok(b)
  {
    var t := Open(b).value.0;
    var p := Open(b).value.1;
    assert b == b[..5] + [b[5]] + p + [b[|b| - 1]];
    assert ModelByte(t) == Ok(b[5]);
    assert BlockLength(p, -1) == |p|;
    assert Zeros(0) == [];
    assert Envelope(b[5], p, |p|) == Header + [b[5]] + p + [Terminator];
  }

  /** `GetHeaderLength`: for the SysEx types the envelope's first six bytes
      plus the command byte; 2 for the Mini and 0 for the S. */
  function GetHeaderLength(t: DeviceType): (n: nat)
    ensures ModelByte(t).Ok? ==> n == |Header| + 2
    ensures t == LaunchpadMini ==> n == 2
    ensures t == LaunchpadS ==> n == 0
  {
    match t
    case LaunchpadMk2 => 7
    case LaunchpadPro => 7
    case LaunchpadMini => 2
    case LaunchpadS => 0
  }

  /** The header length covers exactly the fixed bytes and the command byte
      of a created envelope. */
  lemma HeaderLengthCoversCommand(t: DeviceType, msg: seq<byte>, msglen: int)
    requires t == LaunchpadMk2 || t == LaunchpadPro
    requires |msg| >= 1
    ensures GetHeaderLength(t) < |CreateBuffer(t, msg, msglen).value|
    ensures CreateBuffer(t, msg, msglen).value[..GetHeaderLength(t)] == Header + [ModelByte(t).value, msg[0]]
  {
    var b := CreateBuffer(t, msg, msglen).value;
    assert b[6] == b[6..6 + |msg|][0] == msg[0];
  }

  /** A command byte plus three bytes per light fits MaxMessageLength for
      every device, up to the Pro's 97 lights. */
  lemma MaxMessageFits(t: DeviceType, msg: seq<byte>, lights: nat)
    requires t == LaunchpadMk2 || t == LaunchpadPro
    requires lights <= MaxLightCount && |msg| <= 1 + 3 * lights
    ensures |CreateBuffer(t, msg, 1 + 3 * lights).value| <= MaxMessageLength
    ensures MaxMessageLength == 299
  {}
}
