/** Midi.cs: a blank channel-voice message with its status byte set. The
    status byte carries the message type in its high nibble and the channel
    minus one in its low nibble, as in the Channel Voice Messages of the
    MIDI 1.0 Detailed Specification. */
module MidiMessages {
  import opened Common

  /** MidiMessageType; each value is the type's status high nibble. */
  datatype MidiMessageType =
    | NoteOff | NoteOn | PolyphonicAftertouch | ControlModeChange
    | ProgramChange | ChannelAftertouch | PitchWheelRange | SystemExclusive

  function Code(t: MidiMessageType): (b: byte)
    ensures b % 16 == 0 && b >= 0x80
  {
    match t
    case NoteOff => 0x80
    case NoteOn => 0x90
    case PolyphonicAftertouch => 0xA0
    case ControlModeChange => 0xB0
    case ProgramChange => 0xC0
    case ChannelAftertouch => 0xD0
    case PitchWheelRange => 0xE0
    case SystemExclusive => 0xF0
  }

  /** Program Change and Channel Aftertouch carry one data byte, the other
      channel-voice messages two; System Exclusive is not a channel-voice
      message and throws. */
  function MessageLength(t: MidiMessageType): (r: Result<nat>)
    ensures r.Ok? <==> t != SystemExclusive
    ensures r.Ok? ==> r.value == (if t == ProgramChange || t == ChannelAftertouch then 2 else 3)
    ensures r.Throws? ==> r.error == InvalidOperation
  {
    match t
    case NoteOff => Ok(3)
    case NoteOn => Ok(3)
    case PolyphonicAftertouch => Ok(3)
    case ControlModeChange => Ok(3)
    case ProgramChange => Ok(2)
    case ChannelAftertouch => Ok(2)
    case PitchWheelRange => Ok(3)
    case SystemExclusive => Throws(InvalidOperation)
  }

  /** C#'s `&` on non-negative integers, bit by bit from the lowest. */
  function BitAnd(a: nat, b: nat): nat
  {
    if a == 0 || b == 0 then 0
    else 2 * BitAnd(a / 2, b / 2) + (if a % 2 == 1 && b % 2 == 1 then 1 else 0)
  }

  /** C#'s `|` on non-negative integers, bit by bit from the lowest. */
  function BitOr(a: nat, b: nat): nat
  {
    if a == 0 then b
    else if b == 0 then a
    else 2 * BitOr(a / 2, b / 2) + (if a % 2 == 1 || b % 2 == 1 then 1 else 0)
  }

  /** `(byte)((byte)type | ((channel - 1) & 0x0F))`. The mask reads only
      the low bits of the 32-bit two's-complement `channel - 1`, which are
      those of its value modulo 256, so channel 0 gives a low nibble of 15. */
  function Status(t: MidiMessageType, channel: byte): byte
  {
    var low := BitAnd((channel - 1) % 256, 0x0F);
    BitOr(Code(t), low) % 256
  }

  /** `CreateBuffer(type, channel)`: the status byte followed by zeroed
      data bytes. */
  function CreateBuffer(t: MidiMessageType, channel: byte): (r: Result<seq<byte>>)
    ensures r.Ok? <==> t != SystemExclusive
    ensures r.Throws? ==> r.error == InvalidOperation
    ensures r.Ok? ==> |r.value| == MessageLength(t).value && r.value[0] == Status(t, channel)
    ensures r.Ok? ==> forall i | 1 <= i < |r.value| :: r.value[i] == 0
  {
    match MessageLength(t)
    case Ok(n) => Ok([Status(t, channel)] + seq(n - 1, _ => 0))
    case Throws(e) => Throws(e)
  }

  /** The status byte in arithmetic: the type's code plus the channel minus
      one, modulo 16. */
  lemma StatusNibbles(t: MidiMessageType, channel: byte)
    ensures Status(t, channel) == Code(t) + (channel - 1) % 16
    ensures channel == 1 ==> Status(t, channel) == Code(t)
    ensures channel == 0 ==> Status(t, channel) == Code(t) + 15
  {
    var h, c := Code(t), (channel - 1) % 256;
    StatusArith(h, channel);
    assert Status(t, channel) == BitOr(h, BitAnd(c, 0x0F)) % 256;
    LowNibble(channel);
  }

  /** The low nibble of channel 1 is 0, and channel 0 wraps to 15. */
  lemma LowNibble(channel: byte)
    ensures channel == 1 ==> (channel - 1) % 16 == 0
    ensures channel == 0 ==> (channel - 1) % 16 == 15
  {}

  /** The same for any high nibble `h`. */
  lemma StatusArith(h: byte, channel: byte)
    requires h % 16 == 0
    ensures BitOr(h, BitAnd((channel - 1) % 256, 0x0F)) % 256 == h + (channel - 1) % 16
  {
    var c := (channel - 1) % 256;
    MaskLow(c);
    OrLow(h, c % 16);
    NibbleSum(h, channel);
  }

  /** The sum stays a byte, and reducing modulo 256 first does not change
      the channel's value modulo 16. */
  lemma NibbleSum(h: byte, channel: byte)
    requires h % 16 == 0
    ensures (h + ((channel - 1) % 256) % 16) % 256 == h + (channel - 1) % 16
  {}

  /** Masking with 0x0F keeps the value modulo 16, one bit at a time. */
  lemma MaskLow(c: nat)
    ensures BitAnd(c, 0x0F) == c % 16
  {
    Mask7(c / 2);
    assert BitAnd(c, 15) == 2 * BitAnd(c / 2, 7) + c % 2;
    HalveMod16(c);
  }

  lemma Mask7(c: nat)
    ensures BitAnd(c, 7) == c % 8
  {
    Mask3(c / 2);
    assert BitAnd(c, 7) == 2 * BitAnd(c / 2, 3) + c % 2;
    HalveMod8(c);
  }

  lemma Mask3(c: nat)
    ensures BitAnd(c, 3) == c % 4
  {
    assert BitAnd(c / 2, 1) == (c / 2) % 2;
    assert BitAnd(c, 3) == 2 * BitAnd(c / 2, 1) + c % 2;
    HalveMod4(c);
  }

  lemma HalveMod16(c: nat)
    ensures c % 16 == 2 * ((c / 2) % 8) + c % 2
  {}

  lemma HalveMod8(c: nat)
    ensures c % 8 == 2 * ((c / 2) % 4) + c % 2
  {}

  lemma HalveMod4(c: nat)
    ensures c % 4 == 2 * ((c / 2) % 2) + c % 2
  {}

  /** A multiple of 16 or-ed with a nibble is their sum, one bit at a
      time. */
  lemma OrLow(h: nat, l: nat)
    requires h % 16 == 0 && l < 16
    ensures BitOr(h, l) == h + l
  {
    if h != 0 && l != 0 {
      Or8(h / 2, l / 2);
      assert BitOr(h, l) == 2 * BitOr(h / 2, l / 2) + l % 2;
    }
  }

  lemma Or8(h: nat, l: nat)
    requires h % 8 == 0 && l < 8
    ensures BitOr(h, l) == h + l
  {
    if h != 0 && l != 0 {
      Or4(h / 2, l / 2);
      assert BitOr(h, l) == 2 * BitOr(h / 2, l / 2) + l % 2;
    }
  }

  lemma Or4(h: nat, l: nat)
    requires h % 4 == 0 && l < 4
    ensures BitOr(h, l) == h + l
  {
    if h != 0 && l != 0 {
      assert BitOr(h / 2, l / 2) == h / 2 + l / 2;
      assert BitOr(h, l) == 2 * BitOr(h / 2, l / 2) + l % 2;
    }
  }

  /** The message type a status byte names. */
  function TypeOf(status: byte): (r: Result<MidiMessageType>)
  {
    var high := status / 16;
    if high == 0x8 then Ok(NoteOff)
    else if high == 0x9 then Ok(NoteOn)
    else if high == 0xA then Ok(PolyphonicAftertouch)
    else if high == 0xB then Ok(ControlModeChange)
    else if high == 0xC then Ok(ProgramChange)
    else if high == 0xD then Ok(ChannelAftertouch)
    else if high == 0xE then Ok(PitchWheelRange)
    else Throws(InvalidOperation)
  }

  /** The 1-based channel a status byte names. */
  function ChannelOf(status: byte): (c: nat)
    ensures 1 <= c <= 16
  {
    status % 16 + 1
  }

  /** Decoding a created status byte gives back the type and, for channels
      1 to 16, the channel; channel 0 wraps to channel 16. */
  lemma StatusRoundTrip(t: MidiMessageType, channel: byte)
    requires t != SystemExclusive
    ensures TypeOf(Status(t, channel)) == Ok(t)
    ensures 1 <= channel <= 16 ==> ChannelOf(Status(t, channel)) == channel
    ensures channel == 0 ==> ChannelOf(Status(t, channel)) == 16
  {
    StatusNibbles(t, channel);
    Decodes(t, channel, Status(t, channel));
  }

  /** The decoding, for any byte that is the type's code plus the channel
      minus one modulo 16. */
  lemma Decodes(t: MidiMessageType, channel: byte, st: byte)
    requires t != SystemExclusive && st == Code(t) + (channel - 1) % 16
    ensures TypeOf(st) == Ok(t)
    ensures 1 <= channel <= 16 ==> ChannelOf(st) == channel
    ensures channel == 0 ==> ChannelOf(st) == 16
  {
    var low := (channel - 1) % 16;
    SplitNibbles(Code(t), low);
    LowNibble(channel);
    if 1 <= channel <= 16 {
      assert low == channel - 1;
    }
  }

  /** A multiple of 16 plus a nibble splits back into the two. */
  lemma SplitNibbles(h: nat, low: nat)
    requires h % 16 == 0 && low < 16
    ensures (h + low) / 16 == h / 16 && (h + low) % 16 == low
  {}
}
