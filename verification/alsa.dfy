/** Engines/Alsa/AlsaMidiDevice.cs: the input side of the ALSA device. One
    Update reads the raw MIDI input and turns every channel-1 Note On or
    Control Change message into a button event. The native read is an
    input: its count and the read buffer's contents afterwards. The buffer
    keeps whatever earlier reads left past the count. The handle teardown
    in DisconnectInternal is Lifecycle.AlsaDisconnectInternal. */
module Alsa {
  import opened Common
  import opened MidiMessages
  import Lifecycle

  /** One `snd_rawmidi_read`: the count it returned (negative for an
      error) and the read buffer afterwards. */
  datatype Read = Read(count: int, buffer: seq<byte>)

  /** `-ENODEV`: the device has gone away. */
  const NoDevice: int := -19

  /** The events Update raises, with the message type they came from. */
  datatype Input = ButtonDown(kind: MidiMessageType, midiId: byte) | ButtonUp(kind: MidiMessageType, midiId: byte)

  /** The status bytes the parser acts on: Note On and Control Change on
      channel 1. */
  predicate IsKeyStatus(b: byte)
  {
    b == Code(NoteOn) || b == Code(ControlModeChange)
  }

  /** What a parse produced: the events raised, in order, and whether it
      then stopped with IndexOutOfRange by reading past the buffer. */
  datatype Parsed = Parsed(events: seq<Input>, overrun: bool)

  /** The event for a status byte and its two data bytes: a press when the
      velocity is not 0, a release otherwise. */
  function EventOf(status: byte, midiId: byte, velocity: byte): (ev: Input)
    requires IsKeyStatus(status)
    ensures ev.ButtonDown? <==> velocity != 0
    ensures ev.midiId == midiId && Code(ev.kind) == status
  {
    var kind := if status == Code(NoteOn) then NoteOn else ControlModeChange;
    if velocity != 0 then ButtonDown(kind, midiId) else ButtonUp(kind, midiId)
  }

  /** The parse loop of `Update` from `pos`: a key status consumes the
      next two bytes, wherever they lie (past `bytes` they are stale); any
      other byte is skipped alone. A read past the buffer ends the parse. */
  function Parse(buf: seq<byte>, bytes: int, pos: nat): (p: Parsed)
    decreases bytes - pos
  {
    if pos >= bytes then Parsed([], false)
    else if pos >= |buf| then Parsed([], true)
    else if IsKeyStatus(buf[pos]) then
      if pos + 2 >= |buf| then Parsed([], true)
      else
        var rest := Parse(buf, bytes, pos + 3);
        Parsed([EventOf(buf[pos], buf[pos + 1], buf[pos + 2])] + rest.events, rest.overrun)
    else Parse(buf, bytes, pos + 1)
  }

  /** A three-byte key message. */
  datatype KeyMessage = KeyMessage(kind: MidiMessageType, midiId: byte, velocity: byte)

  predicate IsKeyMessage(m: KeyMessage)
  {
    (m.kind == NoteOn || m.kind == ControlModeChange) && m.midiId < 0x80 && m.velocity < 0x80
  }

  /** Key messages as the device sends them: status, id, velocity. */
  function Encode(ms: seq<KeyMessage>): (b: seq<byte>)
    ensures |b| == 3 * |ms|
  {
    if ms == [] then [] else [Code(ms[0].kind), ms[0].midiId, ms[0].velocity] + Encode(ms[1..])
  }

  /** The events the messages stand for. */
  function Events(ms: seq<KeyMessage>): (evs: seq<Input>)
    requires forall k | 0 <= k < |ms| :: IsKeyMessage(ms[k])
    ensures |evs| == |ms|
  {
    if ms == [] then []
    else
      assert IsKeyMessage(ms[0]);
      [EventOf(Code(ms[0].kind), ms[0].midiId, ms[0].velocity)] + Events(ms[1..])
  }

  /** A read holding whole key messages is parsed into their events, in
      order, and nothing else: stale bytes past the count are never read. */
  lemma {:induction false} ParseEncode(buf: seq<byte>, pos: nat, ms: seq<KeyMessage>)
    requires forall k | 0 <= k < |ms| :: IsKeyMessage(ms[k])
    requires pos + 3 * |ms| <= |buf| && buf[pos..pos + 3 * |ms|] == Encode(ms)
    ensures Parse(buf, pos + 3 * |ms|, pos) == Parsed(Events(ms), false)
    decreases |ms|
  {
    if ms != [] {
      var e := Encode(ms);
      assert e[..3] == [Code(ms[0].kind), ms[0].midiId, ms[0].velocity] && e[3..] == Encode(ms[1..]);
      assert buf[pos] == e[0] && buf[pos + 1] == e[1] && buf[pos + 2] == e[2];
      assert buf[pos + 3..pos + 3 + 3 * |ms[1..]|] == e[3..];
      assert forall k | 0 <= k < |ms[1..]| :: IsKeyMessage(ms[1..][k]) by {
        forall k | 0 <= k < |ms[1..]| ensures IsKeyMessage(ms[1..][k]) {
          assert ms[1..][k] == ms[k + 1];
        }
      }
      ParseEncode(buf, pos + 3, ms[1..]);
    }
  }

  /** Bytes that are not key statuses are skipped one at a time. */
  lemma {:induction false} SkipOthers(buf: seq<byte>, bytes: int, pos: nat, n: nat)
    requires pos + n <= bytes && pos + n <= |buf|
    requires forall k | pos <= k < pos + n :: !IsKeyStatus(buf[k])
    ensures Parse(buf, bytes, pos) == Parse(buf, bytes, pos + n)
    decreases n
  {
    if n > 0 {
      SkipOthers(buf, bytes, pos + 1, n - 1);
    }
  }

  /** Statuses for other channels or other message types, such as `91`,
      `80` or `B1`, are skipped like data. */
  lemma OtherChannelsSkipped(t: MidiMessageType, channel: byte)
    ensures IsKeyStatus(Status(t, channel)) <==> (t == NoteOn || t == ControlModeChange) && (channel - 1) % 16 == 0
  {
    StatusNibbles(t, channel);
  }

  /** A status byte in one of the last two counted positions takes its
      data from beyond the count: the event is built from what an earlier
      read left in the buffer. */
  lemma TailStatusReadsStale(buf: seq<byte>, bytes: int)
    requires 1 <= bytes && bytes + 1 < |buf| && IsKeyStatus(buf[bytes - 1])
    ensures Parse(buf, bytes, bytes - 1) == Parsed([EventOf(buf[bytes - 1], buf[bytes], buf[bytes + 1])], false)
  {}

  /** An error count other than -19 raises nothing. */
  lemma NegativeCountSilent(buf: seq<byte>, bytes: int)
    requires bytes <= 0
    ensures Parse(buf, bytes, 0) == Parsed([], false)
  {}

  /** What Update leaves: the connection state, the connection trace of a
      reconnect, and the parse. */
  datatype Outcome = Outcome(conn: Lifecycle.Device, trace: seq<Lifecycle.Event>, parsed: Parsed)

  /** `Update`: on `-19` the device reconnects with
      `Connect(false)` and reads again; Connect always answers true, so the
      early return never happens and the second read is parsed whether or
      not ConnectInternal (`connectOk`) succeeded. Any other read is parsed
      as it is. */
  function Update(d: Lifecycle.Device, first: Read, connectOk: bool, second: Read): (o: Outcome)
    ensures first.count != NoDevice ==> o == Outcome(d, [], Parse(first.buffer, first.count, 0))
    ensures first.count == NoDevice ==>
              o.parsed == Parse(second.buffer, second.count, 0) &&
              o.conn.isConnected == connectOk &&
              Lifecycle.Connecting in o.trace && (Lifecycle.Connected in o.trace <==> connectOk)
  {
    if first.count == NoDevice then
      var c := Lifecycle.Connect(d, false, connectOk);
      assert c.trace[|c.trace| - (if connectOk then 3 else 2)] == Lifecycle.Connecting;
      Outcome(c.device, c.trace, Parse(second.buffer, second.count, 0))
    else Outcome(d, [], Parse(first.buffer, first.count, 0))
  }

  /** The reconnect's disconnect is an abnormal one: its DisconnectInternal
      leaves the old handles open. */
  lemma ReconnectKeepsHandles(d: Lifecycle.Device, first: Read, connectOk: bool, second: Read, h: Lifecycle.AlsaHandles)
    requires first.count == NoDevice
    ensures forall ev | ev in Update(d, first, connectOk, second).trace && ev.DisconnectInternal? ::
              !ev.isNormal && Lifecycle.AlsaDisconnectInternal(h, ev.isNormal) == h
  {
    assert Update(d, first, connectOk, second).trace == Lifecycle.Connect(d, false, connectOk).trace;
    Lifecycle.ConnectDisconnectsAs(d, false, connectOk);
  }
}
