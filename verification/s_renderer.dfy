/** Renderers/LaunchpadSRenderer.cs: the note-message renderer of the S and
    the Mini. It keeps one light per index and, while dirty, sends one
    three-byte MIDI message per light on every Render; flashing lights
    alternate with a state ClockTick toggles every 24 ticks. */
module LaunchpadSRenderer {
  import opened Common
  import opened Scan
  import opened Lights
  import opened DeviceInfo
  import MidiMessages

  datatype Renderer = Renderer(
    indexToMidi: seq<byte>,
    midiToIndex: seq<byte>,
    lights: seq<Light>,
    invalidated: bool,
    flashTimer: int,
    flashState: bool)

  /** 256-entry lookups, no more lights than the lookup has indices, and a
      flash timer in [0, 24). */
  predicate Valid(s: Renderer)
  {
    |s.indexToMidi| == 256 && |s.midiToIndex| == 256 && |s.lights| <= 256 &&
    0 <= s.flashTimer < 24
  }

  // ---------------------------------------------------------------------
  // Construction: the LaunchpadSRenderer constructor

  /** A device information whose table the build can read whole: a full
      Width-by-Height table without repeated ids, LightCount counting its
      mapped cells. */
  ghost predicate Readable(info: Info)
  {
    IsTable(info.layout, info.height, info.width) && info.width * info.height < 256 &&
    DistinctIds(info.layout) && info.lightCount == TableCount(info.layout, info.height)
  }

  /** Every information FromType hands out is readable. */
  lemma FromTypeReadable(t: DeviceType)
    requires FromType(t).Ok?
    ensures Readable(FromType(t).value)
  {
    InfoTable(t);
    InfoCount(t);
  }

  /** The build reads a Width-by-Height window with fewer than 256 cells,
      and every light has an index the lookup can hold. */
  predicate Fits(info: Info)
  {
    Covers(info.layout, info.width, info.height) && info.width * info.height < 256 &&
    info.lightCount <= 256
  }

  lemma ReadableFits(info: Info)
    requires Readable(info)
    ensures Fits(info)
  {
    WindowCountTable(info.layout, info.width, info.height, info.height);
    ScanRowsCount(info.layout, info.width, info.height, info.height);
  }

  /** Every information FromType hands out fits. */
  lemma FromTypeFits(t: DeviceType)
    requires FromType(t).Ok?
    ensures Fits(FromType(t).value)
  {
    InfoShape(t);
    FromTypeLights(t);
  }

  /** The visiting order of the table. */
  function Cells(info: Info): (cells: seq<byte>)
    requires Covers(info.layout, info.width, info.height)
    ensures |cells| == info.width * info.height
  {
    Scan.Scan(info.layout, info.width, info.height)
  }

  /** The lookups are the contiguous-index build over the table. */
  ghost predicate Built(s: Renderer, info: Info)
    requires Fits(info)
  {
    var cells := Cells(info);
    |s.midiToIndex| == 256 && |s.indexToMidi| == 256 &&
    (forall m | 0 <= m < 256 :: s.midiToIndex[m] == LastMatch(cells, Ranks(cells), |cells|, m)) &&
    (forall k | 0 <= k < 256 :: s.indexToMidi[k] == LastMatch(Ranks(cells), cells, |cells|, k))
  }

  /** The constructor: FromType throws for the S itself; for every other
      type the lookups are built from its table and all lights start Off. */
  method Create(t: DeviceType) returns (r: Result<Renderer>)
    ensures r.Ok? <==> t != LaunchpadS
    ensures r.Throws? ==> r.error == ArgumentOutOfRange
    ensures r.Ok? ==> Fits(FromType(t).value)
    ensures r.Ok? ==>
              var s := r.value;
              Valid(s) && Built(s, FromType(t).value) && !s.invalidated && s.flashTimer == 0 && !s.flashState &&
              s.lights == seq(FromType(t).value.lightCount, _ => Dark)
  {
    if t == LaunchpadS {
      r := Throws(ArgumentOutOfRange);
    } else {
      FromTypeFits(t);
      var s := CreateFrom(FromType(t).value);
      r := Ok(s);
    }
  }

  /** The constructor past FromType. */
  method CreateFrom(info: Info) returns (s: Renderer)
    requires Fits(info)
    ensures Valid(s) && Built(s, info) && !s.invalidated && s.flashTimer == 0 && !s.flashState
    ensures s.lights == seq(info.lightCount, _ => Dark)
  {
    var lookups := Scan.Build(Cells(info));
    s := Renderer(lookups.indexToMidi, lookups.midiToIndex, seq(info.lightCount, _ => Dark), false, 0, false);
  }

  /** Each mapped id of the table gets an index below LightCount, and the
      index leads back to the id. */
  lemma LookupRoundTrip(s: Renderer, info: Info, j: nat)
    requires Readable(info) && Fits(info) && Built(s, info)
    requires j < info.width * info.height && Cells(info)[j] != Sentinel
    ensures s.midiToIndex[Cells(info)[j]] < info.lightCount
    ensures s.indexToMidi[s.midiToIndex[Cells(info)[j]]] == Cells(info)[j]
  {
    var cells := Cells(info);
    ScanKeysDistinct(info.layout, info.width, info.height);
    RanksDistinct(cells);
    PairedRoundTrip(cells, Ranks(cells), j);
    RanksBelowTable(info.layout, info.width, info.height, j);
  }

  // ---------------------------------------------------------------------
  // Connect-time messages: the Connected and Disconnecting handlers

  /** A blank channel-1 message of a given type, as Midi.CreateBuffer makes it. */
  function Blank(t: MidiMessages.MidiMessageType): (b: seq<byte>)
    requires t == MidiMessages.NoteOn || t == MidiMessages.NoteOff || t == MidiMessages.ControlModeChange
    ensures |b| == 3
  {
    MidiMessages.CreateBuffer(t, 1).value
  }

  /** The three blank buffers' bytes. */
  lemma Blanks()
    ensures Blank(MidiMessages.NoteOn) == [0x90, 0, 0]
    ensures Blank(MidiMessages.NoteOff) == [0x80, 0, 0]
    ensures Blank(MidiMessages.ControlModeChange) == [0xB0, 0, 0]
  {
    MidiMessages.StatusNibbles(MidiMessages.NoteOn, 1);
    MidiMessages.StatusNibbles(MidiMessages.NoteOff, 1);
    MidiMessages.StatusNibbles(MidiMessages.ControlModeChange, 1);
  }

  /** A control change on channel 1: controller and value. */
  function Control(controller: byte, value: byte): seq<byte>
  {
    Blank(MidiMessages.ControlModeChange)[1 := controller][2 := value]
  }

  lemma ControlBytes(controller: byte, value: byte)
    ensures Control(controller, value) == [0xB0, controller, value]
  {
    Blanks();
  }

  /** The messages the Connected handler sends, as written: the brightness
      bytes land in the layout buffer, so the layout message is the
      brightness command and the brightness buffer stays blank, which is the
      reset command, like the clear message. */
  function ConnectMessages(): seq<seq<byte>>
  {
    var layout := Control(0x00, 0x01);
    var layout' := layout[1 := 0x1F][2 := 0x00];
    var brightness := Blank(MidiMessages.ControlModeChange);
    var clear := Control(0x00, 0x00);
    [layout', brightness, clear]
  }

  /** The messages the handler evidently means: X-Y layout (`B0 00 01`),
      brightness (`B0 1F 00`), then clear (`B0 00 00`). */
  function ConnectMessagesCorrected(): seq<seq<byte>>
  {
    [Control(0x00, 0x01), Control(0x1F, 0x00), Control(0x00, 0x00)]
  }

  /** The Connected handler: its messages, then a repaint is due. */
  function OnConnected(s: Renderer): (r: (Renderer, seq<seq<byte>>))
    requires Valid(s)
    ensures r.0 == s.(invalidated := true) && Valid(r.0)
    ensures r.1 == ConnectMessages() && |r.1| == 3
  {
    (s.(invalidated := true), ConnectMessages())
  }

  /** The Disconnecting handler sends the clear message. */
  function OnDisconnecting(s: Renderer): (sent: seq<seq<byte>>)
    requires Valid(s)
    ensures sent == [Control(0x00, 0x00)]
  {
    [Control(0x00, 0x00)]
  }

  /** As written the X-Y layout command is never sent: the first message is
      the brightness command and the other two are both the reset command. */
  lemma ConnectNeverSelectsLayout()
    ensures ConnectMessages() == [[0xB0, 0x1F, 0x00], [0xB0, 0x00, 0x00], [0xB0, 0x00, 0x00]]
    ensures forall k | 0 <= k < 3 :: ConnectMessages()[k] != [0xB0, 0x00, 0x01]
  {
    Blanks();
    ControlBytes(0x00, 0x01);
    ControlBytes(0x00, 0x00);
    assert [0xB0, 0x00, 0x01][1 := 0x1F][2 := 0x00] == [0xB0, 0x1F, 0x00];
  }

  /** Corrected, the handler selects the layout, sets the brightness and
      clears, each as a channel-1 control change. */
  lemma ConnectCorrectedSelectsLayout()
    ensures ConnectMessagesCorrected() == [[0xB0, 0x00, 0x01], [0xB0, 0x1F, 0x00], [0xB0, 0x00, 0x00]]
    ensures forall k | 0 <= k < 3 ::
              MidiMessages.TypeOf(ConnectMessagesCorrected()[k][0]) == Ok(MidiMessages.ControlModeChange) &&
              MidiMessages.ChannelOf(ConnectMessagesCorrected()[k][0]) == 1
  {
    ControlBytes(0x00, 0x01);
    ControlBytes(0x1F, 0x00);
    ControlBytes(0x00, 0x00);
  }

  // ---------------------------------------------------------------------
  // Clear and the setters

  /** `Clear`: every light Off; dirty when some light was not Off. */
  method Clear(s: Renderer) returns (r: Renderer)
    requires Valid(s)
    ensures Valid(r) && r.lights == seq(|s.lights|, _ => Dark)
    ensures r == s.(lights := r.lights, invalidated := r.invalidated)
    ensures r.invalidated <==> s.invalidated || exists i | 0 <= i < |s.lights| :: s.lights[i].mode != Off
  {
    var lights, anyLit := ClearAll(s.lights);
    r := s.(lights := lights, invalidated := s.invalidated || anyLit);
  }

  /** The four setters of this renderer (it has no RGB one): an unmapped id
      or a pulse colour above 128 changes nothing, an index past the lights
      throws, an equal light changes nothing, otherwise the light is stored
      and a repaint is due. */
  function Apply(s: Renderer, midi: byte, op: SetterOp): (r: Result<Renderer>)
    requires Valid(s) && !op.SetRgb?
    ensures r.Throws? <==> !Dropped(s.midiToIndex[midi], op) && s.midiToIndex[midi] >= |s.lights|
    ensures r.Throws? ==> r.error == IndexOutOfRange
    ensures r.Ok? ==> Valid(r.value) && r.value == s.(lights := r.value.lights, invalidated := r.value.invalidated)
    ensures r.Ok? && r.value != s ==>
              s.midiToIndex[midi] < |s.lights| && r.value.invalidated &&
              r.value.lights == s.lights[s.midiToIndex[midi] := Target(op)]
  {
    match Update(s.lights, s.midiToIndex[midi], op)
    case Throws(e) => Throws(e)
    case Ok((lights, stored)) => if stored then Ok(s.(lights := lights, invalidated := true)) else Ok(s)
  }

  /** `Set(midiId, Light)`: the setter for the light's mode; an RGB light
      matches no case and is ignored. */
  function SetLight(s: Renderer, midi: byte, l: Light): (r: Result<Renderer>)
    requires Valid(s)
    ensures l.mode == Rgb ==> r == Ok(s)
    ensures l.mode != Rgb ==> r == Apply(s, midi, OpFor(l))
  {
    if l.mode == Rgb then Ok(s) else Apply(s, midi, OpFor(l))
  }

  /** A repeated request changes nothing the second time. */
  lemma SetterIdempotent(s: Renderer, midi: byte, op: SetterOp)
    requires Valid(s) && !op.SetRgb? && Apply(s, midi, op).Ok?
    ensures Apply(Apply(s, midi, op).value, midi, op) == Apply(s, midi, op)
  {
    UpdateIdempotent(s.lights, s.midiToIndex[midi], op);
  }

  /** No light this renderer stores is ever an RGB light. */
  lemma SettersKeepRgbOut(s: Renderer, midi: byte, l: Light)
    requires Valid(s) && SetLight(s, midi, l).Ok?
    requires forall i | 0 <= i < |s.lights| :: s.lights[i].mode != Rgb
    ensures forall i | 0 <= i < |s.lights| :: SetLight(s, midi, l).value.lights[i].mode != Rgb
  {
    if l.mode != Rgb {
      TargetShows(OpFor(l));
    }
  }

  // ---------------------------------------------------------------------
  // The flash clock: ClockTick

  /** `ClockTick`: the timer counts to 24, then wraps and the flash state
      flips. */
  function ClockTick(s: Renderer): (r: Renderer)
    requires Valid(s)
    ensures Valid(r) && r == s.(flashTimer := r.flashTimer, flashState := r.flashState)
  {
    if s.flashTimer + 1 >= 24 then s.(flashState := !s.flashState, flashTimer := 0)
    else s.(flashTimer := s.flashTimer + 1)
  }

  function Ticks(s: Renderer, n: nat): (r: Renderer)
    requires Valid(s)
    ensures Valid(r)
  {
    if n == 0 then s else ClockTick(Ticks(s, n - 1))
  }

  /** After `n` ticks the timer is the count so far modulo 24 and the flash
      state has flipped once per 24 ticks; nothing else changes. */
  lemma {:induction false} TicksPeriod(s: Renderer, n: nat)
    requires Valid(s)
    ensures Ticks(s, n).flashTimer == (s.flashTimer + n) % 24
    ensures Ticks(s, n).flashState == if ((s.flashTimer + n) / 24) % 2 == 0 then s.flashState else !s.flashState
    ensures Ticks(s, n) == s.(flashTimer := Ticks(s, n).flashTimer, flashState := Ticks(s, n).flashState)
  {
    if n > 0 {
      TicksPeriod(s, n - 1);
      var a := s.flashTimer + n - 1;
      TickArith(a);
      assert Ticks(s, n) == ClockTick(Ticks(s, n - 1));
    }
  }

  /** One more tick on a running count: the remainder wraps at 24 exactly
      when the quotient steps. */
  lemma TickArith(a: nat)
    ensures a % 24 + 1 >= 24 ==> (a + 1) % 24 == 0 && ((a + 1) / 24) % 2 != (a / 24) % 2
    ensures a % 24 + 1 < 24 ==> (a + 1) % 24 == a % 24 + 1 && ((a + 1) / 24) % 2 == (a / 24) % 2
  {
    if a % 24 + 1 >= 24 {
      assert (a + 1) / 24 == a / 24 + 1;
    } else {
      assert (a + 1) / 24 == a / 24;
    }
  }

  // ---------------------------------------------------------------------
  // Render

  /** The top row carries ids 204..211, 100 above the controller numbers
      104..111 it is addressed by. */
  predicate IsTop(midi: byte)
  {
    204 <= midi <= 211
  }

  /** The colour a light shows in the current flash phase. */
  function Shown(l: Light, flashState: bool): byte
  {
    if l.mode == Flash && flashState then l.flashColor else l.color
  }

  /** The message one light sends: top-row lights as control changes on
      their controller number, the rest as notes; an Off light as note off
      (velocity 0) or controller value `0C`; Normal and Pulse lights with
      their colour, Flash lights with the colour of the current phase. An
      RGB light matches no case and sends nothing. */
  function LightMessages(midi: byte, l: Light, flashState: bool): (sent: seq<seq<byte>>)
    ensures |sent| == if l.mode == Rgb then 0 else 1
  {
    match l.mode
    case Rgb => []
    case Off =>
      if IsTop(midi) then [Control(midi - 100, 0x0C)]
      else [Blank(MidiMessages.NoteOff)[1 := midi]]
    case _ =>
      if IsTop(midi) then [Control(midi - 100, Shown(l, flashState))]
      else [Blank(MidiMessages.NoteOn)[1 := midi][2 := Shown(l, flashState)]]
  }

  /** The messages of the first `n` lights, in index order. */
  function Frame(lights: seq<Light>, midis: seq<byte>, flashState: bool, n: nat): seq<seq<byte>>
    requires n <= |lights| <= |midis|
  {
    if n == 0 then [] else Frame(lights, midis, flashState, n - 1) + LightMessages(midis[n - 1], lights[n - 1], flashState)
  }

  /** The render loop: every light in index order. */
  method RenderFrame(lights: seq<Light>, midis: seq<byte>, flashState: bool) returns (sent: seq<seq<byte>>)
    requires |lights| <= |midis|
    ensures sent == Frame(lights, midis, flashState, |lights|)
  {
    sent := [];
    var i := 0;
    while i < |lights|
      invariant 0 <= i <= |lights|
      invariant sent == Frame(lights, midis, flashState, i)
    {
      sent := sent + LightMessages(midis[i], lights[i], flashState);
      i := i + 1;
    }
  }

  /** `Render`: nothing unless dirty; otherwise the whole frame. The flag
      is never cleared, so every later Render sends the frame again. */
  function Render(s: Renderer): (r: (Renderer, seq<seq<byte>>))
    requires Valid(s)
    ensures r.0 == s
    ensures !s.invalidated ==> r.1 == []
  {
    if !s.invalidated then (s, []) else (s, Frame(s.lights, s.indexToMidi, s.flashState, |s.lights|))
  }

  /** Once dirty, the renderer repaints every light on every Render. */
  lemma RenderRepeats(s: Renderer)
    requires Valid(s) && s.invalidated
    ensures Render(Render(s).0) == Render(s)
    ensures Render(s).1 == Frame(s.lights, s.indexToMidi, s.flashState, |s.lights|)
  {}

  /** Reading a note or top-row message back: the light's id and the
      velocity or controller value. */
  function Decode(msg: seq<byte>): (r: Result<(byte, byte)>)
  {
    if |msg| != 3 then Throws(InvalidOperation)
    else if msg[0] == 0x90 || msg[0] == 0x80 then Ok((msg[1], msg[2]))
    else if msg[0] == 0xB0 && 104 <= msg[1] <= 111 then Ok((msg[1] + 100, msg[2]))
    else Throws(InvalidOperation)
  }

  /** The value an Off light is sent with. */
  function OffValue(midi: byte): byte
  {
    if IsTop(midi) then 0x0C else 0
  }

  /** Each light's message decodes to its own id and the value it shows;
      the status byte is note off exactly for an Off light below the top
      row. */
  lemma LightMessageDecodes(midi: byte, l: Light, flashState: bool)
    requires l.mode != Rgb
    ensures Decode(LightMessages(midi, l, flashState)[0]) ==
              Ok((midi, if l.mode == Off then OffValue(midi) else Shown(l, flashState)))
    ensures LightMessages(midi, l, flashState)[0][0] == 0x80 <==> l.mode == Off && !IsTop(midi)
    ensures LightMessages(midi, l, flashState)[0][0] == 0xB0 <==> IsTop(midi)
  {
    Blanks();
  }

  /** With no RGB light, the frame is one message per light in index order,
      message i being light i's. */
  lemma {:induction false} FramePerLight(lights: seq<Light>, midis: seq<byte>, flashState: bool, n: nat)
    requires n <= |lights| <= |midis|
    requires forall i | 0 <= i < n :: lights[i].mode != Rgb
    ensures |Frame(lights, midis, flashState, n)| == n
    ensures forall i | 0 <= i < n :: Frame(lights, midis, flashState, n)[i] == LightMessages(midis[i], lights[i], flashState)[0]
  {
    if n > 0 {
      FramePerLight(lights, midis, flashState, n - 1);
    }
  }

  /** A Flash light alternates between its two colours with the flash state,
      other lights show their colour in both phases. */
  lemma FlashAlternates(midi: byte, l: Light)
    requires l.mode != Rgb && l.mode != Off
    ensures Decode(LightMessages(midi, l, false)[0]) == Ok((midi, l.color))
    ensures Decode(LightMessages(midi, l, true)[0]) == Ok((midi, if l.mode == Flash then l.flashColor else l.color))
  {
    LightMessageDecodes(midi, l, false);
    LightMessageDecodes(midi, l, true);
  }
}
