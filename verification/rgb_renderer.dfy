/** Renderers/LaunchpadRGBRenderer.cs: the palette / RGB renderer of the Mk2
    and the Pro. It keeps a light array and a dirty flag; Render sorts every
    light into SysEx batches by mode and sends the non-empty ones. */
module RgbRenderer {
  import opened Common
  import opened Scan
  import opened Lights
  import opened DeviceInfo
  import SysExEnvelope
  import Devices

  datatype Renderer = Renderer(
    deviceType: DeviceType,
    indexToMidi: seq<byte>,
    midiToIndex: seq<byte>,
    lights: seq<Light>,
    oldLights: seq<Light>,
    invalidated: bool)

  /** The shape the constructor leaves: 256-entry lookups, two light arrays
      of one length, and a type SysEx.CreateBuffer accepts. */
  predicate Valid(s: Renderer)
  {
    |s.indexToMidi| == 256 && |s.midiToIndex| == 256 &&
    |s.lights| == |s.oldLights| <= 256 &&
    (s.deviceType == LaunchpadMk2 || s.deviceType == LaunchpadPro)
  }

  // ---------------------------------------------------------------------
  // Construction: the LaunchpadRGBRenderer constructor

  /** The constructor's lookup loop over the two tables' visiting orders:
      a cell is recorded only when both its midi id and its index are
      mapped, and a later cell overwrites an earlier one. */
  method BuildPaired(midiCells: seq<byte>, indexCells: seq<byte>) returns (indexToMidi: seq<byte>, midiToIndex: seq<byte>)
    requires |midiCells| == |indexCells|
    ensures |indexToMidi| == 256 && |midiToIndex| == 256
    ensures forall m | 0 <= m < 256 :: midiToIndex[m] == LastMatch(midiCells, indexCells, |midiCells|, m)
    ensures forall k | 0 <= k < 256 :: indexToMidi[k] == LastMatch(indexCells, midiCells, |midiCells|, k)
  {
    indexToMidi := seq(256, _ => Sentinel);
    midiToIndex := seq(256, _ => Sentinel);
    var k := 0;
    while k < |midiCells|
      invariant 0 <= k <= |midiCells|
      invariant |indexToMidi| == 256 && |midiToIndex| == 256
      invariant forall m | 0 <= m < 256 :: midiToIndex[m] == LastMatch(midiCells, indexCells, k, m)
      invariant forall j | 0 <= j < 256 :: indexToMidi[j] == LastMatch(indexCells, midiCells, k, j)
    {
      var midi := midiCells[k];
      var index := indexCells[k];
      if midi != Sentinel && index != Sentinel {
        indexToMidi := indexToMidi[index := midi];
        midiToIndex := midiToIndex[midi := index];
      }
      k := k + 1;
    }
  }

  /** The lookups are the paired build over the two tables. */
  ghost predicate LooksUp(s: Renderer, midiCells: seq<byte>, indexCells: seq<byte>)
    requires |midiCells| == |indexCells|
  {
    |s.midiToIndex| == 256 && |s.indexToMidi| == 256 &&
    (forall m | 0 <= m < 256 :: s.midiToIndex[m] == LastMatch(midiCells, indexCells, |midiCells|, m)) &&
    (forall k | 0 <= k < 256 :: s.indexToMidi[k] == LastMatch(indexCells, midiCells, |midiCells|, k))
  }

  /** The three connect-time envelopes: standalone mode (`21 01`),
      programmer layout (`2C 03`) and all lights off (`0E 00`). */
  function ModeMsg(t: DeviceType): seq<byte>
    requires t == LaunchpadMk2 || t == LaunchpadPro
  {
    SysExEnvelope.CreateBuffer(t, [0x21, 0x01], -1).value
  }

  function LayoutMsg(t: DeviceType): seq<byte>
    requires t == LaunchpadMk2 || t == LaunchpadPro
  {
    SysExEnvelope.CreateBuffer(t, [0x2C, 0x03], -1).value
  }

  function ClearMsg(t: DeviceType): seq<byte>
    requires t == LaunchpadMk2 || t == LaunchpadPro
  {
    SysExEnvelope.CreateBuffer(t, [0x0E, 0x00], -1).value
  }

  /** The constructor. `midiLayout` and `indexLayout` stand for the
      device information's MidiLayout and IndexLayout, which DeviceInfo.cs
      as modelled does not carry; Width, Height and LightCount come from
      `FromType`. The S throws in FromType, the Mini in SysEx.CreateBuffer. */
  method Create(t: DeviceType, midiLayout: Grid, indexLayout: Grid) returns (r: Result<Renderer>)
    requires FromType(t).Ok? ==>
               Covers(midiLayout, FromType(t).value.width, FromType(t).value.height) &&
               Covers(indexLayout, FromType(t).value.width, FromType(t).value.height)
    ensures r.Ok? <==> t == LaunchpadMk2 || t == LaunchpadPro
    ensures t == LaunchpadS ==> r == Throws(ArgumentOutOfRange)
    ensures t == LaunchpadMini ==> r == Throws(InvalidOperation)
    ensures r.Ok? ==>
              var info := FromType(t).value;
              var s := r.value;
              Valid(s) && s.deviceType == t && !s.invalidated &&
              |s.lights| == info.lightCount && (forall i | 0 <= i < |s.lights| :: s.lights[i] == Dark) &&
              LooksUp(s, Scan.Scan(midiLayout, info.width, info.height), Scan.Scan(indexLayout, info.width, info.height))
  {
    match FromType(t)
    case Throws(e) =>
      r := Throws(e);
    case Ok(info) =>
      if t != LaunchpadMk2 && t != LaunchpadPro {
        r := Throws(InvalidOperation);
      } else {
        FromTypeLights(t);
        var s := Build(t, info, midiLayout, indexLayout);
        r := Ok(s);
      }
  }

  /** The constructor's work once the information is known: the paired
      lookups over the two tables and an all-dark light array. */
  method Build(t: DeviceType, info: Info, midiLayout: Grid, indexLayout: Grid) returns (s: Renderer)
    requires t == LaunchpadMk2 || t == LaunchpadPro
    requires info.lightCount <= 256
    requires Covers(midiLayout, info.width, info.height) && Covers(indexLayout, info.width, info.height)
    ensures Valid(s) && s.deviceType == t && !s.invalidated
    ensures |s.lights| == info.lightCount && forall i | 0 <= i < |s.lights| :: s.lights[i] == Dark
    ensures LooksUp(s, Scan.Scan(midiLayout, info.width, info.height), Scan.Scan(indexLayout, info.width, info.height))
  {
    var midiCells := Scan.Scan(midiLayout, info.width, info.height);
    var indexCells := Scan.Scan(indexLayout, info.width, info.height);
    var itm, mti := BuildPaired(midiCells, indexCells);
    var dark := seq(info.lightCount, _ => Dark);
    s := Renderer(t, itm, mti, dark, dark, false);
  }

  /** The Connected handler: mode, layout and clear envelopes, then a full
      repaint is due. */
  function OnConnected(s: Renderer): (r: (Renderer, seq<seq<byte>>))
    requires Valid(s)
    ensures r.0 == s.(invalidated := true)
    ensures |r.1| == 3
    ensures SysExEnvelope.Open(r.1[0]) == Ok((s.deviceType, [0x21, 0x01]))
    ensures SysExEnvelope.Open(r.1[1]) == Ok((s.deviceType, [0x2C, 0x03]))
    ensures SysExEnvelope.Open(r.1[2]) == Ok((s.deviceType, [0x0E, 0x00]))
  {
    SysExEnvelope.OpenCreate(s.deviceType, [0x21, 0x01], -1);
    SysExEnvelope.OpenCreate(s.deviceType, [0x2C, 0x03], -1);
    SysExEnvelope.OpenCreate(s.deviceType, [0x0E, 0x00], -1);
    (s.(invalidated := true), [ModeMsg(s.deviceType), LayoutMsg(s.deviceType), ClearMsg(s.deviceType)])
  }

  /** The Disconnecting handler: the clear envelope only. */
  function OnDisconnecting(s: Renderer): (sent: seq<seq<byte>>)
    requires Valid(s)
    ensures |sent| == 1 && SysExEnvelope.Open(sent[0]) == Ok((s.deviceType, [0x0E, 0x00]))
  {
    SysExEnvelope.OpenCreate(s.deviceType, [0x0E, 0x00], -1);
    [ClearMsg(s.deviceType)]
  }

  // ---------------------------------------------------------------------
  // Clear and the setters, the RGB one included

  /** `Clear`: every light Off; dirty exactly when some light was not Off. */
  method Clear(s: Renderer) returns (r: Renderer)
    requires Valid(s)
    ensures Valid(r) && r.lights == seq(|s.lights|, _ => Dark)
    ensures r == s.(lights := r.lights, invalidated := r.invalidated)
    ensures r.invalidated <==> s.invalidated || exists i | 0 <= i < |s.lights| :: s.lights[i].mode != Off
  {
    var lights, anyLit := ClearAll(s.lights);
    r := s.(lights := lights, invalidated := s.invalidated || anyLit);
  }

  /** Every setter: look up the id's index; unmapped ids (and, for
      SetPulse, colours above 128) change nothing; an index past the light
      array throws; a light already showing the request changes nothing;
      otherwise the light is replaced and a repaint is due. The RGB setter
      as written has no unmapped test (its guard `index > byte.MaxValue`
      never holds), so for it the sentinel index itself is written to. */
  function Apply(s: Renderer, midi: byte, op: SetterOp): (r: Result<Renderer>)
    requires Valid(s)
    ensures var index := s.midiToIndex[midi];
            var skipped := (index == Sentinel && !op.SetRgb?) || Rejected(op);
            r.Throws? <==> !skipped && index >= |s.lights|
    ensures r.Throws? ==> r.error == IndexOutOfRange
    ensures r.Ok? ==> Valid(r.value) && r.value == s.(lights := r.value.lights, invalidated := r.value.invalidated)
    ensures r.Ok? ==> |r.value.lights| == |s.lights|
    ensures r.Ok? ==> forall i | 0 <= i < |s.lights| && i != s.midiToIndex[midi] :: r.value.lights[i] == s.lights[i]
    ensures r.Ok? && r.value != s ==>
              s.midiToIndex[midi] < |s.lights| && r.value.lights[s.midiToIndex[midi]] == Target(op) && r.value.invalidated
    ensures r.Ok? && s.midiToIndex[midi] < |s.lights| && !Rejected(op) && (s.midiToIndex[midi] != Sentinel || op.SetRgb?) ==>
              Shows(s.lights[s.midiToIndex[midi]], op) || r.value.lights[s.midiToIndex[midi]] == Target(op)
  {
    match Update(s.lights, s.midiToIndex[midi], op)
    case Throws(e) => Throws(e)
    case Ok((lights, stored)) => if stored then Ok(s.(lights := lights, invalidated := true)) else Ok(s)
  }

  /** `Set(midiId, Light)`: the setter for the light's mode. */
  function SetLight(s: Renderer, midi: byte, l: Light): (r: Result<Renderer>)
    requires Valid(s)
    ensures r == Apply(s, midi, OpFor(l))
    ensures r.Ok? && r.value != s ==> r.value.lights[s.midiToIndex[midi]].mode == l.mode
  {
    Apply(s, midi, OpFor(l))
  }

  /** The RGB setter with the unmapped test the other setters have. */
  function SetRgbCorrected(s: Renderer, midi: byte, red: byte, green: byte, blue: byte): (r: Result<Renderer>)
    requires Valid(s)
    ensures s.midiToIndex[midi] == Sentinel ==> r == Ok(s)
    ensures s.midiToIndex[midi] != Sentinel ==> r == Apply(s, midi, SetRgb(red, green, blue))
  {
    if s.midiToIndex[midi] == Sentinel then Ok(s) else Apply(s, midi, SetRgb(red, green, blue))
  }

  /** The RGB setter as written throws on every unmapped id, where the
      corrected one leaves the renderer alone. */
  lemma SetRgbUnmappedThrows(s: Renderer, midi: byte, red: byte, green: byte, blue: byte)
    requires Valid(s) && s.midiToIndex[midi] == Sentinel && |s.lights| <= 255
    ensures Apply(s, midi, SetRgb(red, green, blue)) == Throws(IndexOutOfRange)
    ensures SetRgbCorrected(s, midi, red, green, blue) == Ok(s)
  {}

  /** Every setter but the RGB one is idempotent, and its second call never
      marks the renderer dirty: repeated requests are elided. */
  lemma SetterIdempotent(s: Renderer, midi: byte, op: SetterOp)
    requires Valid(s) && !op.SetRgb? && Apply(s, midi, op).Ok?
    ensures Apply(Apply(s, midi, op).value, midi, op) == Apply(s, midi, op)
  {
    UpdateIdempotent(s.lights, s.midiToIndex[midi], op);
  }

  /** The RGB setter always stores and always marks the renderer dirty. */
  lemma SetRgbNeverElided(s: Renderer, midi: byte, red: byte, green: byte, blue: byte)
    requires Valid(s) && s.midiToIndex[midi] < |s.lights|
    ensures Apply(s, midi, SetRgb(red, green, blue)).Ok?
    ensures Apply(s, midi, SetRgb(red, green, blue)).value.invalidated
    ensures Apply(s, midi, SetRgb(red, green, blue)).value.lights[s.midiToIndex[midi]] == RgbLight(red, green, blue)
  {}

  // ---------------------------------------------------------------------
  // Render

  /** The six batches, each starting with its command byte. */
  datatype Batches = Batches(
    off: seq<byte>, normal: seq<byte>, rgb1: seq<byte>, rgb2: seq<byte>, pulse: seq<byte>, flash: seq<byte>)

  /** Which batch a contribution goes to (both RGB batches share one). */
  datatype Part = OffPart | NormalPart | RgbPart | PulsePart | FlashPart

  /** What one light adds to each batch: Off lights `(midi, 0)`, Normal and
      Flash lights `(midi, color)` to the normal batch, RGB lights
      `(midi, r, g, b)`, Pulse lights `(midi, color)`, and Flash lights also
      `(midi, flashColor)` to the flash batch. */
  function PartOf(p: Part, l: Light, midi: byte): seq<byte>
  {
    match p
    case OffPart => if l.mode == Off then [midi, 0] else []
    case NormalPart => if l.mode == Normal || l.mode == Flash then [midi, l.color] else []
    case RgbPart => if l.mode == Rgb then [midi, l.red, l.green, l.blue] else []
    case PulsePart => if l.mode == Pulse then [midi, l.color] else []
    case FlashPart => if l.mode == Flash then [midi, l.flashColor] else []
  }

  /** The contributions of the first `n` lights, in index order. */
  function Collect(p: Part, lights: seq<Light>, midis: seq<byte>, n: nat): seq<byte>
    requires n <= |lights| <= |midis|
  {
    if n == 0 then [] else Collect(p, lights, midis, n - 1) + PartOf(p, lights[n - 1], midis[n - 1])
  }

  /** Where the RGB contributions are cut: at most 160 bytes, 40 lights, go
      to the first RGB batch. */
  function Cut(rgb: seq<byte>): nat
  {
    if |rgb| < 160 then |rgb| else 160
  }

  /** The batches after the first `n` lights. */
  function Expected(lights: seq<Light>, midis: seq<byte>, n: nat): Batches
    requires n <= |lights| <= |midis|
  {
    var rgb := Collect(RgbPart, lights, midis, n);
    Batches(
      [0x0A] + Collect(OffPart, lights, midis, n),
      [0x0A] + Collect(NormalPart, lights, midis, n),
      [0x0B] + rgb[..Cut(rgb)],
      [0x0B] + rgb[Cut(rgb)..],
      [0x28] + Collect(PulsePart, lights, midis, n),
      [0x23] + Collect(FlashPart, lights, midis, n))
  }

  /** The RGB contributions are whole 4-byte lights. */
  lemma {:induction false} RgbQuads(lights: seq<Light>, midis: seq<byte>, n: nat)
    requires n <= |lights| <= |midis|
    ensures |Collect(RgbPart, lights, midis, n)| == 4 * CountMode(lights, Rgb, n)
  {
    if n > 0 {
      RgbQuads(lights, midis, n - 1);
    }
  }

  /** One pass of the body of Render's loop: the light's entries
      appended to its batches; an RGB light goes to the first RGB batch
      while that batch holds fewer than 160 payload bytes, else to the
      second. */
  function Add(b: Batches, midi: byte, light: Light): Batches
  {
    match light.mode
    case Off => b.(off := b.off + [midi, 0])
    case Normal => b.(normal := b.normal + [midi, light.color])
    case Rgb =>
      if |b.rgb1| - 1 < 4 * 40 then b.(rgb1 := b.rgb1 + [midi, light.red, light.green, light.blue])
      else b.(rgb2 := b.rgb2 + [midi, light.red, light.green, light.blue])
    case Pulse => b.(pulse := b.pulse + [midi, light.color])
    case Flash => b.(normal := b.normal + [midi, light.color], flash := b.flash + [midi, light.flashColor])
  }

  /** Cutting at 160 bytes after appending one 4-byte entry to whole
      entries: the entry lands in the first part exactly when that part
      was not yet full. */
  lemma RgbCutStep(rgb: seq<byte>, q: seq<byte>)
    requires |rgb| % 4 == 0 && |q| == 4
    ensures Cut(rgb) < 160 <==> |rgb| < 160
    ensures |rgb| < 160 ==> (rgb + q)[..Cut(rgb + q)] == rgb[..Cut(rgb)] + q && (rgb + q)[Cut(rgb + q)..] == rgb[Cut(rgb)..]
    ensures |rgb| >= 160 ==> (rgb + q)[..Cut(rgb + q)] == rgb[..Cut(rgb)] && (rgb + q)[Cut(rgb + q)..] == rgb[Cut(rgb)..] + q
  {
    var r := rgb + q;
    if |rgb| < 160 {
      assert |rgb| <= 156;
      assert r[..Cut(r)] == r;
    } else {
      assert r[..Cut(r)] == rgb[..160];
      assert r[Cut(r)..] == rgb[160..] + q;
    }
  }

  /** The declarative batches grow by exactly one loop pass per light. */
  lemma {:induction false} ExpectedStep(lights: seq<Light>, midis: seq<byte>, i: nat)
    requires i < |lights| <= |midis|
    ensures Expected(lights, midis, i + 1) == Add(Expected(lights, midis, i), midis[i], lights[i])
  {
    if lights[i].mode == Rgb {
      ExpectedStepRgb(lights, midis, i);
    } else {
      ExpectedStepOther(lights, midis, i);
    }
  }

  lemma ExpectedStepRgb(lights: seq<Light>, midis: seq<byte>, i: nat)
    requires i < |lights| <= |midis| && lights[i].mode == Rgb
    ensures Expected(lights, midis, i + 1) == Add(Expected(lights, midis, i), midis[i], lights[i])
  {
    var light, midi := lights[i], midis[i];
    var q := [midi, light.red, light.green, light.blue];
    var rgb := Collect(RgbPart, lights, midis, i);
    var rgb' := Collect(RgbPart, lights, midis, i + 1);
    var b, b' := Expected(lights, midis, i), Expected(lights, midis, i + 1);
    RgbQuads(lights, midis, i);
    assert rgb' == rgb + q;
    RgbCutStep(rgb, q);
    assert |b.rgb1| - 1 == Cut(rgb);
    SameOutsideRgb(lights, midis, i);
    if |rgb| < 160 {
      assert b'.rgb1 == b.rgb1 + q by {
        assert [0x0B] + (rgb[..Cut(rgb)] + q) == ([0x0B] + rgb[..Cut(rgb)]) + q;
      }
      assert b'.rgb2 == b.rgb2;
    } else {
      assert b'.rgb1 == b.rgb1;
      assert b'.rgb2 == b.rgb2 + q by {
        assert [0x0B] + (rgb[Cut(rgb)..] + q) == ([0x0B] + rgb[Cut(rgb)..]) + q;
      }
    }
  }

  /** An RGB light adds nothing to the off, normal, pulse and flash batches. */
  lemma SameOutsideRgb(lights: seq<Light>, midis: seq<byte>, i: nat)
    requires i < |lights| <= |midis| && lights[i].mode == Rgb
    ensures Expected(lights, midis, i + 1).off == Expected(lights, midis, i).off
    ensures Expected(lights, midis, i + 1).normal == Expected(lights, midis, i).normal
    ensures Expected(lights, midis, i + 1).pulse == Expected(lights, midis, i).pulse
    ensures Expected(lights, midis, i + 1).flash == Expected(lights, midis, i).flash
  {
    assert Collect(OffPart, lights, midis, i + 1) == Collect(OffPart, lights, midis, i);
    assert Collect(NormalPart, lights, midis, i + 1) == Collect(NormalPart, lights, midis, i);
    assert Collect(PulsePart, lights, midis, i + 1) == Collect(PulsePart, lights, midis, i);
    assert Collect(FlashPart, lights, midis, i + 1) == Collect(FlashPart, lights, midis, i);
  }

  lemma ExpectedStepOther(lights: seq<Light>, midis: seq<byte>, i: nat)
    requires i < |lights| <= |midis| && lights[i].mode != Rgb
    ensures Expected(lights, midis, i + 1) == Add(Expected(lights, midis, i), midis[i], lights[i])
  {
    assert Collect(RgbPart, lights, midis, i + 1) == Collect(RgbPart, lights, midis, i);
  }

  /** Render's loop over every light in index order. */
  method RenderBatches(lights: seq<Light>, midis: seq<byte>) returns (b: Batches)
    requires |lights| <= |midis|
    ensures b == Expected(lights, midis, |lights|)
  {
    b := Batches([0x0A], [0x0A], [0x0B], [0x0B], [0x28], [0x23]);
    var i := 0;
    while i < |lights|
      invariant 0 <= i <= |lights|
      invariant b == Expected(lights, midis, i)
    {
      ExpectedStep(lights, midis, i);
      b := Add(b, midis[i], lights[i]);
      i := i + 1;
    }
  }

  /** The send order, off first and flash last. */
  function Order(b: Batches): seq<seq<byte>>
  {
    [b.off, b.normal, b.rgb1, b.rgb2, b.pulse, b.flash]
  }

  /** `SendSysExArray` over a list of batches: one envelope per batch that
      holds more than its command byte, in order. */
  function SendAll(t: DeviceType, batches: seq<seq<byte>>): (sent: seq<seq<byte>>)
    requires t == LaunchpadMk2 || t == LaunchpadPro
    ensures |sent| <= |batches|
  {
    if |batches| == 0 then []
    else
      (if |batches[0]| > 1 then [SysExEnvelope.CreateBuffer(t, batches[0], -1).value] else []) +
      SendAll(t, batches[1..])
  }

  /** The batches with payload, in order. */
  function NonBlank(batches: seq<seq<byte>>): (r: seq<seq<byte>>)
    ensures forall k | 0 <= k < |r| :: |r[k]| > 1
  {
    if |batches| == 0 then []
    else (if |batches[0]| > 1 then [batches[0]] else []) + NonBlank(batches[1..])
  }

  /** Each sent envelope opens to the next batch with payload: nothing
      blank is sent, nothing with payload is skipped, order is kept. */
  lemma {:induction false} SendAllOpens(t: DeviceType, batches: seq<seq<byte>>)
    requires t == LaunchpadMk2 || t == LaunchpadPro
    ensures |SendAll(t, batches)| == |NonBlank(batches)|
    ensures forall k | 0 <= k < |SendAll(t, batches)| ::
              SysExEnvelope.Open(SendAll(t, batches)[k]) == Ok((t, NonBlank(batches)[k]))
  {
    if |batches| > 0 {
      SendAllOpens(t, batches[1..]);
      SysExEnvelope.OpenCreate(t, batches[0], -1);
      assert SysExEnvelope.Zeros(0) == [];
      assert batches[0] + SysExEnvelope.Zeros(0) == batches[0];
    }
  }

  /** `Render`: nothing unless dirty; otherwise every light is encoded, the
      batches with payload are sent in order, the snapshot catches up and
      the flag clears. */
  function Render(s: Renderer): (r: (Renderer, seq<seq<byte>>))
    requires Valid(s)
    ensures Valid(r.0) && !r.0.invalidated && r.0.lights == s.lights
    ensures s.invalidated ==> r.0.oldLights == s.lights
    ensures r.0 == s.(oldLights := r.0.oldLights, invalidated := false)
    ensures !s.invalidated ==> r == (s, [])
    ensures |r.1| <= 6
  {
    if !s.invalidated then (s, [])
    else
      var b := Expected(s.lights, s.indexToMidi, |s.lights|);
      (s.(oldLights := s.lights, invalidated := false), SendAll(s.deviceType, Order(b)))
  }

  /** A second Render right after the first sends nothing and changes
      nothing. */
  lemma RenderTwiceSilent(s: Renderer)
    requires Valid(s)
    ensures Render(Render(s).0) == (Render(s).0, [])
  {}

  /** What a dirty Render sends: the envelopes of the non-blank batches,
      each opening to its batch. */
  lemma RenderSends(s: Renderer)
    requires Valid(s) && s.invalidated
    ensures var b := Expected(s.lights, s.indexToMidi, |s.lights|);
            |Render(s).1| == |NonBlank(Order(b))| &&
            forall k | 0 <= k < |Render(s).1| :: SysExEnvelope.Open(Render(s).1[k]) == Ok((s.deviceType, NonBlank(Order(b))[k]))
  {
    SendAllOpens(s.deviceType, Order(Expected(s.lights, s.indexToMidi, |s.lights|)));
  }

  /** Batch sizes: each Off, Normal, Pulse and Flash light is one pair in
      its batch (Flash lights one more in the flash batch), the RGB lights
      fill the first RGB batch up to 40 and the rest go to the second,
      and every batch's payload is made of whole entries. */
  lemma BatchSizes(lights: seq<Light>, midis: seq<byte>, n: nat)
    requires n <= |lights| <= |midis|
    ensures var b := Expected(lights, midis, n);
            |b.off| == 1 + 2 * CountMode(lights, Off, n) &&
            |b.normal| == 1 + 2 * (CountMode(lights, Normal, n) + CountMode(lights, Flash, n)) &&
            |b.pulse| == 1 + 2 * CountMode(lights, Pulse, n) &&
            |b.flash| == 1 + 2 * CountMode(lights, Flash, n) &&
            |b.rgb1| == 1 + 4 * (if CountMode(lights, Rgb, n) < 40 then CountMode(lights, Rgb, n) else 40) &&
            |b.rgb2| == 1 + 4 * (if CountMode(lights, Rgb, n) < 40 then 0 else CountMode(lights, Rgb, n) - 40) &&
            b.rgb1[1..] + b.rgb2[1..] == Collect(RgbPart, lights, midis, n)
  {
    PairCounts(lights, midis, n);
    RgbQuads(lights, midis, n);
    var rgb := Collect(RgbPart, lights, midis, n);
    assert rgb[..Cut(rgb)] + rgb[Cut(rgb)..] == rgb;
  }

  /** The off, normal, pulse and flash contributions are whole pairs. */
  lemma PairCounts(lights: seq<Light>, midis: seq<byte>, n: nat)
    requires n <= |lights| <= |midis|
    ensures |Collect(OffPart, lights, midis, n)| == 2 * CountMode(lights, Off, n)
    ensures |Collect(NormalPart, lights, midis, n)| == 2 * (CountMode(lights, Normal, n) + CountMode(lights, Flash, n))
    ensures |Collect(PulsePart, lights, midis, n)| == 2 * CountMode(lights, Pulse, n)
    ensures |Collect(FlashPart, lights, midis, n)| == 2 * CountMode(lights, Flash, n)
  {
    SinglePairs(OffPart, Off, lights, midis, n);
    SinglePairs(PulsePart, Pulse, lights, midis, n);
    SinglePairs(FlashPart, Flash, lights, midis, n);
    NormalPairs(lights, midis, n);
  }

  /** The batches fed by one mode alone. */
  predicate OneModePart(p: Part, m: LightMode)
  {
    (p == OffPart && m == Off) || (p == PulsePart && m == Pulse) || (p == FlashPart && m == Flash)
  }

  lemma {:induction false} SinglePairs(p: Part, m: LightMode, lights: seq<Light>, midis: seq<byte>, n: nat)
    requires OneModePart(p, m) && n <= |lights| <= |midis|
    ensures |Collect(p, lights, midis, n)| == 2 * CountMode(lights, m, n)
  {
    if n > 0 {
      SinglePairs(p, m, lights, midis, n - 1);
      assert |PartOf(p, lights[n - 1], midis[n - 1])| == if lights[n - 1].mode == m then 2 else 0;
    }
  }

  lemma {:induction false} NormalPairs(lights: seq<Light>, midis: seq<byte>, n: nat)
    requires n <= |lights| <= |midis|
    ensures |Collect(NormalPart, lights, midis, n)| == 2 * (CountMode(lights, Normal, n) + CountMode(lights, Flash, n))
  {
    if n > 0 {
      NormalPairs(lights, midis, n - 1);
      assert |PartOf(NormalPart, lights[n - 1], midis[n - 1])| == if lights[n - 1].mode in {Normal, Flash} then 2 else 0;
    }
  }

  /** The diff is disabled: every light lands in exactly one of the off,
      normal, RGB and pulse batches, whatever the snapshot holds. */
  lemma EveryLightOnce(l: Light, midi: byte)
    ensures (if PartOf(OffPart, l, midi) != [] then 1 else 0) +
            (if PartOf(NormalPart, l, midi) != [] then 1 else 0) +
            (if PartOf(RgbPart, l, midi) != [] then 1 else 0) +
            (if PartOf(PulsePart, l, midi) != [] then 1 else 0) == 1
    ensures PartOf(FlashPart, l, midi) != [] <==> l.mode == Flash
  {}

  // ---------------------------------------------------------------------
  // The Pro's two tables

  /** The visiting orders of the Pro's midi table and index table over its
      10-by-11 window. */
  function ProMidiCells(): seq<byte>
  {
    ProFormula();
    Scan.Scan(ProLayout, 10, 11)
  }

  function ProIndexCells(): seq<byte>
  {
    Devices.ProIndexFormula();
    Scan.Scan(Devices.ProIndexLayout, 10, 11)
  }

  /** Step j of both orders reads cell [10 - j/10, j%10] of each table. */
  lemma ProStep(j: nat) returns (r: nat, c: nat)
    requires j < 110
    ensures r == 10 - j / 10 && c == j % 10
    ensures ProMidiCells()[j] == ProCell(r, c)
    ensures ProIndexCells()[j] == Devices.ProIndexCell(r, c)
  {
    ProFormula();
    Devices.ProIndexFormula();
    r, c := ScanCell(ProLayout, 10, 11, j);
    var r', c' := ScanCell(Devices.ProIndexLayout, 10, 11, j);
  }

  /** The bottom-row ids 1..8 are looked up as indices 1..8, but indices
      1..7 render as the top grid row's ids 82..88 and index 8 as 71: the
      grid cells visited later own those indices too. */
  lemma ProBottomRowLookups(k: nat)
    requires 1 <= k <= 8
    ensures LastMatch(ProMidiCells(), ProIndexCells(), 110, k) == k
    ensures LastMatch(ProIndexCells(), ProMidiCells(), 110, k) == if k <= 7 then 81 + k else 71
  {
    ProBottomIdLookup(k);
    ProBottomIndexLookup(k);
  }

  /** Id k is met last at step 10 + k, in the bottom row, where its index
      is k. */
  lemma ProBottomIdLookup(k: nat)
    requires 1 <= k <= 8
    ensures LastMatch(ProMidiCells(), ProIndexCells(), 110, k) == k
  {
    var m, ix := ProMidiCells(), ProIndexCells();
    var j := 10 + k;
    var r, c := ProStep(j);
    forall j' | j < j' < 110 && Paired(m, ix, j')
      ensures m[j'] != k
    {
      var r', c' := ProStep(j');
    }
    LastMatchAt(m, ix, 110, j);
  }

  /** Index k is met last in the top grid row, at the id 81 + k (or at
      71 for k = 8). */
  lemma ProBottomIndexLookup(k: nat)
    requires 1 <= k <= 8
    ensures LastMatch(ProIndexCells(), ProMidiCells(), 110, k) == if k <= 7 then 81 + k else 71
  {
    var m, ix := ProMidiCells(), ProIndexCells();
    var i := if k <= 7 then 91 + k else 81;
    var r, c := ProStep(i);
    forall j' | i < j' < 110 && Paired(ix, m, j')
      ensures ix[j'] != k
    {
      var r', c' := ProStep(j');
    }
    LastMatchAt(ix, m, 110, i);
  }

  /** Built from the Pro's tables, the renderer stores a bottom-row button's
      light at an index that it renders under a different id. */
  lemma ProBottomRowMisrendered(s: Renderer, k: byte)
    requires Valid(s) && LooksUp(s, ProMidiCells(), ProIndexCells())
    requires 1 <= k <= 8
    ensures s.midiToIndex[k] == k
    ensures s.indexToMidi[s.midiToIndex[k]] != k
  {
    ProBottomRowLookups(k);
  }

  /** The index table with the bottom row numbered 89..96, after the power
      button's 88, so that each of the 97 lights has its own index. */
  const CorrectedProIndexLayout: Grid := [
    [255, 72, 73, 74, 75, 76, 77, 78, 79, 255],
    [80, 0, 1, 2, 3, 4, 5, 6, 7, 64],
    [81, 8, 9, 10, 11, 12, 13, 14, 15, 65],
    [82, 16, 17, 18, 19, 20, 21, 22, 23, 66],
    [83, 24, 25, 26, 27, 28, 29, 30, 31, 67],
    [84, 32, 33, 34, 35, 36, 37, 38, 39, 68],
    [85, 40, 41, 42, 43, 44, 45, 46, 47, 69],
    [86, 48, 49, 50, 51, 52, 53, 54, 55, 70],
    [87, 56, 57, 58, 59, 60, 61, 62, 63, 71],
    [255, 89, 90, 91, 92, 93, 94, 95, 96, 255],
    [255, 255, 255, 255, 88, 255, 255, 255, 255, 255]
  ]

  /** It differs from the original only in the bottom row. */
  function CorrectedProIndexCell(r: int, c: int): int
  {
    if r == 9 then (if 1 <= c <= 8 then 88 + c else 255) else Devices.ProIndexCell(r, c)
  }

  lemma CorrectedProIndexFormula()
    ensures IsTable(CorrectedProIndexLayout, 11, 10)
    ensures forall r, c | 0 <= r < 11 && 0 <= c < 10 :: CorrectedProIndexLayout[r][c] == CorrectedProIndexCell(r, c)
    ensures forall r, c | 0 <= r < 11 && 0 <= c < 10 && r != 9 :: CorrectedProIndexLayout[r][c] == Devices.ProIndexLayout[r][c]
  {}

  function CorrectedProIndexCells(): seq<byte>
  {
    CorrectedProIndexFormula();
    Scan.Scan(CorrectedProIndexLayout, 10, 11)
  }

  lemma CorrectedProIndexDistinct()
    ensures IsTable(CorrectedProIndexLayout, 11, 10)
    ensures DistinctIds(CorrectedProIndexLayout)
    ensures forall r, c | 0 <= r < 11 && 0 <= c < 10 && CorrectedProIndexLayout[r][c] != Sentinel ::
              CorrectedProIndexLayout[r][c] < 97
  {
    CorrectedProIndexFormula();
    var g := CorrectedProIndexLayout;
    forall r1, c1, r2, c2 |
      0 <= r1 < |g| && 0 <= c1 < |g[r1]| && 0 <= r2 < |g| && 0 <= c2 < |g[r2]| &&
      (r1, c1) != (r2, c2) && g[r1][c1] != Sentinel
      ensures g[r1][c1] != g[r2][c2]
    {
      CorrectedProIndexDecode(r1, c1);
      if g[r2][c2] != Sentinel {
        CorrectedProIndexDecode(r2, c2);
      }
    }
  }

  /** Where each index of the corrected table sits. */
  function CorrectedProIndexPlace(v: int): (int, int)
  {
    if v < 64 then (v / 8 + 1, v % 8 + 1)
    else if v < 72 then (v - 63, 9)
    else if v < 80 then (0, v - 71)
    else if v < 88 then (v - 79, 0)
    else if v == 88 then (10, 4)
    else (9, v - 88)
  }

  /** Every index names its own cell: the corrected table is injective. */
  lemma CorrectedProIndexDecode(r: int, c: int)
    requires 0 <= r < 11 && 0 <= c < 10 && CorrectedProIndexCell(r, c) != Sentinel
    ensures 0 <= CorrectedProIndexCell(r, c) < 97
    ensures CorrectedProIndexPlace(CorrectedProIndexCell(r, c)) == (r, c)
  {}

  /** Neither order repeats an id or an index. */
  lemma CorrectedProCellsDistinct()
    ensures KeysDistinct(ProMidiCells(), CorrectedProIndexCells())
    ensures KeysDistinct(CorrectedProIndexCells(), ProMidiCells())
  {
    var m, ix := ProMidiCells(), CorrectedProIndexCells();
    ProFormula();
    CorrectedProIndexFormula();
    ProDistinct();
    CorrectedProIndexDistinct();
    forall j1, j2 | Paired(m, ix, j1) && Paired(m, ix, j2) && j1 != j2
      ensures m[j1] != m[j2]
    {
      ScanDistinct(ProLayout, 10, 11, j1, j2);
    }
    forall j1, j2 | Paired(ix, m, j1) && Paired(ix, m, j2) && j1 != j2
      ensures ix[j1] != ix[j2]
    {
      ScanDistinct(CorrectedProIndexLayout, 10, 11, j1, j2);
    }
  }

  /** The two tables hold the sentinel in the same cells. */
  lemma CorrectedProStep(j: nat)
    requires j < 110
    ensures ProMidiCells()[j] != Sentinel <==> CorrectedProIndexCells()[j] != Sentinel
    ensures CorrectedProIndexCells()[j] != Sentinel ==> CorrectedProIndexCells()[j] < 97
  {
    ProFormula();
    CorrectedProIndexFormula();
    var r, c := ScanCell(ProLayout, 10, 11, j);
    var r', c' := ScanCell(CorrectedProIndexLayout, 10, 11, j);
    if CorrectedProIndexCell(r, c) != Sentinel {
      CorrectedProIndexDecode(r, c);
    }
  }

  /** With the corrected index table the two lookups are mutual inverses on
      every mapped cell of the Pro, and every index fits the 97 lights. */
  lemma CorrectedProRoundTrip(j: nat)
    requires j < 110 && ProMidiCells()[j] != Sentinel
    ensures CorrectedProIndexCells()[j] < 97
    ensures LastMatch(ProMidiCells(), CorrectedProIndexCells(), 110, ProMidiCells()[j]) == CorrectedProIndexCells()[j]
    ensures LastMatch(CorrectedProIndexCells(), ProMidiCells(), 110, CorrectedProIndexCells()[j]) == ProMidiCells()[j]
  {
    CorrectedProStep(j);
    CorrectedProCellsDistinct();
    PairedRoundTrip(ProMidiCells(), CorrectedProIndexCells(), j);
  }

  /** A renderer built with the corrected table stores every mapped id's
      light within the 97 lights and renders it under the same id. */
  lemma CorrectedProRendersInPlace(s: Renderer, j: nat)
    requires Valid(s) && LooksUp(s, ProMidiCells(), CorrectedProIndexCells())
    requires j < 110 && ProMidiCells()[j] != Sentinel
    ensures s.midiToIndex[ProMidiCells()[j]] < 97
    ensures s.indexToMidi[s.midiToIndex[ProMidiCells()[j]]] == ProMidiCells()[j]
  {
    CorrectedProRoundTrip(j);
  }
}
