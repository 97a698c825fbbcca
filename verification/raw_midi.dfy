/** RawMidiDevice.cs: the later snapshot's device base class. Its lookups are
    the same contiguous-index build as LaunchpadMidiDevice's, but always over
    a fixed 10-by-10 window of the table, whatever Width and Height say. The
    two tables it picks from (MidiDeviceInfo.Mk2MidiLayout and
    ProMidiLayout) are not part of this model and are parameters here. The
    connection state machine is in module Lifecycle. */
module RawMidi {
  import opened Common
  import opened Scan
  import opened MidiDeviceTypes
  import LaunchpadMidi

  /** A constructed device: the declared LEDCount / Width / Height and the
      lookups, held as a LaunchpadMidi device whose window is 10 by 10. */
  datatype RawDevice = RawDevice(deviceType: MidiDeviceType, width: nat, height: nat, core: LaunchpadMidi.Device)

  /** The table the constructor reads is at least 10 by 10. */
  predicate Fits(g: Grid)
  {
    Covers(g, 10, 10)
  }

  /** LEDCount, Width and Height: 80, 9, 9 for the Mk2 and 96, 10, 10 for
      every other type, None included. */
  function Declared(t: MidiDeviceType): (r: (nat, nat, nat))
    ensures t == Mk2 <==> r.0 == 80
    ensures t != Mk2 <==> r.0 == 96
    ensures r.1 == r.2 == (if t == Mk2 then 9 else 10)
  {
    if t == Mk2 then (80, 9, 9) else (96, 10, 10)
  }

  /** The window the build reads: the chosen table, 10 by 10. */
  function WindowOf(t: MidiDeviceType, mk2Layout: Grid, proLayout: Grid): (s: LaunchpadMidi.Shape)
    requires Fits(mk2Layout) && Fits(proLayout)
    ensures s.width == 10 && s.height == 10 && Covers(s.layout, 10, 10)
    ensures s.layout == (if t == Mk2 then mk2Layout else proLayout)
  {
    LaunchpadMidi.Shape(Declared(t).0, 10, 10, if t == Mk2 then mk2Layout else proLayout)
  }

  /** The constructor: pick the declared sizes and the table, then run the
      build over `layout[9 - y, x]` for y and x in 0..9. */
  method Create(t: MidiDeviceType, mk2Layout: Grid, proLayout: Grid) returns (d: RawDevice)
    requires Fits(mk2Layout) && Fits(proLayout)
    ensures d.deviceType == t
    ensures (d.core.shape.ledCount, d.width, d.height) == Declared(t)
    ensures d.core.shape.width == 10 && d.core.shape.height == 10
    ensures d.core.shape.layout == (if t == Mk2 then mk2Layout else proLayout)
    ensures LaunchpadMidi.Built(d.core) && LaunchpadMidi.Valid(d.core)
  {
    var s := WindowOf(t, mk2Layout, proLayout);
    var lookups := Build(LaunchpadMidi.Cells(s));
    var w, h := Declared(t).1, Declared(t).2;
    d := RawDevice(t, w, h, LaunchpadMidi.Device(LaunchpadMidi.OtherType, s, lookups));
  }

  /** A device as the constructor leaves it. */
  ghost predicate Constructed(d: RawDevice)
  {
    LaunchpadMidi.Built(d.core) &&
    d.core.shape.width == 10 && d.core.shape.height == 10 &&
    (d.core.shape.ledCount, d.width, d.height) == Declared(d.deviceType)
  }

  /** The position getters read the 10-by-10 window: (x, y) answers table
      cell [9 - y, x] for x, y < 10, even where x or y is at or past the
      declared Width / Height (the Mk2's 9), and 255 from 10 on. */
  lemma PositionLookups(d: RawDevice, x: byte, y: byte)
    requires Constructed(d)
    ensures x < 10 && y < 10 ==>
              LaunchpadMidi.GetMidiIdAt(d.core, x, y) == d.core.shape.layout[9 - y][x] &&
              (LaunchpadMidi.GetIndexAt(d.core, x, y) == Sentinel <==> LaunchpadMidi.GetMidiIdAt(d.core, x, y) == Sentinel)
    ensures !(x < 10 && y < 10) ==>
              LaunchpadMidi.GetMidiIdAt(d.core, x, y) == Sentinel && LaunchpadMidi.GetIndexAt(d.core, x, y) == Sentinel
    ensures d.deviceType == Mk2 && y < 10 ==>
              d.width == 9 && LaunchpadMidi.GetMidiIdAt(d.core, 9, y) == d.core.shape.layout[9 - y][9]
  {
    LaunchpadMidi.PositionLookups(d.core, x, y);
    LaunchpadMidi.PositionLookups(d.core, 9, y);
  }

  /** When the table's ids are distinct, GetIndex and the `int` GetMidiId are
      inverse on every mapped cell of the window, and every index is below
      the number of mapped cells, which is at most 100. */
  lemma RoundTrip(d: RawDevice, x: byte, y: byte)
    requires Constructed(d) && DistinctIds(d.core.shape.layout)
    requires x < 10 && y < 10 && d.core.shape.layout[9 - y][x] != Sentinel
    ensures LaunchpadMidi.GetIndex(d.core, d.core.shape.layout[9 - y][x]) == LaunchpadMidi.GetIndexAt(d.core, x, y)
    ensures LaunchpadMidi.GetMidiIdInt(d.core, LaunchpadMidi.GetIndexAt(d.core, x, y)) == d.core.shape.layout[9 - y][x]
    ensures LaunchpadMidi.GetIndexAt(d.core, x, y) < CountMapped(LaunchpadMidi.Cells(d.core.shape), 100) <= 100
  {
    ScanAt(d.core.shape.layout, 10, 10, x, y);
    var j := LaunchpadMidi.Flat(10, 10, x, y);
    LaunchpadMidi.DistinctRoundTrip(d.core, j);
  }

  /** `GetPos`: LaunchpadMidiDevice's decimal split, with the Mk2 top-row
      shift keyed on this class's own type enum. */
  function GetPos(t: MidiDeviceType, midiId: byte): (p: Pos)
    ensures p.x < 10
    ensures !(t == Mk2 && midiId >= 104) ==> 10 * p.y + p.x == midiId
    ensures t == Mk2 && midiId >= 104 ==> 10 * p.y + p.x == midiId - 13
  {
    LaunchpadMidi.GetPos(if t == Mk2 then LaunchpadMidi.Mk2 else LaunchpadMidi.OtherType, midiId)
  }
}
