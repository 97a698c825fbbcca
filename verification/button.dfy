/** Button.cs: a pressed button's id and grid position, and the outer-ring
    predicates that tell system buttons from pad buttons. */
module Buttons {
  import opened Common
  import opened DeviceInfo
  import MidiDeviceTypes
  import RawMidi

  datatype Button = Button(midiId: byte, x: byte, y: byte)

  predicate IsTopRow(b: Button) { b.y == 9 }
  predicate IsBottomRow(b: Button) { b.y == 0 }
  predicate IsLeftCol(b: Button) { b.x == 0 }
  predicate IsRightCol(b: Button) { b.x == 9 }

  /** A system button sits on the outer ring of the 10-by-10 grid. */
  predicate IsSystem(b: Button)
  {
    IsTopRow(b) || IsLeftCol(b) || IsRightCol(b) || IsBottomRow(b)
  }

  /** The button LaunchpadDevice builds for an incoming id: the id with the
      position GetPos decodes from it. */
  function ButtonFor(t: MidiDeviceTypes.MidiDeviceType, midiId: byte): (b: Button)
    ensures b.midiId == midiId && b.x < 10
    ensures Pos(b.x, b.y) == RawMidi.GetPos(t, midiId)
  {
    var p := RawMidi.GetPos(t, midiId);
    Button(midiId, p.x, p.y)
  }

  /** For the ids a device reports, the decoded position is on the ring
      exactly when the id is an edge id: units digit 0 or 9, or tens digit
      0 or 9 (after the Mk2 shift). */
  lemma SystemByDigits(t: MidiDeviceTypes.MidiDeviceType, m: byte)
    requires m < 100 || (t == MidiDeviceTypes.Mk2 && 104 <= m < 113)
    ensures var id := if t == MidiDeviceTypes.Mk2 && m >= 104 then m - 13 else m;
            IsSystem(ButtonFor(t, m)) <==> (id % 10 == 0 || id % 10 == 9 || id / 10 == 0 || id / 10 == 9)
  {}

  /** On a Mk2, a button from the table decodes to the ring exactly when its
      id is a key of the Mk2 system-button map: the right column 19..89 and
      the top row 104..111. */
  lemma Mk2SystemButtons()
    ensures forall r, c | 0 <= r < 9 && 0 <= c < 9 && Mk2Layout[r][c] != Sentinel ::
              IsSystem(ButtonFor(MidiDeviceTypes.Mk2, Mk2Layout[r][c])) <==> Mk2Layout[r][c] in Mk2Buttons
  {
    Mk2Formula();
    Mk2ButtonKeys();
    forall r, c | 0 <= r < 9 && 0 <= c < 9 && Mk2Layout[r][c] != Sentinel
      ensures IsSystem(ButtonFor(MidiDeviceTypes.Mk2, Mk2Layout[r][c])) <==> Mk2Layout[r][c] in Mk2Buttons
    {
      SystemByDigits(MidiDeviceTypes.Mk2, Mk2Layout[r][c]);
    }
  }

  /** On a Pro, a button from the table decodes to the ring exactly when its
      id is a key of the Pro system-button map or the power button 99. */
  lemma ProSystemButtons()
    ensures forall r, c | 0 <= r < 11 && 0 <= c < 10 && ProLayout[r][c] != Sentinel ::
              IsSystem(ButtonFor(MidiDeviceTypes.Pro, ProLayout[r][c])) <==>
                (ProLayout[r][c] in ProButtons || ProLayout[r][c] == 99)
  {
    ProFormula();
    ProButtonKeys();
    forall r, c | 0 <= r < 11 && 0 <= c < 10 && ProLayout[r][c] != Sentinel
      ensures IsSystem(ButtonFor(MidiDeviceTypes.Pro, ProLayout[r][c])) <==>
                (ProLayout[r][c] in ProButtons || ProLayout[r][c] == 99)
    {
      SystemByDigits(MidiDeviceTypes.Pro, ProLayout[r][c]);
    }
  }
}
