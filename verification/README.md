# Launchpad.Net protocol core, modelled in Dafny

Launchpad.Net drives Novation Launchpad controllers (S, Mini, Mk2, Pro) over
MIDI. This project models its protocol core as pure Dafny functions over
immutable state:

- the layout tables, with the index caches built from them and the
  coordinate getters (`DeviceInfo`, `Devices`, `Scan`, `LaunchpadMidi`,
  `RawMidi`, `Buttons`);
- the connection state machine shared by every device class (`Lifecycle`);
- channel-voice status bytes and the two SysEx envelope builders
  (`MidiMessages`, `SysExEnvelope`, `SysExBuffers`);
- the two renderers, which turn light changes into SysEx or note messages
  (`Lights`, `RgbRenderer`, `LaunchpadSRenderer`);
- the application-facing `LaunchpadDevice`, with its setters, its diffing
  `Render` and its button events;
- the emulator's `SendInternal` decoder (`Emulator`);
- the ALSA input parser (`Alsa`).

Every operation returns its new state together with what it makes observable:
the messages it hands to the device's `Send`, the events raised, or the exception thrown, as a
`Result`. C# `byte` is the subtype `0..255` and unchecked `(byte)` casts are
`% 256`.

What lies outside the model is a parameter:

- the answers of the native transport (ConnectInternal, SendInternal,
  `snd_rawmidi_read`);
- the clock;
- the layouts the later snapshot takes from `MidiDeviceInfo`.

The repository holds two snapshots of the device layer. In the older one,
`DeviceInfo`, `LaunchpadMidiDevice`, `SysEx.cs` and the renderers work
together. In the later one, `RawMidiDevice`, `LaunchpadDevice`,
`Helpers/SysEx.cs` and the emulator do. Each is modelled against its own
types; the three device-type enums stay separate datatypes.

## Model

| member | source | states |
|---|---|---|
| MidiMessages.Code | src/Launchpad.Net/MidiMessageType.cs:5-15 | every message type's value is a status high nibble 8..F with an empty low nibble |
| MidiMessages.MessageLength | src/Launchpad.Net/Midi.cs:11-22 | Program Change and Channel Aftertouch take two bytes; the other channel-voice types take three; System Exclusive throws InvalidOperation |
| MidiMessages.CreateBuffer | src/Launchpad.Net/Midi.cs:9-26 | a buffer of the type's length: status byte first, data bytes zero; throws InvalidOperation exactly for System Exclusive |
| MidiMessages.StatusNibbles | src/Launchpad.Net/Midi.cs:24 | the status byte is the type code plus (channel - 1) mod 16; channel 1 gives the bare code and channel 0 wraps to low nibble 15 |
| MidiMessages.StatusRoundTrip | src/Launchpad.Net/Midi.cs:24 | decoding a created status byte gives back its type, and its channel for channels 1..16; channel 0 reads back as 16 |
| SysExEnvelope.ModelByte | src/Launchpad.Net/SysEx.cs:13-43 | the Mk2 is `18` and the Pro `10`; every other type throws InvalidOperation |
| SysExEnvelope.ModelByteInjective | src/Launchpad.Net/SysEx.cs:23-36 | the model byte tells the Mk2 and the Pro apart |
| SysExEnvelope.BlockLength | src/Launchpad.Net/SysEx.cs:11 | the payload block is the longer of msg and msglen, so it always holds msg |
| SysExEnvelope.CreateBuffer | src/Launchpad.Net/SysEx.cs:9-44 | header, model byte, msg, zero padding up to the block length, `F7`; InvalidOperation exactly for the types without SysEx |
| SysExEnvelope.OpenCreate | src/Launchpad.Net/SysEx.cs:9-44 | reading a created envelope back gives its device type and msg followed by its zero padding |
| SysExEnvelope.CreateOpen | src/Launchpad.Net/SysEx.cs:9-44 | every well-formed envelope is what CreateBuffer builds from its own payload with the default msglen |
| SysExEnvelope.GetHeaderLength | src/Launchpad.Net/SysEx.cs:47-56 | 7 (the fixed bytes plus the command byte) for the SysEx types, 2 for the Mini, 0 for the S |
| SysExEnvelope.HeaderLengthCoversCommand | src/Launchpad.Net/SysEx.cs:47-56 | the first GetHeaderLength bytes of a created envelope are exactly the header, the model byte and the command byte |
| SysExEnvelope.MaxMessageFits | src/Launchpad.Net/SysEx.cs:7 | a command plus three bytes for each of up to 97 lights fits MaxMessageLength, which is 299 |
| SysExBuffers.ModelByte | src/Launchpad.Net/Helpers/SysEx.cs:15 | `18` exactly for the Mk2; `10` for every other type, None included |
| SysExBuffers.CreateBuffer | src/Launchpad.Net/Helpers/SysEx.cs:7-18 | a 7 + length + 1 byte buffer with header, model byte and mode, and zeros after them; a negative size throws Overflow and a size below 7 IndexOutOfRange |
| SysExBuffers.CreateThenValid | src/Launchpad.Net/Helpers/SysEx.cs:20-31 | once `F7` is written at any count from 8 up, a created buffer is valid as a Mk2 buffer exactly when built for the Mk2, and as a Pro buffer exactly when built for any other type; it is never valid as None |
| SysExBuffers.CreatedNotValid | src/Launchpad.Net/Helpers/SysEx.cs:20-31 | a buffer straight from CreateBuffer is never valid, because the caller must write the terminator |
| SysExBuffers.MaxMessageFits | src/Launchpad.Net/Helpers/SysEx.cs:5 | an envelope of three bytes for each of up to 96 lights fits MaxMessageLength, which is 296 |
| DeviceInfo.New | src/Launchpad.Net/DeviceInfo.cs:197-220 | LightCount is the number of layout cells that are not 255, the same as the row-sum count the device tables are built with; Width is the column count, Height the row count, and every other field is copied from the arguments |
| DeviceInfo.FromType | src/Launchpad.Net/DeviceInfo.cs:222-231 | the static of the requested type for Mini, Mk2 and Pro; the S throws ArgumentOutOfRange |
| DeviceInfo.SFormula | src/Launchpad.Net/DeviceInfo.cs:23-34 | the S table is 9 by 9: its top row is 204..211 and grid row r holds 16(r-1)+c |
| DeviceInfo.Mk2Formula | src/Launchpad.Net/DeviceInfo.cs:97-108 | the Mk2 table is 9 by 9: its top row is 104..111 and grid row r holds 10(9-r)+c+1 |
| DeviceInfo.ProFormula | src/Launchpad.Net/DeviceInfo.cs:134-147 | the Pro table is 11 by 10: a top row 91..98, rows of 10(9-r)+c, a bottom row 1..8, and the power button 99 |
| DeviceInfo.Sizes | src/Launchpad.Net/DeviceInfo.cs:204-207 | the S, Mini and Mk2 are 9 by 9; the Pro is 10 wide and 11 high with inner offsets (1, 2) |
| DeviceInfo.STableCount | src/Launchpad.Net/DeviceInfo.cs:23-34 | the S table maps 80 cells |
| DeviceInfo.Mk2TableCount | src/Launchpad.Net/DeviceInfo.cs:97-108 | the Mk2 table maps 80 cells |
| DeviceInfo.ProTableCount | src/Launchpad.Net/DeviceInfo.cs:134-147 | the Pro table maps 97 cells |
| DeviceInfo.LightCounts | src/Launchpad.Net/DeviceInfo.cs:9-19 | LightCount is 80 for the S, Mini and Mk2 and 97 for the Pro, which equals MaxLightCount |
| DeviceInfo.InfoTable | src/Launchpad.Net/DeviceInfo.cs:222-231 | every table FromType hands out is a full Width-by-Height table of fewer than 256 cells and has no repeated id |
| DeviceInfo.InfoCount | src/Launchpad.Net/DeviceInfo.cs:211-219 | LightCount of every FromType result counts the mapped cells of its whole table |
| DeviceInfo.SDistinct | src/Launchpad.Net/DeviceInfo.cs:23-34 | no id appears twice in the S or Mini table |
| DeviceInfo.Mk2Distinct | src/Launchpad.Net/DeviceInfo.cs:97-108 | no id appears twice in the Mk2 table |
| DeviceInfo.ProDistinct | src/Launchpad.Net/DeviceInfo.cs:134-147 | no id appears twice in the Pro table |
| DeviceInfo.SButtonKeys | src/Launchpad.Net/DeviceInfo.cs:35-53 | the S system-button keys are 8, 24, .., 120 and 204..211 |
| DeviceInfo.Mk2ButtonKeys | src/Launchpad.Net/DeviceInfo.cs:109-127 | the Mk2 system-button keys are 19, 29, .., 89 and 104..111 |
| DeviceInfo.ProButtonKeys | src/Launchpad.Net/DeviceInfo.cs:148-182 | the Pro system-button keys are 1..8, 91..98, 10..80 by tens and 19..89 by tens |
| DeviceInfo.SButtonsPlacement | src/Launchpad.Net/DeviceInfo.cs:23-53 | an S table id is a system button exactly when it sits in the top row or the right column |
| DeviceInfo.SButtonsMapped | src/Launchpad.Net/DeviceInfo.cs:23-53 | every S system-button key is an id of the S table |
| DeviceInfo.Mk2ButtonsPlacement | src/Launchpad.Net/DeviceInfo.cs:97-127 | a Mk2 table id is a system button exactly when it sits in the top row or the right column |
| DeviceInfo.Mk2ButtonsMapped | src/Launchpad.Net/DeviceInfo.cs:97-127 | every Mk2 system-button key is an id of the Mk2 table |
| DeviceInfo.ProButtonsPlacement | src/Launchpad.Net/DeviceInfo.cs:134-182 | a Pro table id is a system button exactly when it sits on the ring of the upper 10-by-10 block; the power button is not one |
| DeviceInfo.ProButtonsMapped | src/Launchpad.Net/DeviceInfo.cs:134-182 | every Pro system-button key is an id of the Pro table |
| Devices.ProIndexFormula | src/Launchpad.Net/Devices/LaunchpadPro.cs:27-39 | the Pro index table is 11 by 10 and follows the S numbering: grid 0..63, right column 64..71, top row 72..79, left column 80..87, power 88, and a bottom row 1..8 |
| Devices.ProTablesAgree | src/Launchpad.Net/Devices/LaunchpadPro.cs:13-39 | the Pro midi table and index table have the sentinel in the same cells, and both map 97 cells |
| Devices.ProIndexReused | src/Launchpad.Net/Devices/LaunchpadPro.cs:24-39 | each bottom-row index 1..8 is also the index of a grid cell with another midi id, so the index table has repeats |
| Devices.ProIndexBound | src/Launchpad.Net/Devices/LaunchpadPro.cs:27-39 | every index in the Pro index table is at most 88, yet 97 cells carry one |
| Devices.DefinitionFacts | src/Launchpad.Net/Devices/LaunchpadPro.cs:40-80 | the Pro has inner offsets (1, 2); the Mk2 and Mini have (0, 0); the Mk2 renders with the RGB renderer and the Mini with the S renderer |
| Devices.ProKeysMapped | src/Launchpad.Net/Devices/LaunchpadPro.cs:13-75 | the Pro system-button keys are exactly the ring ids, and each one is a midi id of the table |
| Devices.Mk2Table | src/Launchpad.Net/Devices/LaunchpadMk2.cs:13-24 | the Mk2 table is 9 by 9 with its only sentinel at row 0, column 8; its top row is 104..111 and row r holds 10(9-r)+c+1 |
| Devices.Mk2Keys | src/Launchpad.Net/Devices/LaunchpadMk2.cs:13-43 | the Mk2 system-button keys are the right column and the top row, and each is an id of the table |
| Devices.MiniTable | src/Launchpad.Net/Devices/LaunchpadMini.cs:13-24 | the Mini table is 9 by 9 with its only sentinel at row 0, column 8; its top row is 204..211 and row k holds 16(k-1)+c |
| Devices.MiniKeys | src/Launchpad.Net/Devices/LaunchpadMini.cs:13-43 | the Mini system-button keys are 8, 24, .., 120 and 204..211, and each is an id of the table |
| Scan.ScanAt | src/Launchpad.Net/LaunchpadMidiDevice.cs:108-112 | the build reads grid position (x, y) from table cell [Height-1-y, x], at step y * Width + x |
| Scan.ScanCell | src/Launchpad.Net/LaunchpadMidiDevice.cs:108-112 | step j of the build reads table cell [Height-1-j/Width, j%Width] |
| Scan.ScanDistinct | src/Launchpad.Net/LaunchpadMidiDevice.cs:108-112 | the build visits each cell once, so a table without repeated ids yields visited ids without repeats |
| Scan.ScanKeysDistinct | src/Launchpad.Net/LaunchpadMidiDevice.cs:108-128 | a table without repeated ids gives a visiting order whose indexed cells all carry different ids |
| Scan.ScanRowsCount | src/Launchpad.Net/LaunchpadMidiDevice.cs:108-128 | the number of indices the build hands out is the sum over the visited rows of their mapped cells |
| Scan.WindowCountTable | src/Launchpad.Net/LaunchpadMidiDevice.cs:108-128 | over a whole table, the window's mapped-cell count is the table's count |
| Scan.RanksBelowTable | src/Launchpad.Net/LaunchpadMidiDevice.cs:108-128 | every index handed out over a whole table is below the table's mapped-cell count |
| Scan.Build | src/Launchpad.Net/LaunchpadMidiDevice.cs:98-128 | position caches hold each visited cell's id and contiguous index; midi -> index and index -> midi answer the last matching cell's partner, 255 when none |
| Scan.NoRankYet | src/Launchpad.Net/LaunchpadMidiDevice.cs:115-119 | an index not yet handed out has no id in the index -> midi cache |
| Scan.LastMatchAt | src/Launchpad.Net/LaunchpadMidiDevice.cs:115-117 | a lookup answers a cell's partner when no later cell repeats its key |
| Scan.LastMatchAbsent | src/Launchpad.Net/LaunchpadMidiDevice.cs:98-104 | a key that no indexed cell holds keeps the initial 255 |
| Scan.LastMatchSource | src/Launchpad.Net/LaunchpadMidiDevice.cs:115-117 | any answer other than 255 is the partner of an indexed cell that holds the key |
| Scan.PairedRoundTrip | src/Launchpad.Net/LaunchpadMidiDevice.cs:115-117 | when ids and indices are each distinct, the two lookups are mutual inverses on every indexed cell |
| Scan.RanksDistinct | src/Launchpad.Net/LaunchpadMidiDevice.cs:117-119 | contiguous indices never repeat |
| Scan.RanksBelow | src/Launchpad.Net/LaunchpadMidiDevice.cs:117-119 | every index handed out is below the number of mapped cells visited |
| LaunchpadMidi.ShapeOf | src/Launchpad.Net/LaunchpadMidiDevice.cs:75-96 | LEDCount is 80 for the Mk2 and 97 for every other type; the chosen table covers the Width-by-Height window |
| LaunchpadMidi.CorrectedShapeOf | src/Launchpad.Net/LaunchpadMidiDevice.cs:75-96 | the same shapes, except that the Mk2 table is read as a whole 10-by-10 window |
| LaunchpadMidi.BuiltValid | src/Launchpad.Net/LaunchpadMidiDevice.cs:98-106 | the caches have the sizes the constructor allocates |
| LaunchpadMidi.Create | src/Launchpad.Net/LaunchpadMidiDevice.cs:68-129 | the device holds the type's shape and exactly the caches the build produces over its window |
| LaunchpadMidi.CreateCorrected | src/Launchpad.Net/LaunchpadMidiDevice.cs:68-129 | the same build over the corrected shape |
| LaunchpadMidi.GetPos | src/Launchpad.Net/LaunchpadMidiDevice.cs:179-185 | x is the units digit and y the tens digit of the id, after a Mk2 id of 104 or more is moved down by 13 |
| LaunchpadMidi.Mk2MidiFormula | src/Launchpad.Net/LaunchpadMidiDevice.cs:36-48 | the Mk2 table is 10 by 10 with a blank left column and last row, a top row 104..111 and rows of 10(9-r)+c |
| LaunchpadMidi.ProMidiFormula | src/Launchpad.Net/LaunchpadMidiDevice.cs:23-35 | the Pro table is 10 by 10 and agrees cell by cell with the DeviceInfo Pro table |
| LaunchpadMidi.ProTablesShareRows | src/Launchpad.Net/LaunchpadMidiDevice.cs:9-35 | the Pro table is the Pro-with-power table without its last row |
| LaunchpadMidi.CellAt | src/Launchpad.Net/LaunchpadMidiDevice.cs:108-112 | build step j of a device reads table cell [Height-1-j/Width, j%Width] |
| LaunchpadMidi.ShapeDistinct | src/Launchpad.Net/LaunchpadMidiDevice.cs:9-48 | none of the three tables repeats an id |
| LaunchpadMidi.RankMapped | src/Launchpad.Net/LaunchpadMidiDevice.cs:113-126 | a visited cell receives an index exactly when it holds an id |
| LaunchpadMidi.PositionLookups | src/Launchpad.Net/LaunchpadMidiDevice.cs:171-176 | inside Width by Height the position getters answer the visited cell's id and index, which are 255 together; outside they answer 255 |
| LaunchpadMidi.IndexMapped | src/Launchpad.Net/LaunchpadMidiDevice.cs:169 | an id has an index exactly when the window holds it |
| LaunchpadMidi.LookupRoundTrip | src/Launchpad.Net/LaunchpadMidiDevice.cs:169-176 | on every visited id, the int GetMidiId undoes GetIndex and GetIndex undoes it, both agree with the position caches, and the index is below the mapped count |
| LaunchpadMidi.DistinctRoundTrip | src/Launchpad.Net/LaunchpadMidiDevice.cs:169-176 | the same round trip for any table without repeated ids |
| LaunchpadMidi.CorrectedByteRoundTrip | src/Launchpad.Net/LaunchpadMidiDevice.cs:174-175 | the byte GetMidiId, reading the index -> midi cache as its int sibling does, undoes GetIndex on every visited id |
| LaunchpadMidi.IntOverloadsTruncate | src/Launchpad.Net/LaunchpadMidiDevice.cs:170-177 | the int overloads truncate to a byte before the bounds check, so an argument plus 256 answers alike and (256, 0) reads (0, 0) |
| LaunchpadMidi.ProCells | src/Launchpad.Net/LaunchpadMidiDevice.cs:23-35 | step j of the Pro build reads the id 10(j/10)+j%10 of the Pro table's formula |
| LaunchpadMidi.GetMidiIdByteBreaksRoundTrip | src/Launchpad.Net/LaunchpadMidiDevice.cs:174 | on the Pro, id 1 gets index 0, and the byte GetMidiId answers 255 for index 0 where the corrected one answers 1 |
| LaunchpadMidi.Mk2WindowCount | src/Launchpad.Net/LaunchpadMidiDevice.cs:36-48 | the 9-by-9 window of the Mk2 table maps 72 cells and the 10-by-10 window 80 |
| LaunchpadMidi.ProWindowCount | src/Launchpad.Net/LaunchpadMidiDevice.cs:23-35 | the Pro window maps 96 cells |
| LaunchpadMidi.ProWithPowerWindowCount | src/Launchpad.Net/LaunchpadMidiDevice.cs:9-22 | the Pro-with-power window maps 97 cells |
| LaunchpadMidi.Mk2MappedCount | src/Launchpad.Net/LaunchpadMidiDevice.cs:77-81 | the Mk2 build as written indexes 72 lights, fewer than its LEDCount of 80; the corrected window indexes exactly 80 |
| LaunchpadMidi.ProMappedCount | src/Launchpad.Net/LaunchpadMidiDevice.cs:83-95 | the Pro and default builds index 96 lights against a LEDCount of 97; the Pro with power indexes 97 |
| LaunchpadMidi.ProPosition | src/Launchpad.Net/LaunchpadMidiDevice.cs:176-185 | on the Pro, GetPos of the id at (x, y) gives back (x, y) |
| LaunchpadMidi.Mk2Position | src/Launchpad.Net/LaunchpadMidiDevice.cs:176-185 | on the Mk2 as written, GetPos of the id at (x, y) gives (x, y + 1); over the corrected window it gives back (x, y) |
| LaunchpadMidi.Mk2RightColumn | src/Launchpad.Net/LaunchpadMidiDevice.cs:77-81 | the Mk2 build as written leaves the Track buttons 19..89 without an index; the corrected build indexes them |
| RawMidi.Declared | src/Launchpad.Net/RawMidiDevice.cs:31-42 | LEDCount, Width and Height are 80, 9, 9 for the Mk2 and 96, 10, 10 for every other type |
| RawMidi.WindowOf | src/Launchpad.Net/RawMidiDevice.cs:45 | the build reads the Mk2 table for the Mk2 and the Pro table otherwise, always as a 10-by-10 window |
| RawMidi.Create | src/Launchpad.Net/RawMidiDevice.cs:25-78 | the declared sizes of the type, and exactly the caches the build produces over `layout[9 - y, x]` |
| RawMidi.PositionLookups | src/Launchpad.Net/RawMidiDevice.cs:120-126 | the position getters read the 10-by-10 window, past the Mk2's declared width of 9 too, and answer 255 from 10 on |
| RawMidi.RoundTrip | src/Launchpad.Net/RawMidiDevice.cs:118-125 | for a table without repeated ids, GetIndex and the int GetMidiId are inverse on every mapped cell, and every index is below 100 |
| RawMidi.GetPos | src/Launchpad.Net/RawMidiDevice.cs:128-134 | the decimal split of the id, after moving a Mk2 id of 104 or more down by 13 |
| Lifecycle.Disconnect | src/Launchpad.Net/LaunchpadMidiDevice.cs:148-158 | DisconnectInternal always runs; Disconnecting and Disconnected are raised exactly when the device was connected; afterwards it is disconnected |
| Lifecycle.Connect | src/Launchpad.Net/LaunchpadMidiDevice.cs:133-144 | a full disconnect first when connected, then Connecting and ConnectInternal; Connected and the flag exactly when ConnectInternal succeeds; always returns true |
| Lifecycle.Send | src/Launchpad.Net/LaunchpadMidiDevice.cs:161-167 | false without calling SendInternal unless connected, otherwise SendInternal's answer |
| Lifecycle.DeliveredAll | src/Launchpad.Net/RawMidiDevice.cs:110-115 | a connected device passes every message handed to Send on to SendInternal; a disconnected one passes none |
| Lifecycle.Play | src/Launchpad.Net/RawOutputDevice.cs:51-57 | PlayInternal runs exactly when connected; the state is unchanged |
| Lifecycle.Dispose | src/Launchpad.Net/RawOutputDevice.cs:20 | Dispose disconnects; abnormally for RawOutputDevice, normally for the MIDI devices |
| Lifecycle.ConsistentAppend | src/Launchpad.Net/MidiDevice.cs:28-53 | a trace is consistent exactly when its two halves are, each read from the flag the first leaves |
| Lifecycle.DisconnectConsistent | src/Launchpad.Net/MidiDevice.cs:43-53 | Disconnect's events are consistent with the flag and account for the new one |
| Lifecycle.ConnectConsistent | src/Launchpad.Net/MidiDevice.cs:28-39 | Connect's events are consistent with the flag and account for the new one |
| Lifecycle.ConnectDisconnectsAs | src/Launchpad.Net/LaunchpadMidiDevice.cs:133-144 | the teardown a Connect runs on a connected device is made with the isNormal that Connect was given |
| Lifecycle.ApplyConsistent | src/Launchpad.Net/MidiDevice.cs:25-62 | every operation's events are consistent with the flag it starts from and account for the new one |
| Lifecycle.RunConsistent | src/Launchpad.Net/RawMidiDevice.cs:79-116 | over any run of operations IsConnected is what the event history says; Connected and Disconnected alternate, and SendInternal and PlayInternal happen only while connected |
| Lifecycle.AlsaDisconnectInternal | src/Launchpad.Net/Engines/Alsa/AlsaMidiDevice.cs:28-44 | an abnormal disconnect leaves both handles as they were; a normal one closes both |
| Buttons.ButtonFor | src/Launchpad.Net/LaunchpadDevice.cs:96-113 | the event's button carries the incoming id and the position GetPos decodes from it |
| Buttons.SystemByDigits | src/Launchpad.Net/Button.cs:9-13 | a reported id decodes to the outer ring exactly when its units or tens digit is 0 or 9, after the Mk2 shift |
| Buttons.Mk2SystemButtons | src/Launchpad.Net/Button.cs:9-13 | a Mk2 table id decodes to a system button exactly when it is a key of the Mk2 system-button map |
| Buttons.ProSystemButtons | src/Launchpad.Net/Button.cs:9-13 | a Pro table id decodes to a system button exactly when it is a key of the Pro system-button map or the power button 99 |
| Lights.TargetShows | src/Launchpad.Net/Renderers/LaunchpadRGBRenderer.cs:91-138 | the light a setter stores passes that setter's own "already showing" test, except for RGB, and has the setter's mode |
| Lights.OpFor | src/Launchpad.Net/Renderers/LaunchpadRGBRenderer.cs:80-90 | `Set(midiId, Light)` picks the setter that stores the light's mode with its colour and flash colour |
| Lights.Update | src/Launchpad.Net/Renderers/LaunchpadRGBRenderer.cs:91-138 | dropped requests (an unmapped id, a pulse colour above 128) and lights already showing the request change nothing; an index past the array throws; otherwise exactly that light is replaced and a repaint is due |
| Lights.UpdateIdempotent | src/Launchpad.Net/Renderers/LaunchpadRGBRenderer.cs:91-138 | a second identical non-RGB request changes nothing and asks for no repaint |
| Lights.ClearAll | src/Launchpad.Net/Renderers/LaunchpadRGBRenderer.cs:70-78 | every light ends Off, and the dirty answer is true exactly when some light was not Off |
| RgbRenderer.BuildPaired | src/Launchpad.Net/Renderers/LaunchpadRGBRenderer.cs:25-43 | each lookup answers the partner of the last visited cell where both tables are mapped, 255 when none |
| RgbRenderer.Create | src/Launchpad.Net/Renderers/LaunchpadRGBRenderer.cs:19-68 | succeeds exactly for the Mk2 and the Pro (the S throws ArgumentOutOfRange, the Mini InvalidOperation), with LightCount dark lights, no repaint due, and the paired lookups |
| RgbRenderer.Build | src/Launchpad.Net/Renderers/LaunchpadRGBRenderer.cs:24-65 | the lookups pair every cell mapped in both tables, the light array has LightCount dark lights, and no repaint is due |
| RgbRenderer.OnConnected | src/Launchpad.Net/Renderers/LaunchpadRGBRenderer.cs:47-58 | on connect three envelopes go out: standalone mode `21 01`, programmer layout `2C 03`, clear-all `0E 00`; a repaint becomes due |
| RgbRenderer.OnDisconnecting | src/Launchpad.Net/Renderers/LaunchpadRGBRenderer.cs:59-62 | on disconnecting only the clear-all envelope goes out |
| RgbRenderer.Clear | src/Launchpad.Net/Renderers/LaunchpadRGBRenderer.cs:70-78 | every light Off, nothing else changed, and a repaint due exactly when one was due or some light was lit |
| RgbRenderer.Apply | src/Launchpad.Net/Renderers/LaunchpadRGBRenderer.cs:91-138 | the setters change at most the light at the id's index, to the requested light, and only then mark a repaint; they throw exactly when an undropped index is past the array |
| RgbRenderer.SetLight | src/Launchpad.Net/Renderers/LaunchpadRGBRenderer.cs:80-90 | `Set(midiId, Light)` acts as the setter for the light's mode, and a change leaves a light of that mode |
| RgbRenderer.SetRgbCorrected | src/Launchpad.Net/Renderers/LaunchpadRGBRenderer.cs:229-236 | an unmapped id changes nothing; a mapped one is stored as the RGB setter does |
| RgbRenderer.SetRgbUnmappedThrows | src/Launchpad.Net/Renderers/LaunchpadRGBRenderer.cs:231-234 | the guard `index > byte.MaxValue` never holds, so an unmapped id writes at 255 and throws, where the corrected setter ignores it |
| RgbRenderer.SetterIdempotent | src/Launchpad.Net/Renderers/LaunchpadRGBRenderer.cs:91-138 | repeating any setter other than RGB changes nothing further |
| RgbRenderer.SetRgbNeverElided | src/Launchpad.Net/Renderers/LaunchpadRGBRenderer.cs:229-236 | the RGB setter always stores its light and always marks a repaint |
| RgbRenderer.RgbQuads | src/Launchpad.Net/Renderers/LaunchpadRGBRenderer.cs:173-188 | the RGB contributions are four bytes per RGB light |
| RgbRenderer.RgbCutStep | src/Launchpad.Net/Renderers/LaunchpadRGBRenderer.cs:175-187 | one more RGB light goes to the first batch while it holds fewer than 160 payload bytes, to the second batch after that |
| RgbRenderer.ExpectedStep | src/Launchpad.Net/Renderers/LaunchpadRGBRenderer.cs:161-199 | one pass of the loop body adds exactly the light's contributions to the batches |
| RgbRenderer.RenderBatches | src/Launchpad.Net/Renderers/LaunchpadRGBRenderer.cs:150-200 | the loop builds exactly the declarative batches of all lights in index order |
| RgbRenderer.SendAll | src/Launchpad.Net/Renderers/LaunchpadRGBRenderer.cs:218-224 | at most one envelope per batch |
| RgbRenderer.SendAllOpens | src/Launchpad.Net/Renderers/LaunchpadRGBRenderer.cs:218-224 | exactly the batches with payload are sent, in order, each as an envelope that opens to that batch |
| RgbRenderer.Render | src/Launchpad.Net/Renderers/LaunchpadRGBRenderer.cs:145-216 | nothing unless a repaint is due; otherwise the snapshot catches up with the lights, the flag clears, and at most six envelopes are handed to the device's Send |
| RgbRenderer.RenderTwiceSilent | src/Launchpad.Net/Renderers/LaunchpadRGBRenderer.cs:145-148 | a second Render right after the first sends nothing and changes nothing |
| RgbRenderer.RenderSends | src/Launchpad.Net/Renderers/LaunchpadRGBRenderer.cs:202-207 | a due Render sends, in the order off, normal, rgb1, rgb2, pulse, flash, one envelope per batch with payload, each opening to its batch |
| RgbRenderer.BatchSizes | src/Launchpad.Net/Renderers/LaunchpadRGBRenderer.cs:157-200 | each Off, Normal, Pulse and Flash light adds one pair to its batch (Flash also to the normal batch); the first 40 RGB lights fill rgb1 and the rest go to rgb2, in order |
| RgbRenderer.EveryLightOnce | src/Launchpad.Net/Renderers/LaunchpadRGBRenderer.cs:159-199 | with the diff commented out, every light lands in exactly one of the off, normal, RGB and pulse batches, and in the flash batch exactly when it flashes |
| RgbRenderer.ProStep | src/Launchpad.Net/Renderers/LaunchpadRGBRenderer.cs:31-36 | step j of the Pro build reads cell [10-j/10, j%10] of both tables |
| RgbRenderer.ProBottomRowLookups | src/Launchpad.Net/Renderers/LaunchpadRGBRenderer.cs:35-41 | with the Pro tables, bottom-row id k maps to index k, but index k maps back to id 81+k (71 for k = 8) |
| RgbRenderer.ProBottomRowMisrendered | src/Launchpad.Net/Renderers/LaunchpadRGBRenderer.cs:39-40 | a Pro bottom-row button's light is stored at an index that renders under another id |
| RgbRenderer.CorrectedProIndexFormula | src/Launchpad.Net/Devices/LaunchpadPro.cs:27-39 | the corrected index table differs from the original only in its bottom row, numbered 89..96 |
| RgbRenderer.CorrectedProIndexDistinct | src/Launchpad.Net/Devices/LaunchpadPro.cs:27-39 | the corrected index table repeats no index, and every index is below 97 |
| RgbRenderer.CorrectedProIndexDecode | src/Launchpad.Net/Devices/LaunchpadPro.cs:27-39 | each corrected index names its own cell, so the table is injective |
| RgbRenderer.CorrectedProCellsDistinct | src/Launchpad.Net/Renderers/LaunchpadRGBRenderer.cs:31-43 | over the corrected Pro tables neither visiting order repeats an id or an index |
| RgbRenderer.CorrectedProStep | src/Launchpad.Net/Renderers/LaunchpadRGBRenderer.cs:35-37 | the Pro midi table and the corrected index table are mapped in the same cells |
| RgbRenderer.CorrectedProRoundTrip | src/Launchpad.Net/Renderers/LaunchpadRGBRenderer.cs:35-41 | with the corrected index table the two lookups are mutual inverses on every mapped Pro cell, and every index is below 97 |
| RgbRenderer.CorrectedProRendersInPlace | src/Launchpad.Net/Renderers/LaunchpadRGBRenderer.cs:39-40 | a renderer built with the corrected table stores each id's light within the 97 lights and renders it under the same id |
| LaunchpadSRenderer.FromTypeReadable | src/Launchpad.Net/DeviceInfo.cs:222-231 | every information FromType returns is a full table of distinct ids whose LightCount counts its mapped cells |
| LaunchpadSRenderer.ReadableFits | src/Launchpad.Net/Renderers/LaunchpadSRenderer.cs:28-46 | such a table fits the 256-entry lookups: fewer than 256 cells and every light index below 255 |
| LaunchpadSRenderer.FromTypeFits | src/Launchpad.Net/Renderers/LaunchpadSRenderer.cs:27-46 | every information FromType returns fits the lookups the constructor builds |
| DeviceInfo.FromTypeLights | src/Launchpad.Net/Renderers/LaunchpadSRenderer.cs:73 | the light array the constructor allocates never exceeds MaxLightCount |
| LaunchpadSRenderer.Cells | src/Launchpad.Net/Renderers/LaunchpadSRenderer.cs:34-38 | the build visits exactly Width times Height cells, bottom row first |
| LaunchpadSRenderer.Create | src/Launchpad.Net/Renderers/LaunchpadSRenderer.cs:22-79 | construction fails with ArgumentOutOfRange exactly for the S itself; otherwise the lookups are the contiguous-index build of the table and every light is Off, nothing dirty |
| LaunchpadSRenderer.CreateFrom | src/Launchpad.Net/Renderers/LaunchpadSRenderer.cs:28-78 | the lookup build over any fitting table: valid lookups, one Off light per LightCount, timer and flash state reset |
| LaunchpadSRenderer.LookupRoundTrip | src/Launchpad.Net/Renderers/LaunchpadSRenderer.cs:39-44 | every mapped id of the table gets a light index below LightCount, and that index maps back to the id |
| LaunchpadSRenderer.Blanks | src/Launchpad.Net/Renderers/LaunchpadSRenderer.cs:74-77 | the blank note-on, note-off and control buffers are `90 00 00`, `80 00 00` and `B0 00 00` |
| LaunchpadSRenderer.ControlBytes | src/Launchpad.Net/Renderers/LaunchpadSRenderer.cs:49-59 | a channel-1 control change is `B0`, controller, value |
| LaunchpadSRenderer.OnConnected | src/Launchpad.Net/Renderers/LaunchpadSRenderer.cs:60-66 | connecting sends the three setup messages and marks the renderer dirty, changing nothing else |
| LaunchpadSRenderer.OnDisconnecting | src/Launchpad.Net/Renderers/LaunchpadSRenderer.cs:67-70 | disconnecting sends only the reset message `B0 00 00` |
| LaunchpadSRenderer.ConnectNeverSelectsLayout | src/Launchpad.Net/Renderers/LaunchpadSRenderer.cs:49-64 | as written, connecting sends brightness then two resets; the X-Y layout message `B0 00 01` is never among them |
| LaunchpadSRenderer.ConnectCorrectedSelectsLayout | src/Launchpad.Net/Renderers/LaunchpadSRenderer.cs:49-64 | with each value written to its own buffer the handler sends layout, brightness and reset, each a channel-1 control change |
| LaunchpadSRenderer.Clear | src/Launchpad.Net/Renderers/LaunchpadSRenderer.cs:81-89 | every light becomes Off and nothing else changes; the renderer becomes dirty exactly when it already was or some light was not Off |
| LaunchpadSRenderer.Apply | src/Launchpad.Net/Renderers/LaunchpadSRenderer.cs:101-148 | an unmapped id or an out-of-range pulse colour changes nothing; an index past the lights throws IndexOutOfRange; any change replaces exactly the addressed light with the requested one and marks the renderer dirty |
| LaunchpadSRenderer.SetLight | src/Launchpad.Net/Renderers/LaunchpadSRenderer.cs:91-100 | an RGB light matches no case and is ignored; every other mode goes to its own setter |
| LaunchpadSRenderer.SetterIdempotent | src/Launchpad.Net/Renderers/LaunchpadSRenderer.cs:101-148 | repeating a setter request changes nothing the second time |
| LaunchpadSRenderer.SettersKeepRgbOut | src/Launchpad.Net/Renderers/LaunchpadSRenderer.cs:91-100 | no sequence of Set calls ever stores an RGB light |
| LaunchpadSRenderer.ClockTick | src/Launchpad.Net/Renderers/LaunchpadSRenderer.cs:150-157 | a tick keeps the timer in [0, 24) and touches only the timer and the flash state |
| LaunchpadSRenderer.TicksPeriod | src/Launchpad.Net/Renderers/LaunchpadSRenderer.cs:150-157 | after n ticks the timer is the count modulo 24 and the flash state has flipped once per completed 24 ticks |
| LaunchpadSRenderer.LightMessages | src/Launchpad.Net/Renderers/LaunchpadSRenderer.cs:169-212 | each light sends one message, an RGB light none |
| LaunchpadSRenderer.RenderFrame | src/Launchpad.Net/Renderers/LaunchpadSRenderer.cs:165-213 | the loop sends the messages of every light in index order |
| LaunchpadSRenderer.Render | src/Launchpad.Net/Renderers/LaunchpadSRenderer.cs:159-214 | Render changes no state, and sends nothing while clean |
| LaunchpadSRenderer.RenderRepeats | src/Launchpad.Net/Renderers/LaunchpadSRenderer.cs:159-214 | the dirty flag is never cleared, so once dirty every Render resends the whole frame |
| LaunchpadSRenderer.LightMessageDecodes | src/Launchpad.Net/Renderers/LaunchpadSRenderer.cs:171-211 | each light's message names its own id (top row 204..211 as controller id minus 100) and carries the shown colour, or the Off value; it is a note off exactly for an Off light off the top row and a control change exactly on the top row |
| LaunchpadSRenderer.FramePerLight | src/Launchpad.Net/Renderers/LaunchpadSRenderer.cs:165-213 | without RGB lights the frame has one message per light, message i being light i's |
| LaunchpadSRenderer.FlashAlternates | src/Launchpad.Net/Renderers/LaunchpadSRenderer.cs:183-211 | a flashing light shows its flash colour in the flash phase and its colour otherwise; Normal and Pulse lights show their colour in both phases |
| LaunchpadDevice.New | src/Launchpad.Net/LaunchpadDevice.cs:70-75 | a new device is disconnected, with empty light and snapshot arrays and nothing to render |
| LaunchpadDevice.Command | src/Launchpad.Net/LaunchpadDevice.cs:76-81 | each one-byte command is sent as header, model byte, command, value and the terminator, nine bytes |
| LaunchpadDevice.ConnectMessagesValid | src/Launchpad.Net/LaunchpadDevice.cs:76-89 | the three connect messages pass the envelope check for the Mk2 exactly when built for the Mk2, and for the Pro exactly when built for any other type |
| LaunchpadDevice.Connect | src/Launchpad.Net/LaunchpadDevice.cs:143-151 | reconnecting sends the clear message if the device was connected and the three connect messages if ConnectInternal succeeds; it always marks a repaint due and keeps both light arrays |
| LaunchpadDevice.Disconnect | src/Launchpad.Net/LaunchpadDevice.cs:152-155 | disconnecting leaves the device disconnected, changes nothing else, and sends the clear message only if it was connected |
| LaunchpadDevice.Start | src/Launchpad.Net/LaunchpadDevice.cs:120-141 | Start's Stop disconnects, sending the clear message exactly when the device was connected; then both arrays are LEDCount dark LEDs and the three batch buffers are large enough for every light |
| LaunchpadDevice.Set | src/Launchpad.Net/LaunchpadDevice.cs:217-260 | an unmapped position or a pulse colour outside 0..128 changes nothing; an index past the array throws IndexOutOfRange; otherwise exactly that LED is overwritten with the byte-cast colours and a repaint is due |
| LaunchpadDevice.SetNeverElides | src/Launchpad.Net/LaunchpadDevice.cs:217-260 | a repeated request leaves the same state, but every accepted request marks a repaint due, even when the LED already held the value |
| LaunchpadDevice.SetKeepsReady | src/Launchpad.Net/LaunchpadDevice.cs:217-260 | setters keep the state Render relies on |
| LaunchpadDevice.SetAll | src/Launchpad.Net/LaunchpadDevice.cs:210-216 | an array of exactly 80 LEDs replaces the lights and marks a repaint due; any other length throws InvalidOperation |
| LaunchpadDevice.SetAllKeepsReady | src/Launchpad.Net/LaunchpadDevice.cs:210-216 | an adopted 80-LED array keeps the state Render relies on, since no declared LEDCount is below 80 |
| LaunchpadDevice.Clear | src/Launchpad.Net/LaunchpadDevice.cs:199-209 | every LED becomes dark and nothing else changes; a repaint is due exactly when it already was or some LED was not Off |
| LaunchpadDevice.PartsByMode | src/Launchpad.Net/LaunchpadDevice.cs:276-297 | Off and Normal lights go to the normal batch, Pulse lights to the pulse batch, Flash lights to both the normal and the flash batch, each part carrying the light's id |
| LaunchpadDevice.PutExtends | src/Launchpad.Net/LaunchpadDevice.cs:279-295 | writing a part at the write position keeps the prefix and extends the payload written so far by exactly that part |
| LaunchpadDevice.FillStep | src/Launchpad.Net/LaunchpadDevice.cs:269-298 | one loop pass appends the light's part to a batch exactly when the light differs from its snapshot |
| LaunchpadDevice.RenderLoop | src/Launchpad.Net/LaunchpadDevice.cs:266-298 | after the loop each batch buffer holds its prefix and the payload of every changed light of its mode, in index order, and its write position lies inside the buffer |
| LaunchpadDevice.Send | src/Launchpad.Net/LaunchpadDevice.cs:307-314 | a count of 7 (an empty batch) sends nothing; otherwise the terminator is written at the count and the buffer through it is sent |
| LaunchpadDevice.SendFramed | src/Launchpad.Net/LaunchpadDevice.cs:299-301 | a filled batch sends exactly its prefix, its payload and the terminator, or nothing if the payload is empty |
| LaunchpadDevice.Render | src/Launchpad.Net/LaunchpadDevice.cs:261-305 | with nothing due Render changes nothing and sends nothing; otherwise it hands the normal, pulse and flash batches of the changed lights to the device's Send, copies the lights over the front of the snapshot and clears the flag |
| LaunchpadDevice.RenderWhileDisconnectedIsLost | src/Launchpad.Net/LaunchpadDevice.cs:176-181 | while disconnected none of Render's batches reaches SendInternal, and once the snapshot has caught up a later connect, successful or not, leaves nothing to send |
| LaunchpadDevice.RenderWhileDisconnectedLosesLitLed | src/Launchpad.Net/LaunchpadDevice.cs:261-305 | a disconnected Mk2 with LED 0 set has a non-empty batch, none of it is delivered, and after a successful connect Render sends nothing |
| LaunchpadDevice.DiffUnchanged | src/Launchpad.Net/LaunchpadDevice.cs:274-275 | lights equal to their snapshot entries contribute nothing to any batch |
| LaunchpadDevice.RenderTwiceSilent | src/Launchpad.Net/LaunchpadDevice.cs:303-304 | once Render has copied the lights into the snapshot, the next Render sends nothing |
| LaunchpadDevice.DiffPlacement | src/Launchpad.Net/LaunchpadDevice.cs:269-298 | each batch holds one stride per changed light of its mode, and light k's part sits right after the parts of the changed lights before it |
| LaunchpadDevice.DiffLength | src/Launchpad.Net/LaunchpadDevice.cs:269-298 | a batch's payload is one stride per changed light of its mode |
| LaunchpadDevice.DiffPrefix | src/Launchpad.Net/LaunchpadDevice.cs:269-298 | the payload after fewer lights is a prefix of the payload after more |
| LaunchpadDevice.DiffPartAt | src/Launchpad.Net/LaunchpadDevice.cs:269-298 | light k's contribution sits right after the payload of the lights before it, whatever follows |
| LaunchpadDevice.DiffBound | src/Launchpad.Net/LaunchpadDevice.cs:269-298 | a batch's payload is at most one stride per light |
| LaunchpadDevice.PositionsFit | src/Launchpad.Net/LaunchpadDevice.cs:127-129 | the write positions Render reaches stay inside the buffers Start allocated, with room for the terminator |
| LaunchpadDevice.ReconnectLeavesDark | src/Launchpad.Net/LaunchpadDevice.cs:143-151 | after a reconnect whose last message clears the device, a state whose lights matched the snapshot renders nothing at all |
| LaunchpadDevice.ReconnectLeavesLitLedDark | src/Launchpad.Net/LaunchpadDevice.cs:143-151 | concretely: a Mk2 with one lit, already sent LED is cleared by a successful reconnect and the next Render does not redraw it |
| LaunchpadDevice.ConnectCorrected | src/Launchpad.Net/LaunchpadDevice.cs:143-151 | the corrected connect sends the same messages and, when the clear-all went out, resets the snapshot to dark |
| LaunchpadDevice.ConnectCorrectedRedraws | src/Launchpad.Net/LaunchpadDevice.cs:269-298 | after the corrected reconnect every LED that is not dark is sent again, at its place in the batch of its mode |
| LaunchpadDevice.ChangedPlacement | src/Launchpad.Net/LaunchpadDevice.cs:274-297 | a light that differs from its snapshot entry appears in the payload at its place |
| LaunchpadDevice.OnButton | src/Launchpad.Net/LaunchpadDevice.cs:96-113 | a press or release raises the id's button with GetPos's position, tagged as a system event exactly when the button is on the outer ring |
| LaunchpadDevice.EventsAgree | src/Launchpad.Net/LaunchpadDevice.cs:96-113 | press and release of one id carry the same button and the same system tag, which for ids below 100 (and the Mk2's top row) is set exactly for an edge digit |
| Emulator.Create | src/Launchpad.Net/Engines/Emulator/EmulatorLaunchpadMidiDevice.cs:10-14 | the emulator starts with MaxLEDCount dark LEDs |
| Emulator.Painted | src/Launchpad.Net/Engines/Emulator/EmulatorLaunchpadMidiDevice.cs:34-37 | a painted LED holds the colour with no flash colour, Off exactly for colour 0 (then it equals the default LED) and Normal otherwise |
| Emulator.Write | src/Launchpad.Net/Engines/Emulator/EmulatorLaunchpadMidiDevice.cs:33-38 | an unmapped index is skipped, an index past the array throws IndexOutOfRange, and the array keeps its length |
| Emulator.PaintIdsPairs | src/Launchpad.Net/Engines/Emulator/EmulatorLaunchpadMidiDevice.cs:28-42 | the read-and-paint loop paints exactly the whole (id, colour) pairs before the terminator, in order, the last write to an LED winning |
| Emulator.PairsEncode | src/Launchpad.Net/Engines/Emulator/EmulatorLaunchpadMidiDevice.cs:29-32 | encoded pairs read back as the same pairs, whether or not a lone byte follows them |
| Emulator.PaintLineEffect | src/Launchpad.Net/Engines/Emulator/EmulatorLaunchpadMidiDevice.cs:45-80 | painting a row or column paints every mapped LED on it and nothing else, and throws exactly when one of its indices lies past the array |
| Emulator.FillAsWritten | src/Launchpad.Net/Engines/Emulator/EmulatorLaunchpadMidiDevice.cs:81-92 | as written the clear loop changes LED 0 at most and leaves every other LED as it was |
| Emulator.FillCorrected | src/Launchpad.Net/Engines/Emulator/EmulatorLaunchpadMidiDevice.cs:81-92 | the loop with the intended counter paints every LED |
| Emulator.SendInternal | src/Launchpad.Net/Engines/Emulator/EmulatorLaunchpadMidiDevice.cs:19-124 | an invalid envelope is refused without change; unsupported commands throw NotSupported; mode and layout accept only standalone and programmer; set-LEDs, row and column paint their pairs; the clear paints as written; every other accepted command changes nothing |
| Emulator.SendInternalCorrected | src/Launchpad.Net/Engines/Emulator/EmulatorLaunchpadMidiDevice.cs:81-92 | the corrected decoder differs only in the clear command, which darkens or paints every LED |
| Emulator.DecodeLength | src/Launchpad.Net/Engines/Emulator/EmulatorLaunchpadMidiDevice.cs:19-124 | no accepted command changes the length of the LED array |
| Emulator.PaintIdsLength | src/Launchpad.Net/Engines/Emulator/EmulatorLaunchpadMidiDevice.cs:28-42 | the set-LEDs loop keeps the array's length |
| Emulator.PaintLinesLength | src/Launchpad.Net/Engines/Emulator/EmulatorLaunchpadMidiDevice.cs:45-80 | the row and column loops keep the array's length |
| Emulator.SetLedsRoundTrip | src/Launchpad.Net/Engines/Emulator/EmulatorLaunchpadMidiDevice.cs:21-42 | a set-LEDs frame of encoded pairs, as the driver builds it and whatever bytes follow it, paints exactly those pairs, in order, and fails exactly when one of those paints fails |
| Emulator.SetLedsPaints | src/Launchpad.Net/Engines/Emulator/EmulatorLaunchpadMidiDevice.cs:24-42 | a valid set-LEDs buffer is answered by painting the pairs before its terminator |
| Emulator.EnvelopeValid | src/Launchpad.Net/Engines/Emulator/EmulatorLaunchpadMidiDevice.cs:21-22 | a buffer with the header, model byte and command of a Mk2 or Pro and the terminator at its count passes the emulator's envelope check |
| Emulator.ConnectMessagesAccepted | src/Launchpad.Net/Engines/Emulator/EmulatorLaunchpadMidiDevice.cs:93-123 | the driver's three connect messages are accepted by an emulator of the same type, the mode and layout changing nothing |
| Emulator.ClearLeavesLit | src/Launchpad.Net/Engines/Emulator/EmulatorLaunchpadMidiDevice.cs:81-92 | as written the driver's clear message darkens LED 0 and leaves every other LED as it was |
| Emulator.ClearCorrected | src/Launchpad.Net/Engines/Emulator/EmulatorLaunchpadMidiDevice.cs:81-92 | with the loop corrected the clear message darkens every LED |
| Alsa.EventOf | src/Launchpad.Net/Engines/Alsa/AlsaMidiDevice.cs:68-76 | a key message raises a press exactly when its velocity is not 0, for the message's id and type |
| Alsa.Encode | src/Launchpad.Net/Engines/Alsa/AlsaMidiDevice.cs:62-78 | key messages are laid out three bytes each |
| Alsa.Events | src/Launchpad.Net/Engines/Alsa/AlsaMidiDevice.cs:66-76 | one event per key message |
| Alsa.ParseEncode | src/Launchpad.Net/Engines/Alsa/AlsaMidiDevice.cs:62-78 | a read holding whole channel-1 key messages raises exactly their events, in order, and never reads past the buffer |
| Alsa.SkipOthers | src/Launchpad.Net/Engines/Alsa/AlsaMidiDevice.cs:62-66 | bytes that are not channel-1 Note On or Control Change statuses are skipped one at a time |
| Alsa.OtherChannelsSkipped | src/Launchpad.Net/Engines/Alsa/AlsaMidiDevice.cs:68-76 | a status is acted on exactly when it is Note On or Control Change on channel 1 |
| Alsa.TailStatusReadsStale | src/Launchpad.Net/Engines/Alsa/AlsaMidiDevice.cs:62-76 | a key status in the last counted byte takes its data bytes from beyond the count, left by an earlier read |
| Alsa.NegativeCountSilent | src/Launchpad.Net/Engines/Alsa/AlsaMidiDevice.cs:54-62 | a read error other than -19, or an empty read, raises nothing |
| Alsa.Update | src/Launchpad.Net/Engines/Alsa/AlsaMidiDevice.cs:52-79 | on -19 the device reconnects abnormally and parses the second read, connected exactly when ConnectInternal succeeds; any other count parses the first read and leaves the connection alone |
| Alsa.ReconnectKeepsHandles | src/Launchpad.Net/Engines/Alsa/AlsaMidiDevice.cs:28-44 | the teardown of a reconnect is abnormal, so it leaves the old handles open |

## Behaviour worth knowing

- After a reconnect, `LaunchpadDevice.Render` diffs against its stale
  snapshot instead of repainting in full (see Findings).
- The S renderer's flash alternates between a light's colour and its
  flash colour, not between colour and off (`LaunchpadSRenderer.FlashAlternates`).
- The driver's envelopes carry a command byte, so an envelope is
  7 + payload + 1 bytes long.
- The messages an operation returns are those it hands to the device's
  `Send`. While the device is disconnected, `Send` drops them without
  calling SendInternal (`Lifecycle.DeliveredAll`). The worker renders even
  after a failed ConnectInternal, because `Connect` always answers true.
  `LaunchpadDevice.Render` still advances its snapshot in that case, so
  the lights it rendered are not sent after a later connect
  (`LaunchpadDevice.RenderWhileDisconnectedIsLost`).

## Left out

- Native transport: Winmm, the ALSA native methods, `AlsaMidiDevices`, `AlsaAudioEngine` and `MidiBuffer` are OS calls. Their answers are parameters: ConnectInternal's success, SendInternal's result, and the count and buffer of `snd_rawmidi_read`.
- `AlsaMidiDevice.SendInternal` and `ConnectInternal` are native writes and opens, so their outcomes are the `connectOk` and send-result parameters.
- Engine and port selection through static state (`SetEngine`, `RefreshDevices`, `For`, `OutputDevice`, `IAudioEngine`, `EmulatorAudioEngine`, `EmulatorMidiDevices`) is global mutable configuration.
- `LaunchpadDevice.RunTask` and the threading around Start and Stop are concurrency and wall-clock timing. Stop is modelled as Disconnect once the worker has gone. One logic tick is the sequence Connect, Update, Render.
- The emulator's `Render` draws to the console.
- UI widgets only forward to setters whose overloads are not in the source.
- `Light`, `Color`, `MidiPosition`, `LaunchpadEvent`, `OutputDeviceInfo` and `IRenderer` are plain datatypes with no properties of their own.
- RgbRenderer: ClockTick and its clock message use `MidiMessageType.MidiClock`, which the message-type enum does not define, so both are left out.
- RgbRenderer: `Light.R/G/B` are not defined in the source and are modelled as the fields of an RGB triple.
- RgbRenderer: `info.MidiLayout` / `IndexLayout` are not defined either; the renderer's layouts are parameters.
- Default values: `default(LED)` and `default(Light)` are taken to be Off with colour 0, assuming `Off` is the first enumerator.
- LaunchpadSRenderer.Create: FromType throws for the S, so the renderer can only be built for the Mini, Mk2 and Pro tables. The model exposes this instead of substituting the S table.
- LaunchpadDevice.SetAll: the adopted array aliases the caller's. Arrays are values here, so a caller's later writes to that array are not seen.
- RawMidi.Create: the layouts the later snapshot reads from `MidiDeviceInfo` are parameters.
- Lifecycle.Send: the boolean result of RawMidiDevice's Send is reported but unused by the callers modelled here.
- Alsa.Update: events raised before a read past the buffer are kept, and the throw is reported as `overrun`. Unwinding after the exception is not modelled.
- Alsa.Update: the input handle and read buffer are not tracked across a reconnect. A failed reconnect still re-reads, because Connect always answers true.
- Emulator.SendInternal: the device type is a parameter of the emulator, and its `_ledsInvalidated` flag only feeds the console redraw.
- WinmmMidiDevice's input unpacking and Connect override are a native callback path.
- SysExBuffers.IsValid and Emulator.SendInternal: both require the count to lie within the buffer. A public `Send(byte[], int)` with a larger count throws IndexOutOfRange at `buffer[count - 1]`, and that throw is not modelled. Every caller in the driver passes a count within its buffer.
- Integer overflow: the model's integers are unbounded. The `int` counters of the source never approach 2^31 on the tables and buffers involved. The `(byte)` casts are modelled exactly.

## Findings

| source | as written | input that shows it | evidently intended | confidence | as-written member | corrected member |
|---|---|---|---|---|---|---|
| src/Launchpad.Net/LaunchpadMidiDevice.cs:174 | `GetMidiId(byte index)` returns `_midiToIndex[index]` | Pro, index 0 (id 1): the answer is 255, not 1 | read `_indexToMidi[index]`, as the `int` overload does | high, not executed | LaunchpadMidi.GetMidiIdByteBreaksRoundTrip | LaunchpadMidi.CorrectedByteRoundTrip |
| src/Launchpad.Net/LaunchpadMidiDevice.cs:77-81 | the Mk2 window scans columns 0-8 of rows 0-8 of the 10-by-10 table | Mk2: only 72 ids get an index against an LEDCount of 80; the Track buttons 19..89 get none | a window that covers the 80 Mk2 ids | medium, not executed | LaunchpadMidi.Mk2RightColumn | LaunchpadMidi.CreateCorrected |
| src/Launchpad.Net/Renderers/LaunchpadRGBRenderer.cs:231-234 | the RGB setter guards with `index > byte.MaxValue` | any unmapped id: the index is 255, the guard fails and the write at 255 throws | `index == byte.MaxValue`, as the other setters test | high, not executed | RgbRenderer.SetRgbUnmappedThrows | RgbRenderer.SetRgbCorrected |
| src/Launchpad.Net/Devices/LaunchpadPro.cs:27-39 | the Pro index table's bottom row reuses indices 1..8 | Pro id 1: its light is stored at an index whose light renders under another id | fresh indices 89..96 for the bottom row | medium, not executed | RgbRenderer.ProBottomRowMisrendered | RgbRenderer.CorrectedProRendersInPlace |
| src/Launchpad.Net/Renderers/LaunchpadSRenderer.cs:49-56 | the brightness bytes are written into `layoutMsg` | any connect: `B0 1F 00`, `B0 00 00`, `B0 00 00` is sent and `B0 00 01` never is | write them into `brightnessMsg` | high, not executed | LaunchpadSRenderer.ConnectNeverSelectsLayout | LaunchpadSRenderer.ConnectCorrectedSelectsLayout |
| src/Launchpad.Net/LaunchpadDevice.cs:143-151 | reconnecting sends the clear-all but keeps the last-sent snapshot | Mk2 with LED 0 lit and already sent: after a reconnect the device is dark and Render sends nothing | reset the snapshot to dark when the clear-all goes out | medium, not executed | LaunchpadDevice.ReconnectLeavesLitLedDark | LaunchpadDevice.ConnectCorrectedRedraws |
| src/Launchpad.Net/Engines/Emulator/EmulatorLaunchpadMidiDevice.cs:81-92 | the set-all loop advances `i` instead of `index` | any clear message: LED 0 is set and every other LED keeps its colour | advance `index` over every LED | high, not executed | Emulator.ClearLeavesLit | Emulator.ClearCorrected |
