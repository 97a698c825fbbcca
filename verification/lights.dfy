/** Light.cs: what one light shows, as the two renderers store it. */
module Lights {
  import opened Common

  /** LightMode, with the RGB mode the RGB renderer uses. */
  datatype LightMode = Off | Normal | Rgb | Pulse | Flash

  /** Mode, Color and FlashColor; R, G and B are the three bytes the RGB
      renderer reads from an RGB light (Light.cs as shown carries no such
      members, so they are plain fields here). */
  datatype Light = Light(mode: LightMode, color: byte, flashColor: byte, red: byte, green: byte, blue: byte)

  /** `new Light(LightMode.Off)`, which is also `default(Light)`. */
  const Dark: Light := Light(Off, 0, 0, 0, 0, 0)

  /** `new Light(mode, color, flashColor)`. */
  function Lit(mode: LightMode, color: byte, flashColor: byte): Light
  {
    Light(mode, color, flashColor, 0, 0, 0)
  }

  /** `new Light(LightMode.RGB, red, green, blue)`. */
  function RgbLight(red: byte, green: byte, blue: byte): Light
  {
    Light(Rgb, 0, 0, red, green, blue)
  }

  /** The number of lights among the first `n` in mode `m`. */
  function CountMode(lights: seq<Light>, m: LightMode, n: nat): (c: nat)
    requires n <= |lights|
    ensures c <= n
  {
    if n == 0 then 0 else CountMode(lights, m, n - 1) + (if lights[n - 1].mode == m then 1 else 0)
  }

  /** The five setters the renderers share, with their arguments. */
  datatype SetterOp =
    | SetNormal(color: byte)
    | SetOff
    | SetPulse(color: byte)
    | SetFlash(color1: byte, color2: byte)
    | SetRgb(red: byte, green: byte, blue: byte)

  /** The light a setter stores. */
  function Target(op: SetterOp): (l: Light)
  {
    match op
    case SetNormal(c) => Lit(Normal, c, 0)
    case SetOff => Dark
    case SetPulse(c) => Lit(Pulse, c, 0)
    case SetFlash(c1, c2) => Lit(Flash, c1, c2)
    case SetRgb(r, g, b) => RgbLight(r, g, b)
  }

  /** The setter's "already showing this" test: mode and the colours the
      setter writes. The RGB setter has none. */
  predicate Shows(l: Light, op: SetterOp)
  {
    match op
    case SetNormal(c) => l.mode == Normal && l.color == c
    case SetOff => l.mode == Off
    case SetPulse(c) => l.mode == Pulse && l.color == c
    case SetFlash(c1, c2) => l.mode == Flash && l.color == c1 && l.flashColor == c2
    case SetRgb(_, _, _) => false
  }

  /** The stored light always passes its own setter's test, except for RGB. */
  lemma TargetShows(op: SetterOp)
    ensures !op.SetRgb? ==> Shows(Target(op), op)
    ensures Target(op).mode == (match op
                                case SetNormal(_) => Normal
                                case SetOff => Off
                                case SetPulse(_) => Pulse
                                case SetFlash(_, _) => Flash
                                case SetRgb(_, _, _) => Rgb)
  {}

  /** `SetPulse` drops colours above 128. */
  predicate Rejected(op: SetterOp)
  {
    op.SetPulse? && op.color > 128
  }

  /** `Set(midiId, Light)`: the setter the light's mode selects. */
  function OpFor(l: Light): (op: SetterOp)
    ensures Target(op).mode == l.mode
    ensures l.mode != Rgb ==> Target(op).color == (if l.mode == Off then 0 else l.color)
    ensures l.mode == Flash ==> Target(op).flashColor == l.flashColor
  {
    match l.mode
    case Off => SetOff
    case Normal => SetNormal(l.color)
    case Rgb => SetRgb(l.red, l.green, l.blue)
    case Pulse => SetPulse(l.color)
    case Flash => SetFlash(l.color, l.flashColor)
  }

  /** The requests a setter drops before looking at the light: an unmapped
      id (except in the RGB setter, which has no such test) and a pulse
      colour above 128. */
  predicate Dropped(index: byte, op: SetterOp)
  {
    (index == Sentinel && !op.SetRgb?) || Rejected(op)
  }

  /** The setter body both renderers share: dropped requests and lights
      already showing the request leave the array alone (`false`); an index
      past the array throws; otherwise the target light is stored (`true`). */
  function Update(lights: seq<Light>, index: byte, op: SetterOp): (r: Result<(seq<Light>, bool)>)
    ensures r.Throws? <==> !Dropped(index, op) && index >= |lights|
    ensures r.Throws? ==> r.error == IndexOutOfRange
    ensures r.Ok? && !r.value.1 ==> r.value.0 == lights
    ensures r.Ok? && r.value.1 ==> index < |lights| && r.value.0 == lights[index := Target(op)]
    ensures r.Ok? ==> (r.value.1 <==> !Dropped(index, op) && !Shows(lights[index], op))
  {
    if Dropped(index, op) then Ok((lights, false))
    else if index >= |lights| then Throws(IndexOutOfRange)
    else if Shows(lights[index], op) then Ok((lights, false))
    else Ok((lights[index := Target(op)], true))
  }

  /** A second identical request is always elided, except an RGB one. */
  lemma UpdateIdempotent(lights: seq<Light>, index: byte, op: SetterOp)
    requires !op.SetRgb? && Update(lights, index, op).Ok?
    ensures Update(Update(lights, index, op).value.0, index, op) == Ok((Update(lights, index, op).value.0, false))
  {
    TargetShows(op);
  }

  /** The `Clear` loop both renderers share: every light Off, and whether
      any light was not Off before. */
  method ClearAll(lights: seq<Light>) returns (cleared: seq<Light>, anyLit: bool)
    ensures cleared == seq(|lights|, _ => Dark)
    ensures anyLit <==> exists i | 0 <= i < |lights| :: lights[i].mode != Off
  {
    cleared := lights;
    anyLit := false;
    var i := 0;
    while i < |cleared|
      invariant 0 <= i <= |cleared| == |lights|
      invariant cleared[..i] == seq(i, _ => Dark) && cleared[i..] == lights[i..]
      invariant anyLit <==> exists k | 0 <= k < i :: lights[k].mode != Off
    {
      assert cleared[i] == lights[i..][0];
      if cleared[i].mode != Off {
        anyLit := true;
      }
      cleared := cleared[i := Dark];
      assert cleared[i + 1..] == lights[i + 1..];
      i := i + 1;
    }
  }
}
