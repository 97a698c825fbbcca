/** The connection state machine shared, line for line, by MidiDevice,
    RawMidiDevice, LaunchpadMidiDevice and RawOutputDevice: Connect,
    Disconnect, the Send / Play gate and Dispose. What the transport does
    (ConnectInternal's answer, SendInternal's answer) is an input. */
module Lifecycle {

  /** The four classes differ only in Dispose and in Play / Send. */
  datatype Kind = MidiDeviceClass | RawMidiDeviceClass | LaunchpadMidiDeviceClass | RawOutputDeviceClass

  /** What an operation makes observable, in order: the four events and the
      calls into the overridable *Internal members. */
  datatype Event =
    | Connecting
    | Connected
    | Disconnecting
    | Disconnected
    | ConnectInternal(isNormal: bool)
    | DisconnectInternal(isNormal: bool)
    | SendInternal
    | PlayInternal

  datatype Device = Device(kind: Kind, isConnected: bool)

  /** A device's public operations. `internalOk` / `sendResult` stand for
      the answers of ConnectInternal / SendInternal. */
  datatype Op =
    | ConnectOp(isNormal: bool, internalOk: bool)
    | DisconnectOp(isNormal: bool)
    | SendOp(sendResult: bool)
    | PlayOp
    | DisposeOp

  /** An operation's outcome: the new state, the trace, the return value
      (false for void operations). */
  datatype Outcome = Outcome(device: Device, trace: seq<Event>, returned: bool)

  /** `Disconnect(isNormal)`: events only when connected, DisconnectInternal always. */
  function Disconnect(d: Device, isNormal: bool): (o: Outcome)
    ensures !o.device.isConnected && o.device.kind == d.kind
    ensures DisconnectInternal(isNormal) in o.trace
    ensures d.isConnected <==> Disconnected in o.trace
    ensures d.isConnected <==> Disconnecting in o.trace
  {
    if d.isConnected
    then Outcome(d.(isConnected := false), [Disconnecting, DisconnectInternal(isNormal), Disconnected], false)
    else Outcome(d, [DisconnectInternal(isNormal)], false)
  }

  /** The events Connect raises once disconnected. */
  function ConnectTail(isNormal: bool, ok: bool): seq<Event>
  {
    [Connecting, ConnectInternal(isNormal)] + (if ok then [Connected] else [])
  }

  /** `Connect(isNormal)`: a full Disconnect first when connected, then
      Connecting, then ConnectInternal; Connected and the flag only on
      success. Always returns true. */
  function Connect(d: Device, isNormal: bool, internalOk: bool): (o: Outcome)
    ensures o.returned
    ensures o.device.isConnected == internalOk && o.device.kind == d.kind
    ensures Connected in o.trace <==> internalOk
    ensures var pre := if d.isConnected then Disconnect(d, isNormal).trace else [];
            |pre| <= |o.trace| && o.trace[..|pre|] == pre &&
            o.trace[|pre|..] == ConnectTail(isNormal, internalOk)
  {
    var off := if d.isConnected then Disconnect(d, isNormal) else Outcome(d, [], false);
    Outcome(off.device.(isConnected := internalOk), off.trace + ConnectTail(isNormal, internalOk), true)
  }

  /** `Send`: false without calling SendInternal unless connected. The
      base SendInternal answers false. */
  function Send(d: Device, sendResult: bool): (o: Outcome)
    ensures o.device == d
    ensures o.returned <==> d.isConnected && sendResult
    ensures SendInternal in o.trace <==> d.isConnected
  {
    if !d.isConnected then Outcome(d, [], false) else Outcome(d, [SendInternal], sendResult)
  }

  /** The messages handed to `Send` one by one that reach SendInternal:
      each is passed on exactly when Send's trace shows the call. */
  function Delivered<M>(d: Device, msgs: seq<M>): seq<M>
  {
    if msgs == [] then []
    else (if SendInternal in Send(d, true).trace then [msgs[0]] else []) + Delivered(d, msgs[1..])
  }

  /** A connected device passes on every message; a disconnected one
      drops them all, whatever they were. */
  lemma {:induction false} DeliveredAll<M>(d: Device, msgs: seq<M>)
    ensures Delivered(d, msgs) == if d.isConnected then msgs else []
    decreases |msgs|
  {
    if msgs != [] {
      DeliveredAll(d, msgs[1..]);
      assert msgs == [msgs[0]] + msgs[1..];
    }
  }

  /** RawOutputDevice's `Play`: a no-op unless connected. */
  function Play(d: Device): (o: Outcome)
    ensures o.device == d && !o.returned
    ensures PlayInternal in o.trace <==> d.isConnected
  {
    if !d.isConnected then Outcome(d, [], false) else Outcome(d, [PlayInternal], false)
  }

  /** `Dispose`: Disconnect(true) for the MIDI devices, Disconnect(false)
      for RawOutputDevice. */
  function Dispose(d: Device): (o: Outcome)
    ensures !o.device.isConnected
    ensures DisconnectInternal(d.kind != RawOutputDeviceClass) in o.trace
  {
    Disconnect(d, d.kind != RawOutputDeviceClass)
  }

  function Apply(d: Device, op: Op): Outcome
  {
    match op
    case ConnectOp(isNormal, ok) => Connect(d, isNormal, ok)
    case DisconnectOp(isNormal) => Disconnect(d, isNormal)
    case SendOp(r) => Send(d, r)
    case PlayOp => Play(d)
    case DisposeOp => Dispose(d)
  }

  /** A run of operations; the trace is the concatenation of their traces. */
  function Run(d: Device, ops: seq<Op>): (o: Outcome)
    ensures o.device.kind == d.kind
    decreases |ops|
  {
    if |ops| == 0 then Outcome(d, [], false)
    else
      var first := Apply(d, ops[0]);
      var rest := Run(first.device, ops[1..]);
      Outcome(rest.device, first.trace + rest.trace, rest.returned)
  }

  /** A trace read against the flag it should leave: Connecting and
      ConnectInternal only while disconnected, Connected only from
      disconnected, Disconnecting / Disconnected only while connected, and
      SendInternal / PlayInternal only while connected. `c` is the flag
      before the trace. */
  predicate Consistent(c: bool, trace: seq<Event>)
    decreases |trace|
  {
    if |trace| == 0 then true
    else
      var e := trace[0];
      match e
      case Connecting => !c && Consistent(c, trace[1..])
      case ConnectInternal(_) => !c && Consistent(c, trace[1..])
      case Connected => !c && Consistent(true, trace[1..])
      case Disconnecting => c && Consistent(c, trace[1..])
      case Disconnected => c && Consistent(false, trace[1..])
      case DisconnectInternal(_) => Consistent(c, trace[1..])
      case SendInternal => c && Consistent(c, trace[1..])
      case PlayInternal => c && Consistent(c, trace[1..])
  }

  /** The flag the trace's Connected / Disconnected events leave. */
  function After(c: bool, trace: seq<Event>): bool
    decreases |trace|
  {
    if |trace| == 0 then c
    else if trace[0] == Connected then After(true, trace[1..])
    else if trace[0] == Disconnected then After(false, trace[1..])
    else After(c, trace[1..])
  }

  lemma {:induction false} ConsistentAppend(c: bool, a: seq<Event>, b: seq<Event>)
    ensures Consistent(c, a + b) <==> Consistent(c, a) && Consistent(After(c, a), b)
    ensures After(c, a + b) == After(After(c, a), b)
    decreases |a|
  {
    if |a| == 0 {
      assert a + b == b;
    } else {
      assert (a + b)[0] == a[0];
      assert (a + b)[1..] == a[1..] + b;
      var c' := if a[0] == Connected then true else if a[0] == Disconnected then false else c;
      ConsistentAppend(c', a[1..], b);
    }
  }

  lemma DisconnectConsistent(d: Device, isNormal: bool)
    ensures Consistent(d.isConnected, Disconnect(d, isNormal).trace)
    ensures After(d.isConnected, Disconnect(d, isNormal).trace) == Disconnect(d, isNormal).device.isConnected
  {
    var t := Disconnect(d, isNormal).trace;
    if d.isConnected {
      assert t[1..][1..][1..] == [];
      assert Consistent(true, t[1..][1..]) && After(true, t[1..][1..]) == false;
      assert Consistent(true, t[1..]) && After(true, t[1..]) == false;
    } else {
      assert t[1..] == [];
    }
  }

  lemma ConnectConsistent(d: Device, isNormal: bool, ok: bool)
    ensures Consistent(d.isConnected, Connect(d, isNormal, ok).trace)
    ensures After(d.isConnected, Connect(d, isNormal, ok).trace) == Connect(d, isNormal, ok).device.isConnected
  {
    var off := if d.isConnected then Disconnect(d, isNormal) else Outcome(d, [], false);
    var tail := ConnectTail(isNormal, ok);
    assert Connect(d, isNormal, ok).trace == off.trace + tail;
    assert Consistent(d.isConnected, off.trace) && After(d.isConnected, off.trace) == false by {
      DisconnectConsistent(d, isNormal);
    }
    ConnectTailConsistent(isNormal, ok);
    ConsistentAppend(d.isConnected, off.trace, tail);
  }

  /** From disconnected, the connect events are consistent and end
      connected exactly when ConnectInternal succeeded. */
  lemma ConnectTailConsistent(isNormal: bool, ok: bool)
    ensures Consistent(false, ConnectTail(isNormal, ok)) && After(false, ConnectTail(isNormal, ok)) == ok
  {
    var tail := ConnectTail(isNormal, ok);
    var last := if ok then [Connected] else [];
    assert tail[1..][1..] == last;
    if ok {
      assert last[1..] == [];
    }
    assert Consistent(false, last) && After(false, last) == ok;
    assert Consistent(false, tail[1..]) && After(false, tail[1..]) == ok;
  }

  /** Every DisconnectInternal a Connect raises carries its own isNormal. */
  lemma ConnectDisconnectsAs(d: Device, isNormal: bool, ok: bool)
    ensures forall ev | ev in Connect(d, isNormal, ok).trace && ev.DisconnectInternal? :: ev.isNormal == isNormal
  {
    var pre := if d.isConnected then Disconnect(d, isNormal).trace else [];
    var tail := ConnectTail(isNormal, ok);
    assert Connect(d, isNormal, ok).trace == pre + tail;
    forall ev: Event | ev in pre + tail && ev.DisconnectInternal?
      ensures ev.isNormal == isNormal
    {
      assert ev in pre || ev in tail;
    }
  }

  /** Each operation's trace is consistent with the flag it starts from,
      and its Connected / Disconnected events account for the new flag. */
  lemma ApplyConsistent(d: Device, op: Op)
    ensures Consistent(d.isConnected, Apply(d, op).trace)
    ensures After(d.isConnected, Apply(d, op).trace) == Apply(d, op).device.isConnected
  {
    match op
    case ConnectOp(isNormal, ok) => ConnectConsistent(d, isNormal, ok);
    case DisconnectOp(isNormal) => DisconnectConsistent(d, isNormal);
    case DisposeOp => DisconnectConsistent(d, d.kind != RawOutputDeviceClass);
    case SendOp(r) =>
      assert Send(d, r).trace == [] || Send(d, r).trace[1..] == [];
    case PlayOp =>
      assert Play(d).trace == [] || Play(d).trace[1..] == [];
  }

  /** Over any run, IsConnected is exactly what the event history says, and
      the history never raises Connected twice without a Disconnected in
      between (nor the reverse), never raises Connecting while connected,
      and never reaches SendInternal or PlayInternal while disconnected. */
  lemma {:induction false} RunConsistent(d: Device, ops: seq<Op>)
    ensures Consistent(d.isConnected, Run(d, ops).trace)
    ensures After(d.isConnected, Run(d, ops).trace) == Run(d, ops).device.isConnected
    decreases |ops|
  {
    if |ops| > 0 {
      var first := Apply(d, ops[0]);
      ApplyConsistent(d, ops[0]);
      RunConsistent(first.device, ops[1..]);
      ConsistentAppend(d.isConnected, first.trace, Run(first.device, ops[1..]).trace);
    }
  }

  /** The ALSA device's handles. */
  datatype AlsaHandles = AlsaHandles(inOpen: bool, outOpen: bool)

  /** AlsaMidiDevice.DisconnectInternal: an abnormal disconnect (the device
      is gone) leaves the handles alone; a normal one closes both. */
  function AlsaDisconnectInternal(h: AlsaHandles, isNormal: bool): (h': AlsaHandles)
    ensures !isNormal ==> h' == h
    ensures isNormal ==> !h'.inOpen && !h'.outOpen
  {
    if !isNormal then h else AlsaHandles(false, false)
  }
}
