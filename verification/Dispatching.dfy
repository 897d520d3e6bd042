// How the runner turns a normalised event into a device operation
// (src/vdevlab/runner.py), and what the device makes of it.

module Dispatching {
  import opened Common
  import opened Scenario
  import Device
  import SoloCalls
  import DeviceLedger

  datatype FaultConfiguration = FaultConfiguration(kind: string, repeat: int, delayMs: int, partialBytes: int)

  datatype Operation = DoReset | DoClear | DoWrite(data: string) | DoSetFault(config: FaultConfiguration)

  /** _scheduled_ms; None is a RunnerError. */
  function ScheduledMs(event: Fields): Option<nat> {
    if AtMs in event && event[AtMs].VInt? && event[AtMs].n >= 0 then Some(event[AtMs].n) else None
  }

  function IntField(event: Fields, key: Key): Option<int> {
    if key in event && event[key].VInt? then Some(event[key].n) else None
  }

  /** _fault_configuration; None is a RunnerError or a missing field. */
  function FaultConfigurationOf(event: Fields): Option<FaultConfiguration> {
    if Type !in event || !event[Type].VStr? then None else
      var kind := event[Type].s;
      if kind == "eio" then
        match IntField(event, Repeat)
        case None => None
        case Some(n) => Some(FaultConfiguration(kind, n, 0, 0))
      else if kind == "delay" then
        match IntField(event, DurationMs)
        case None => None
        case Some(n) => Some(FaultConfiguration(kind, 0, n, 0))
      else if kind == "partial-read" then
        match IntField(event, Bytes)
        case None => None
        case Some(n) => Some(FaultConfiguration(kind, 0, 0, n))
      else if kind == "disconnect" then Some(FaultConfiguration(kind, 0, 0, 0))
      else None
  }

  /** _dispatch up to the backend call. */
  function OperationOf(event: Fields): Option<Operation> {
    if Action !in event || !event[Action].VStr? then None else
      var action := event[Action].s;
      if action == "reset" then Some(DoReset)
      else if action == "clear" then Some(DoClear)
      else if action == "write" then
        if Text in event && event[Text].VStr? then Some(DoWrite(event[Text].s)) else None
      else if action == "fault" then
        match FaultConfigurationOf(event)
        case None => None
        case Some(c) => Some(DoSetFault(c))
      else None
  }

  predicate FitsU32(n: int) {
    0 <= n < 0x1_0000_0000
  }

  /** The table lookup and struct packing of LinuxDeviceBackend.set_fault. */
  function Packed(c: FaultConfiguration): Option<Device.Config> {
    if !FitsU32(c.repeat) || !FitsU32(c.delayMs) || !FitsU32(c.partialBytes) then None
    else if c.kind == "eio" then Some(Device.Config(1, c.repeat, c.delayMs, c.partialBytes))
    else if c.kind == "delay" then Some(Device.Config(2, c.repeat, c.delayMs, c.partialBytes))
    else if c.kind == "disconnect" then Some(Device.Config(3, c.repeat, c.delayMs, c.partialBytes))
    else if c.kind == "partial-read" then Some(Device.Config(4, c.repeat, c.delayMs, c.partialBytes))
    else None
  }

  /** The configuration a scenario author means by an event of the document. */
  function Meant(event: Fields): Option<Device.Config> {
    if Type !in event || !event[Type].VStr? then None
    else if event[Type].s == "eio" && Repeat in event && event[Repeat].VInt? && FitsU32(event[Repeat].n) then
      Some(Device.Config(Device.FAULT_EIO, event[Repeat].n, 0, 0))
    else if event[Type].s == "delay" && Duration in event && ParseDuration(event[Duration]).Some? &&
            FitsU32(ParseDuration(event[Duration]).value) then
      Some(Device.Config(Device.FAULT_DELAY, 0, ParseDuration(event[Duration]).value, 0))
    else if event[Type].s == "partial-read" && Bytes in event && event[Bytes].VInt? && FitsU32(event[Bytes].n) then
      Some(Device.Config(Device.FAULT_PARTIAL_READ, 0, 0, event[Bytes].n))
    else if event[Type].s == "disconnect" then Some(Device.Config(Device.FAULT_DISCONNECT, 0, 0, 0))
    else None
  }

  lemma WordsDiffer()
    ensures "eio" != "delay" && "eio" != "partial-read" && "eio" != "disconnect" && "delay" != "partial-read"
    ensures "delay" != "disconnect" && "partial-read" != "disconnect"
    ensures "write" != "fault" && "write" != "clear" && "write" != "reset"
    ensures "fault" != "clear" && "fault" != "reset" && "clear" != "reset"
  {
    assert |"eio"| == 3 && |"delay"| == 5 && |"partial-read"| == 12 && |"disconnect"| == 10;
    assert "write"[0] == 'w' && "fault"[0] == 'f' && "clear"[0] == 'c' && "reset"[0] == 'r';
  }

  /** A fault is packed as the document means it, and the event's time changes nothing
      about that. */
  lemma AcceptedFaultPacks(event: Fields, time: Value)
    requires ParseFaultEvent(event).Some?
    ensures var normalised := ParseFaultEvent(event).value[AtMs := time];
            FaultConfigurationOf(normalised).Some? &&
            Packed(FaultConfigurationOf(normalised).value).Some? &&
            Packed(FaultConfigurationOf(normalised).value) == Meant(event)
  {
    WordsDiffer();
  }

  /** Every accepted event has a time within the timeout and an operation; the
      scheduler rejects none of them, and a fault is packed as it was meant. */
  lemma AcceptedEventsDispatch(v: Value, timeoutMs: nat, event: Fields)
    requires ParseEvent(v, timeoutMs) == Some(event)
    ensures ScheduledMs(event) == ParseDuration(v.fields[At])
    ensures ScheduledMs(event).Some? && ScheduledMs(event).value == TimeOf(event) <= timeoutMs
    ensures OperationOf(event).Some?
    ensures OperationOf(event).value.DoReset? <==> v.fields[Action] == VStr("reset")
    ensures OperationOf(event).value.DoClear? <==> v.fields[Action] == VStr("clear")
    ensures OperationOf(event).value.DoWrite? <==> v.fields[Action] == VStr("write")
    ensures OperationOf(event).value.DoSetFault? <==> v.fields[Action] == VStr("fault")
    ensures OperationOf(event).value.DoSetFault? ==>
              Packed(OperationOf(event).value.config).Some? &&
              Packed(OperationOf(event).value.config) == Meant(v.fields)
    ensures OperationOf(event).value.DoWrite? ==> v.fields[Text] == VStr(OperationOf(event).value.data)
  {
    WordsDiffer();
    if v.fields[Action] == VStr("fault") {
      AcceptedFaultPacks(v.fields, event[AtMs]);
    }
  }

  /** The control path from document to device and back: set the fault, get it.
      An eio, partial-read or disconnect comes back exactly as meant. A delay does
      so if and only if it is 1 to 10000 ms; otherwise the device refuses it and
      keeps the fault it had. */
  lemma FaultSurvivesTheTrip(v: Value, timeoutMs: nat, event: Fields, g: SoloCalls.Globals)
    requires ParseEvent(v, timeoutMs) == Some(event) && v.fields[Action] == VStr("fault")
    ensures OperationOf(event).Some? && OperationOf(event).value.DoSetFault?
    ensures Packed(OperationOf(event).value.config).Some?
    ensures var c := Packed(OperationOf(event).value.config).value;
            var set1 := SoloCalls.Solo(g, Device.SetFault(c));
            var get1 := SoloCalls.Solo(set1.g, Device.GetFault);
            var deliverable := c.kind == Device.FAULT_DELAY ==> 1 <= c.delayMs <= Device.MAX_DELAY_MS;
            && Some(c) == Meant(v.fields)
            && (deliverable <==> set1.result == Some(Device.Success))
            && (deliverable ==> get1.result == Some(Device.Got(c)))
            && (!deliverable ==> set1.result == Some(Device.Failed(Device.EINVAL)) && set1.g == g)
  {
    AcceptedEventsDispatch(v, timeoutMs, event);
    WordsDiffer();
    var c := Packed(OperationOf(event).value.config).value;
    MeantInRange(v, timeoutMs, event);
    DeviceLedger.NormaliseCanonical(c);
  }

  lemma MeantInRange(v: Value, timeoutMs: nat, event: Fields)
    requires ParseEvent(v, timeoutMs) == Some(event) && v.fields[Action] == VStr("fault")
    ensures Meant(v.fields).Some?
    ensures var c := Meant(v.fields).value;
            c.kind == Device.FAULT_DELAY ||
            (c.kind == Device.FAULT_EIO && 1 <= c.repeat <= Device.MAX_FAULT_REPEAT && c.delayMs == c.partialBytes == 0) ||
            (c.kind == Device.FAULT_PARTIAL_READ && 1 <= c.partialBytes <= Device.MAX_PARTIAL_READ && c.repeat == c.delayMs == 0) ||
            (c.kind == Device.FAULT_DISCONNECT && c.repeat == c.delayMs == c.partialBytes == 0)
    ensures var c := Meant(v.fields).value; c.kind == Device.FAULT_DELAY ==> c.repeat == c.partialBytes == 0
  {
    WordsDiffer();
  }

  /** Both ends of the mismatch happen: the validator takes these two delays, the
      device takes neither. */
  lemma DelayOutsideDeviceRange()
    ensures ParseDuration(VStr("0ms")) == Some(0) && ParseDuration(VStr("11s")) == Some(11000)
    ensures forall d :: d == 0 || d == 11000 ==>
              Device.Normalise(Device.Config(Device.FAULT_DELAY, 0, d, 0)) == None
  {
    assert Show(0) == "0" && Show(11) == "11";
    DurationRoundTrip(0);
    DurationRoundTrip(11);
    assert Show(0) + "ms" == "0ms" && Show(11) + "s" == "11s";
  }

  /** A scenario that passed validation runs through the scheduler without a
      rejection: times ascend within the timeout, every event has an operation. */
  lemma ValidatedScenarioDispatches(v: Value, p: Parsed)
    requires Accepts(v, p)
    ensures forall i :: 0 <= i < |p.events| ==>
              ScheduledMs(p.events[i]).Some? && ScheduledMs(p.events[i]).value <= p.timeoutMs &&
              OperationOf(p.events[i]).Some? &&
              (OperationOf(p.events[i]).value.DoSetFault? ==> Packed(OperationOf(p.events[i]).value.config).Some?)
    ensures forall i, j :: 0 <= i < j < |p.events| ==>
              ScheduledMs(p.events[i]).Some? && ScheduledMs(p.events[j]).Some? &&
              ScheduledMs(p.events[i]).value <= ScheduledMs(p.events[j]).value
  {
    forall i | 0 <= i < |p.events|
      ensures ScheduledMs(p.events[i]).Some? && ScheduledMs(p.events[i]).value == TimeOf(p.events[i]) <= p.timeoutMs
      ensures OperationOf(p.events[i]).Some?
      ensures OperationOf(p.events[i]).value.DoSetFault? ==> Packed(OperationOf(p.events[i]).value.config).Some?
    {
      AcceptedEventsDispatch(v.fields[Events].items[i], p.timeoutMs, p.events[i]);
    }
    forall i, j | 0 <= i < j < |p.events|
      ensures ScheduledMs(p.events[i]).Some? && ScheduledMs(p.events[j]).Some? &&
              ScheduledMs(p.events[i]).value <= ScheduledMs(p.events[j]).value
    {
      assert TimeOf(p.events[i]) <= TimeOf(p.events[j]);
    }
  }
}
