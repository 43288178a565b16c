/** The connected backend (hw/connected_hardware.py): the same limit and
    emergency gating as the simulators, but moves are sent to the printer as
    G-code over a serial port and confirmed by its reply. The port's traffic
    is modelled as the list of G-code lines written to it and the sequence of
    `readline()` results it yields. */
module ConnectedBackend {
  import opened Types
  import opened Text
  import opened Motion

  /** The G-code lines this backend writes. Field values are kept as numbers:
      the three-decimal rendering of `{x:.3f}` is not modelled. */
  datatype GcodeLine =
    | LinearMove(xField: real, yField: real, zField: real, feedrate: int)  // G1 X.. Y.. Z.. F..
    | HomeAll                                                           // G28
    | EmergencyHalt                                                     // M112
    | SetMillimetres                                                    // G21
    | AbsolutePositioning                                               // G90

  function SwapYZ(p: Position): Position
  {
    Position(p.x, p.z, p.y)
  }

  /** The `G1` line for target `p`: with `swap_yz_axes` the Y field carries
      z and the Z field carries y. */
  function EncodeMove(p: Position, feedrate: int, swapYZ: bool): (g: GcodeLine)
    ensures g.LinearMove? && g.feedrate == feedrate && g.xField == p.x
    ensures swapYZ ==> g.yField == p.z && g.zField == p.y
    ensures !swapYZ ==> g.yField == p.y && g.zField == p.z
  {
    var q := if swapYZ then SwapYZ(p) else p;
    LinearMove(q.x, q.y, q.z, feedrate)
  }

  /** The model-frame position a `G1` line commands, for a given wiring. */
  function DecodeMove(g: GcodeLine, swapYZ: bool): (p: Position)
    requires g.LinearMove?
    ensures p.x == g.xField
    ensures swapYZ ==> p.y == g.zField && p.z == g.yField
    ensures !swapYZ ==> p.y == g.yField && p.z == g.zField
  {
    var q := Position(g.xField, g.yField, g.zField);
    if swapYZ then SwapYZ(q) else q
  }

  /** Read back with the same wiring, the written line commands exactly the
      requested target: the swap loses nothing. */
  lemma EncodeMoveRoundTrip(p: Position, feedrate: int, swapYZ: bool)
    ensures DecodeMove(EncodeMove(p, feedrate, swapYZ), swapYZ) == p
  {
  }

  /** The swapped line is the unswapped line for the target with y and z
      exchanged, and exchanging twice is the identity. */
  lemma SwapIsRewiring(p: Position, feedrate: int)
    ensures EncodeMove(p, feedrate, true) == EncodeMove(SwapYZ(p), feedrate, false)
    ensures SwapYZ(SwapYZ(p)) == p
  {
  }

  /** `pigpio.pi` handle: none yet, or connected or not. */
  datatype PiState = NoPi | PiDisconnected | PiConnected

  /** `printer_serial`: none yet, or a port that is closed or open. */
  datatype PortState = NoPort | PortClosed | PortOpen

  /** What `printer_serial.write(...)` raises: an AttributeError on `None`,
      pyserial's error on a closed port, nothing on an open one. */
  function WriteFailure(port: PortState): (r: Option<string>)
    ensures r.None? <==> port == PortOpen
  {
    match port
    case NoPort => Some("'NoneType' object has no attribute 'write'")
    case PortClosed => Some("Attempting to use a port that is not open")
    case PortOpen => None
  }

  /** The printer acknowledged: the stripped, lower-cased line contains "ok". */
  predicate Acknowledges(raw: string)
  {
    Contains(Lower(Strip(raw)), "ok")
  }

  /** The reply check of `move_nozzle`: one `readline()`, stripped; success
      when its lower-case form contains "ok" anywhere, else an error carrying
      the stripped line. A read that raises propagates. */
  function MoveReply(reply: ReadResult, id: string, now: real): (r: BackendOutcome)
    ensures r.Returned? && r.ack.status == Ok <==>
              reply.Line? && exists i :: OccursAt(Lower(Strip(reply.raw)), "ok", i)
    ensures reply.Line? && !Acknowledges(reply.raw) ==>
              r == Returned(ErrorAck(id, "Printer error: " + Strip(reply.raw), now))
    ensures reply.Line? && Acknowledges(reply.raw) ==>
              r == Returned(OkAck(id, "Movement completed", now))
    ensures reply.ReadFailed? ==> r == Raised(reply.error)
  {
    match reply
    case ReadFailed(e) => Raised(e)
    case Line(raw) =>
      var response := Strip(raw);
      ContainsIff(Lower(response), "ok");
      if !Contains(Lower(response), "ok") then
        Returned(ErrorAck(id, "Printer error: " + response, now))
      else
        Returned(OkAck(id, "Movement completed", now))
  }

  /** The error message of a homing wait that saw no acknowledgement. */
  const HomingTimeout := "Homing timeout - printer did not respond within 60 seconds"

  /** A reply line the homing loop accepts as completion. */
  predicate HomingAck(r: ReadResult)
  {
    r.Line? && Acknowledges(r.raw)
  }

  /** The homing loop's own test, a non-empty stripped line containing "ok",
      is `HomingAck`: an empty line contains nothing. */
  lemma HomingStep(r: ReadResult)
    ensures HomingAck(r) <==> r.Line? && Strip(r.raw) != "" && Contains(Lower(Strip(r.raw)), "ok")
  {
    if r.Line? && Strip(r.raw) == "" {
      assert Lower(Strip(r.raw)) == "";
    }
  }

  /** The RuntimeError `initialize` raises when pigpio has no daemon. */
  const PigpioFailure := "Failed to connect to pigpio daemon"

  class ConnectedHardware {
    const limits: SafeLimits
    const swapYZ: bool
    var systemStatus: SystemStatus
    var emergencyStopActive: bool
    var nozzlePos: Position
    var nozzleMoving: bool
    var pi: PiState
    var port: PortState
    /** Every G-code line written to the printer so far. */
    var sent: seq<GcodeLine>

    /** Before `initialize` there is neither a pigpio handle nor a port. */
    constructor (limits: SafeLimits, swapYZ: bool)
      ensures this.limits == limits && this.swapYZ == swapYZ
      ensures systemStatus == Idle && !emergencyStopActive
      ensures nozzlePos == Origin && !nozzleMoving
      ensures pi == NoPi && port == NoPort && sent == []
    {
      this.limits := limits;
      this.swapYZ := swapYZ;
      systemStatus := Idle;
      emergencyStopActive := false;
      nozzlePos := Origin;
      nozzleMoving := false;
      pi := NoPi;
      port := NoPort;
      sent := [];
    }

    twostate predicate Untouched()
      reads this
    {
      && systemStatus == old(systemStatus)
      && emergencyStopActive == old(emergencyStopActive)
      && nozzlePos == old(nozzlePos)
      && nozzleMoving == old(nozzleMoving)
      && pi == old(pi)
      && port == old(port)
      && sent == old(sent)
    }

    /** `printer_serial.write(line)`. */
    method Write(line: GcodeLine) returns (failure: Option<string>)
      modifies this`sent
      ensures failure == WriteFailure(port)
      ensures failure.None? ==> sent == old(sent) + [line]
      ensures failure.Some? ==> sent == old(sent)
    {
      failure := WriteFailure(port);
      if failure.None? {
        sent := sent + [line];
      }
    }

    /** What `move_nozzle` promises for target `t`: the gates write nothing;
        past them the stored position becomes `t` before the line is even
        written, so it is `t` whether the printer confirms, complains or the
        write raises. Status and the moving flag are never touched. */
    twostate predicate MoveOutcome(t: Position, feedrate: int, reply: ReadResult, id: string, now: real, out: BackendOutcome)
      reads this
    {
      if !PositionWithin(limits, t) then
        out == Returned(ErrorAck(id, "Position outside safe limits", now)) && Untouched()
      else if old(emergencyStopActive) then
        out == Returned(ErrorAck(id, "Emergency stop active", now)) && Untouched()
      else
        && nozzlePos == t
        && systemStatus == old(systemStatus)
        && !emergencyStopActive
        && nozzleMoving == old(nozzleMoving)
        && pi == old(pi) && port == old(port)
        && (port == PortOpen ==>
              sent == old(sent) + [EncodeMove(t, feedrate, swapYZ)] && out == MoveReply(reply, id, now))
        && (port != PortOpen ==>
              sent == old(sent) && out == Raised(WriteFailure(port).value))
    }

    /** `move_nozzle(x, y, z, feedrate)`; `reply` is what `readline()` yields. */
    method MoveNozzle(x: real, y: real, z: real, feedrate: int, reply: ReadResult, id: string, now: real)
      returns (out: BackendOutcome)
      modifies this
      ensures MoveOutcome(Position(x, y, z), feedrate, reply, id, now, out)
    {
      if !WithinLimits(limits, x, y, z) {
        return Returned(ErrorAck(id, "Position outside safe limits", now));
      }
      if emergencyStopActive {
        return Returned(ErrorAck(id, "Emergency stop active", now));
      }
      var target := Position(x, y, z);
      var gcode := EncodeMove(target, feedrate, swapYZ);
      nozzlePos := target;
      var failure := Write(gcode);
      if failure.Some? {
        return Raised(failure.value);
      }
      out := MoveReply(reply, id, now);
    }

    /** `move_nozzle_xy`: the stored z is held. */
    method MoveNozzleXY(x: real, y: real, feedrate: int, reply: ReadResult, id: string, now: real)
      returns (out: BackendOutcome)
      modifies this
      ensures MoveOutcome(Position(x, y, old(nozzlePos.z)), feedrate, reply, id, now, out)
    {
      out := MoveNozzle(x, y, nozzlePos.z, feedrate, reply, id, now);
    }

    /** `move_nozzle_z`: the stored x and y are held. */
    method MoveNozzleZ(z: real, feedrate: int, reply: ReadResult, id: string, now: real)
      returns (out: BackendOutcome)
      modifies this
      ensures MoveOutcome(Position(old(nozzlePos.x), old(nozzlePos.y), z), feedrate, reply, id, now, out)
    {
      out := MoveNozzle(nozzlePos.x, nozzlePos.y, z, feedrate, reply, id, now);
    }

    /** `get_nozzle_position`: the last commanded position, in the model's
        frame whatever the wiring. */
    function GetNozzlePosition(): (p: Position)
      reads this
      ensures p == nozzlePos
    {
      Position(nozzlePos.x, nozzlePos.y, nozzlePos.z)
    }

    /** `home_nozzle()`. `replies` are the `readline()` attempts that fit in the
        60-second window; failed reads and lines without "ok" are skipped. */
    method HomeNozzle(replies: seq<ReadResult>, id: string, now: real) returns (out: BackendOutcome)
      modifies this
      ensures old(emergencyStopActive) ==>
                out == Returned(ErrorAck(id, "Emergency stop active", now)) && Untouched()
      ensures !old(emergencyStopActive) && port != PortOpen ==>
                out == Raised(WriteFailure(port).value) && Untouched()
      ensures !old(emergencyStopActive) && port == PortOpen ==>
                && sent == old(sent) + [HomeAll]
                && systemStatus == old(systemStatus) && !emergencyStopActive
                && nozzleMoving == old(nozzleMoving) && pi == old(pi) && port == old(port)
                && ((exists i :: 0 <= i < |replies| && HomingAck(replies[i])) ==>
                      nozzlePos == Origin && out == Returned(OkAck(id, "Homing completed", now)))
                && ((forall i :: 0 <= i < |replies| ==> !HomingAck(replies[i])) ==>
                      && nozzlePos == old(nozzlePos)
                      && out == Returned(ErrorAck(id, HomingTimeout, now)))
    {
      if emergencyStopActive {
        return Returned(ErrorAck(id, "Emergency stop active", now));
      }
      var failure := Write(HomeAll);
      if failure.Some? {
        return Raised(failure.value);
      }
      var complete := false;
      var i := 0;
      while i < |replies|
        invariant 0 <= i <= |replies|
        invariant !complete
        invariant forall j :: 0 <= j < i ==> !HomingAck(replies[j])
        modifies {}
      {
        HomingStep(replies[i]);
        match replies[i] {
          case ReadFailed(_) =>
          case Line(raw) =>
            var response := Strip(raw);
            if response != "" {
              if Contains(Lower(response), "ok") {
                complete := true;
                break;
              }
            }
        }
        i := i + 1;
      }
      assert complete ==> i < |replies| && HomingAck(replies[i]);
      if !complete {
        return Returned(ErrorAck(id, HomingTimeout, now));
      }
      nozzlePos := Origin;
      return Returned(OkAck(id, "Homing completed", now));
    }

    /** `initialize()`. `piConnected` is whether `pigpio.pi()` reached its
        daemon and `openError` what opening the serial port raises, if
        anything; `replies` feed the homing wait. The port is put into
        millimetres and absolute positioning, then homed; the homing result
        is only reported, so a port that opens always yields success, and
        only then is the backend ready. `failure` is the exception raised. */
    method Initialize(piConnected: bool, openError: Option<string>, replies: seq<ReadResult>, id: string, now: real)
      returns (failure: Option<string>)
      modifies this
      ensures systemStatus == old(systemStatus) && emergencyStopActive == old(emergencyStopActive)
      ensures nozzleMoving == old(nozzleMoving)
      ensures pi == (if piConnected then PiConnected else PiDisconnected)
      ensures !piConnected ==>
                failure == Some(PigpioFailure) && port == old(port) && sent == old(sent) && nozzlePos == old(nozzlePos)
      ensures piConnected && openError.Some? ==>
                failure == openError && port == old(port) && sent == old(sent) && nozzlePos == old(nozzlePos)
      ensures piConnected && openError.None? ==>
                && failure.None?
                && port == PortOpen
                && sent == old(sent) + [SetMillimetres, AbsolutePositioning] + (if old(emergencyStopActive) then [] else [HomeAll])
                && nozzlePos == (if !old(emergencyStopActive) && exists i :: 0 <= i < |replies| && HomingAck(replies[i])
                                 then Origin else old(nozzlePos))
      ensures !piConnected ==> !IsReady()
      ensures piConnected && openError.None? ==>
                (IsReady() <==> !old(emergencyStopActive) && old(systemStatus) in {Idle, Moving, Homing})
    {
      pi := if piConnected then PiConnected else PiDisconnected;
      if !piConnected {
        return Some(PigpioFailure);
      }
      if openError.Some? {
        return openError;
      }
      port := PortOpen;
      var units := Write(SetMillimetres);
      var mode := Write(AbsolutePositioning);
      var homed := HomeNozzle(replies, id, now);
      return None;
    }

    /** `shutdown()`: closes an open port and stops the pigpio handle, after
        which the backend is no longer ready. */
    method Shutdown()
      modifies this
      ensures port == (if old(port) == PortOpen then PortClosed else old(port))
      ensures pi == (if old(pi) == NoPi then NoPi else PiDisconnected)
      ensures systemStatus == old(systemStatus) && emergencyStopActive == old(emergencyStopActive)
      ensures nozzlePos == old(nozzlePos) && nozzleMoving == old(nozzleMoving) && sent == old(sent)
      ensures !IsReady()
    {
      if port == PortOpen {
        port := PortClosed;
      }
      if pi != NoPi {
        pi := PiDisconnected;
      }
    }

    /** `emergency_stop`: the flag, moving flag and status are set first, then
        `M112` is written without waiting for a reply; on a port that cannot
        be written the stop is latched but the call raises. */
    method EmergencyStop(id: string, now: real) returns (out: BackendOutcome)
      modifies this
      ensures emergencyStopActive && !nozzleMoving && systemStatus == SystemStatus.EmergencyStop
      ensures nozzlePos == old(nozzlePos) && pi == old(pi) && port == old(port)
      ensures port == PortOpen ==>
                sent == old(sent) + [EmergencyHalt] && out == Returned(OkAck(id, "Emergency stop activated", now))
      ensures port != PortOpen ==> sent == old(sent) && out == Raised(WriteFailure(port).value)
      ensures !IsReady()
    {
      emergencyStopActive := true;
      nozzleMoving := false;
      systemStatus := SystemStatus.EmergencyStop;
      var failure := Write(EmergencyHalt);
      if failure.Some? {
        return Raised(failure.value);
      }
      return Returned(OkAck(id, "Emergency stop activated", now));
    }

    /** `clear_emergency_stop`: writes nothing to the printer. */
    method ClearEmergencyStop(id: string, now: real) returns (ack: CommandAck)
      modifies this
      ensures !emergencyStopActive && systemStatus == Idle
      ensures nozzlePos == old(nozzlePos) && nozzleMoving == old(nozzleMoving)
      ensures pi == old(pi) && port == old(port) && sent == old(sent)
      ensures ack == OkAck(id, "Emergency stop cleared", now)
      ensures IsReady() <==> pi == PiConnected && port == PortOpen
    {
      emergencyStopActive := false;
      systemStatus := Idle;
      return OkAck(id, "Emergency stop cleared", now);
    }

    /** `get_telemetry`: a snapshot with no zoom part. */
    function GetTelemetry(now: real): (t: TelemetryData)
      reads this
      ensures t.nozzle == nozzlePos && t.status == systemStatus && t.timestamp == now
      ensures t.zoom == None && t.errorMessage == None
    {
      TelemetryData(now, GetNozzlePosition(), None, systemStatus, None)
    }

    /** `is_ready`: the simulators' test, and also a connected pigpio handle
        and an open serial port. */
    function IsReady(): (r: bool)
      reads this
      ensures r <==> && !emergencyStopActive && systemStatus in {Idle, Moving, Homing}
                     && pi == PiConnected && port == PortOpen
    {
      && !(emergencyStopActive || systemStatus == Error || systemStatus == SystemStatus.EmergencyStop)
      && pi.PiConnected? && port.PortOpen?
    }

    /** `check_nozzle_limits`. */
    function CheckNozzleLimits(x: real, y: real, z: real): (r: bool)
      reads this
      ensures r <==> PositionWithin(limits, Position(x, y, z))
    {
      WithinLimits(limits, x, y, z)
    }
  }
}
