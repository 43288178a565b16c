/** The test simulator backend (hw/test_hardware.py): nozzle moves that
    interpolate step by step toward the target, homing to the origin, and
    the emergency-stop flag. No device I/O. */
module TestBackend {
  import opened Types
  import opened Motion

  /** `distance < 0.01` in `home_nozzle`, compared as squares: both sides
      are non-negative, so the square root changes nothing. */
  predicate NearOrigin(p: Position)
  {
    p.x * p.x + p.y * p.y + p.z * p.z < 0.0001
  }

  class TestHardware {
    const limits: SafeLimits
    var systemStatus: SystemStatus
    var emergencyStopActive: bool
    var nozzlePos: Position
    var nozzleMoving: bool

    constructor (limits: SafeLimits)
      ensures this.limits == limits
      ensures systemStatus == Idle && !emergencyStopActive
      ensures nozzlePos == Origin && !nozzleMoving
    {
      this.limits := limits;
      systemStatus := Idle;
      emergencyStopActive := false;
      nozzlePos := Origin;
      nozzleMoving := false;
    }

    /** No field changed between the two states. */
    twostate predicate Untouched()
      reads this
    {
      && systemStatus == old(systemStatus)
      && emergencyStopActive == old(emergencyStopActive)
      && nozzlePos == old(nozzlePos)
      && nozzleMoving == old(nozzleMoving)
    }

    /** What `move_nozzle` promises for target `t`: the limit check first,
        then the emergency gate, then the interpolation loop, which either
        runs to the end and lands exactly on `t` or is cut short by the
        first emergency stop that arrives. A stop that lands in the last
        sleep is never polled: the move still ends Idle and acknowledged,
        with the flag latched. */
    twostate predicate MoveOutcome(t: Position, steps: nat, stops: seq<bool>, id: string, now: real, ack: CommandAck)
      requires 1 <= steps
      reads this
    {
      if !PositionWithin(limits, t) then
        ack == ErrorAck(id, "Position outside safe limits", now) && Untouched()
      else if old(emergencyStopActive) then
        ack == ErrorAck(id, "Emergency stop active", now) && Untouched()
      else
        var k := FirstStop(stops, steps);
        && !nozzleMoving
        && (k == steps ==>
              && nozzlePos == t
              && systemStatus == Idle
              && emergencyStopActive == StopArrives(stops, steps)
              && ack == OkAck(id, "Movement completed (simulated)", now))
        && (k < steps ==>
              && nozzlePos == Approach(old(nozzlePos), t, steps, k)
              && systemStatus == SystemStatus.EmergencyStop
              && emergencyStopActive
              && ack == ErrorAck(id, "Emergency stop during movement", now))
    }

    /** The field updates of `emergency_stop`; also what another task's
        emergency stop does when it lands in the middle of a move. */
    method ApplyStop()
      modifies this
      ensures emergencyStopActive && !nozzleMoving && systemStatus == SystemStatus.EmergencyStop
      ensures nozzlePos == old(nozzlePos)
    {
      emergencyStopActive := true;
      nozzleMoving := false;
      systemStatus := SystemStatus.EmergencyStop;
    }

    /** `move_nozzle(x, y, z, feedrate)`. The feedrate only sets the loop's
        step count, which is the parameter `steps`; `stops[i]` says that an
        emergency stop from another task lands before the i-th poll, and
        `stops[steps]` that one lands in the sleep after the last step. */
    method MoveNozzle(x: real, y: real, z: real, steps: nat, stops: seq<bool>, id: string, now: real)
      returns (ack: CommandAck)
      requires 1 <= steps
      modifies this
      ensures MoveOutcome(Position(x, y, z), steps, stops, id, now, ack)
    {
      if !WithinLimits(limits, x, y, z) {
        return ErrorAck(id, "Position outside safe limits", now);
      }
      if emergencyStopActive {
        return ErrorAck(id, "Emergency stop active", now);
      }
      nozzleMoving := true;
      systemStatus := Moving;
      ghost var start := nozzlePos;
      var t := Position(x, y, z);
      var i := 0;
      while i < steps
        invariant 0 <= i <= FirstStop(stops, steps)
        invariant nozzlePos == Approach(start, t, steps, i)
        invariant nozzleMoving && systemStatus == Moving && !emergencyStopActive
      {
        if StopArrives(stops, i) {
          ApplyStop();
        }
        if emergencyStopActive {
          nozzleMoving := false;
          systemStatus := SystemStatus.EmergencyStop;
          return ErrorAck(id, "Emergency stop during movement", now);
        }
        nozzlePos := StepToward(nozzlePos, t, Progress(i, steps));
        i := i + 1;
      }
      ApproachLands(start, t, steps);
      if StopArrives(stops, steps) {
        ApplyStop();
      }
      nozzleMoving := false;
      systemStatus := Idle;
      return OkAck(id, "Movement completed (simulated)", now);
    }

    /** `move_nozzle_xy`: the stored z is held. */
    method MoveNozzleXY(x: real, y: real, steps: nat, stops: seq<bool>, id: string, now: real)
      returns (ack: CommandAck)
      requires 1 <= steps
      modifies this
      ensures MoveOutcome(Position(x, y, old(nozzlePos.z)), steps, stops, id, now, ack)
    {
      ack := MoveNozzle(x, y, nozzlePos.z, steps, stops, id, now);
    }

    /** `move_nozzle_z`: the stored x and y are held. */
    method MoveNozzleZ(z: real, steps: nat, stops: seq<bool>, id: string, now: real)
      returns (ack: CommandAck)
      requires 1 <= steps
      modifies this
      ensures MoveOutcome(Position(old(nozzlePos.x), old(nozzlePos.y), z), steps, stops, id, now, ack)
    {
      ack := MoveNozzle(nozzlePos.x, nozzlePos.y, z, steps, stops, id, now);
    }

    /** `get_nozzle_position`: a copy of the stored position. */
    function GetNozzlePosition(): (p: Position)
      reads this
      ensures p == nozzlePos
    {
      Position(nozzlePos.x, nozzlePos.y, nozzlePos.z)
    }

    /** `home_nozzle`. The loop scales every axis by `1 - progress`, which
        is the move loop's step toward the origin, and the position is then
        set to the origin; a start within 0.01 mm of the origin skips the
        loop. `steps` is the loop's step count. The loop never polls the
        flag: `stops[i]` says that an emergency stop lands in the sleep
        after step `i`, and such a stop is overwritten by the final Idle
        status but leaves the flag latched. */
    method HomeNozzle(steps: nat, stops: seq<bool>, id: string, now: real) returns (ack: CommandAck)
      requires 1 <= steps
      modifies this
      ensures old(emergencyStopActive) ==>
                ack == ErrorAck(id, "Emergency stop active", now) && Untouched()
      ensures !old(emergencyStopActive) ==>
                && nozzlePos == Origin
                && !nozzleMoving
                && systemStatus == Idle
                && emergencyStopActive == (!NearOrigin(old(nozzlePos)) && FirstStop(stops, steps) < steps)
                && ack == OkAck(id, "Homing completed (simulated)", now)
    {
      if emergencyStopActive {
        return ErrorAck(id, "Emergency stop active", now);
      }
      nozzleMoving := true;
      systemStatus := Moving;
      if NearOrigin(nozzlePos) {
        nozzlePos := Origin;
        nozzleMoving := false;
        systemStatus := Idle;
      } else {
        ghost var start := nozzlePos;
        var i := 0;
        while i < steps
          invariant 0 <= i <= steps
          invariant nozzlePos == Approach(start, Origin, steps, i)
          invariant emergencyStopActive == (FirstStop(stops, steps) < i)
        {
          var progress := (i + 1) as real / steps as real;
          var p := nozzlePos;
          StepTowardOrigin(p, progress);
          nozzlePos := Position(p.x * (1.0 - progress), p.y * (1.0 - progress), p.z * (1.0 - progress));
          if StopArrives(stops, i) {
            ApplyStop();
          }
          i := i + 1;
        }
        nozzlePos := Origin;
        nozzleMoving := false;
        systemStatus := Idle;
      }
      return OkAck(id, "Homing completed (simulated)", now);
    }

    /** `emergency_stop`: always succeeds and latches the flag. */
    method EmergencyStop(id: string, now: real) returns (ack: CommandAck)
      modifies this
      ensures emergencyStopActive && !nozzleMoving && systemStatus == SystemStatus.EmergencyStop
      ensures nozzlePos == old(nozzlePos)
      ensures ack == OkAck(id, "Emergency stop activated", now)
      ensures !IsReady()
    {
      ApplyStop();
      return OkAck(id, "Emergency stop activated", now);
    }

    /** `clear_emergency_stop`: not gated by the flag itself. */
    method ClearEmergencyStop(id: string, now: real) returns (ack: CommandAck)
      modifies this
      ensures !emergencyStopActive && systemStatus == Idle
      ensures nozzlePos == old(nozzlePos) && nozzleMoving == old(nozzleMoving)
      ensures ack == OkAck(id, "Emergency stop cleared", now)
      ensures IsReady()
    {
      emergencyStopActive := false;
      systemStatus := Idle;
      return OkAck(id, "Emergency stop cleared", now);
    }

    /** `get_telemetry`: a snapshot, with no zoom part. */
    function GetTelemetry(now: real): (t: TelemetryData)
      reads this
      ensures t.nozzle == nozzlePos && t.status == systemStatus && t.timestamp == now
      ensures t.zoom == None && t.errorMessage == None
    {
      TelemetryData(now, GetNozzlePosition(), None, systemStatus, None)
    }

    /** `is_ready`: ready exactly when the flag is clear and the status is
        one of the non-failure states. */
    function IsReady(): (r: bool)
      reads this
      ensures r <==> !emergencyStopActive && systemStatus in {Idle, Moving, Homing}
    {
      !(emergencyStopActive || systemStatus == Error || systemStatus == SystemStatus.EmergencyStop)
    }

    /** `check_nozzle_limits`. */
    function CheckNozzleLimits(x: real, y: real, z: real): (r: bool)
      reads this
      ensures r <==> PositionWithin(limits, Position(x, y, z))
    {
      WithinLimits(limits, x, y, z)
    }
  }
}
