/** The local simulator backend (hw/local_hardware.py): the nozzle moves of
    the test simulator plus a zoom actuator whose image distance s' is kept
    within its limits once homed, with magnification and percentage always
    derived from s'. */
module LocalBackend {
  import opened Types
  import opened Motion
  import opened Zoom

  class LocalHardware {
    const limits: SafeLimits
    const zoomConfig: ZoomConfig
    var systemStatus: SystemStatus
    var emergencyStopActive: bool
    var nozzlePos: Position
    var nozzleMoving: bool
    var zoom: ZoomState

    /** The zoom's derived values match s', and a homed zoom lies within its
        limits whenever those limits describe a non-empty range. */
    predicate Valid()
      reads this
    {
      && ValidConfig(zoomConfig)
      && zoom.magnification == Magnification(zoomConfig, zoom.sPrimeMm)
      && zoom.percentage == ZoomPercentage(zoomConfig, zoom.sPrimeMm)
      && (zoom.isHomed && zoomConfig.minSPrime <= zoomConfig.maxSPrime ==>
            WithinZoomLimits(zoomConfig, zoom.sPrimeMm))
    }

    /** The zoom starts unhomed at min_s_prime with percentage 0. Computing
        its magnification divides by the focal length, which must therefore
        be nonzero. */
    constructor (limits: SafeLimits, zoomConfig: ZoomConfig)
      requires ValidConfig(zoomConfig)
      ensures Valid()
      ensures this.limits == limits && this.zoomConfig == zoomConfig
      ensures systemStatus == Idle && !emergencyStopActive
      ensures nozzlePos == Origin && !nozzleMoving
      ensures zoom == ZoomState(zoomConfig.minSPrime, Magnification(zoomConfig, zoomConfig.minSPrime), 0.0, false, false)
    {
      this.limits := limits;
      this.zoomConfig := zoomConfig;
      systemStatus := Idle;
      emergencyStopActive := false;
      nozzlePos := Origin;
      nozzleMoving := false;
      zoom := ZoomState(zoomConfig.minSPrime, Magnification(zoomConfig, zoomConfig.minSPrime), 0.0, false, false);
      new;
      PercentageEnds(zoomConfig, zoomConfig.minSPrime);
    }

    twostate predicate Untouched()
      reads this
    {
      && systemStatus == old(systemStatus)
      && emergencyStopActive == old(emergencyStopActive)
      && nozzlePos == old(nozzlePos)
      && nozzleMoving == old(nozzleMoving)
      && zoom == old(zoom)
    }

    /** What `move_nozzle` promises for target `t`; the zoom is left alone
        except that a stop landing in the last sleep halts it. */
    twostate predicate MoveOutcome(t: Position, steps: nat, stops: seq<bool>, id: string, now: real, ack: CommandAck)
      requires 1 <= steps
      reads this
    {
      if !PositionWithin(limits, t) then
        ack == ErrorAck(id, "Position outside safe limits", now) && Untouched()
      else if old(emergencyStopActive) then
        ack == ErrorAck(id, "Emergency stop active", now) && Untouched()
      else
        var k := FirstStop(stops, steps);
        && !nozzleMoving
        && zoom.sPrimeMm == old(zoom.sPrimeMm)
        && zoom.isHomed == old(zoom.isHomed)
        && (k == steps ==>
              var late := StopArrives(stops, steps);
              && nozzlePos == t
              && systemStatus == Idle
              && emergencyStopActive == late
              && zoom == (if late then old(zoom).(isMoving := false) else old(zoom))
              && ack == OkAck(id, "Movement completed", now))
        && (k < steps ==>
              && nozzlePos == Approach(old(nozzlePos), t, steps, k)
              && systemStatus == SystemStatus.EmergencyStop
              && emergencyStopActive
              && !zoom.isMoving
              && ack == ErrorAck(id, "Emergency stop during movement", now))
    }

    /** The field updates of `emergency_stop`, which also halt the zoom; what
        another task's emergency stop does when it lands mid-operation. */
    method ApplyStop()
      requires Valid()
      modifies this
      ensures Valid()
      ensures emergencyStopActive && !nozzleMoving && systemStatus == SystemStatus.EmergencyStop
      ensures nozzlePos == old(nozzlePos)
      ensures zoom == old(zoom).(isMoving := false)
    {
      emergencyStopActive := true;
      nozzleMoving := false;
      zoom := zoom.(isMoving := false);
      systemStatus := SystemStatus.EmergencyStop;
    }

    /** `move_nozzle(x, y, z, feedrate)`; `steps` is the loop's step count
        and `stops[i]` says an emergency stop lands before the i-th poll.
        `stops[steps]` is a stop landing in the last sleep: nothing polls
        after it, so the flag stays latched under an Idle status and an OK
        acknowledgement. */
    method MoveNozzle(x: real, y: real, z: real, steps: nat, stops: seq<bool>, id: string, now: real)
      returns (ack: CommandAck)
      requires 1 <= steps && Valid()
      modifies this
      ensures Valid()
      ensures MoveOutcome(Position(x, y, z), steps, stops, id, now, ack)
    {
      if !WithinLimits(limits, x, y, z) {
        return ErrorAck(id, "Position outside safe limits", now);
      }
      if emergencyStopActive {
        return ErrorAck(id, "Emergency stop active", now);
      }
      nozzleMoving := true;
      systemStatus := Moving;
      ghost var start := nozzlePos;
      ghost var zoom0 := zoom;
      var t := Position(x, y, z);
      var i := 0;
      while i < steps
        invariant 0 <= i <= FirstStop(stops, steps)
        invariant Valid()
        invariant nozzlePos == Approach(start, t, steps, i)
        invariant nozzleMoving && systemStatus == Moving && !emergencyStopActive
        invariant zoom == zoom0
      {
        if StopArrives(stops, i) {
          ApplyStop();
        }
        if emergencyStopActive {
          nozzleMoving := false;
          systemStatus := SystemStatus.EmergencyStop;
          return ErrorAck(id, "Emergency stop during movement", now);
        }
        nozzlePos := StepToward(nozzlePos, t, Progress(i, steps));
        i := i + 1;
      }
      ApproachLands(start, t, steps);
      if StopArrives(stops, steps) {
        ApplyStop();
      }
      nozzleMoving := false;
      systemStatus := Idle;
      return OkAck(id, "Movement completed", now);
    }

    /** `move_nozzle_xy`: the stored z is held. */
    method MoveNozzleXY(x: real, y: real, steps: nat, stops: seq<bool>, id: string, now: real)
      returns (ack: CommandAck)
      requires 1 <= steps && Valid()
      modifies this
      ensures Valid()
      ensures MoveOutcome(Position(x, y, old(nozzlePos.z)), steps, stops, id, now, ack)
    {
      ack := MoveNozzle(x, y, nozzlePos.z, steps, stops, id, now);
    }

    /** `move_nozzle_z`: the stored x and y are held. */
    method MoveNozzleZ(z: real, steps: nat, stops: seq<bool>, id: string, now: real)
      returns (ack: CommandAck)
      requires 1 <= steps && Valid()
      modifies this
      ensures Valid()
      ensures MoveOutcome(Position(old(nozzlePos.x), old(nozzlePos.y), z), steps, stops, id, now, ack)
    {
      ack := MoveNozzle(nozzlePos.x, nozzlePos.y, z, steps, stops, id, now);
    }

    /** `get_nozzle_position`: a copy of the stored position. */
    function GetNozzlePosition(): (p: Position)
      reads this
      ensures p == nozzlePos
    {
      Position(nozzlePos.x, nozzlePos.y, nozzlePos.z)
    }

    /** What `zoom_in(steps)` promises: it refuses an unhomed zoom, an active
        emergency stop and a target s' + steps/steps_per_mm outside the zoom
        limits, in that order, and raises the division's ZeroDivisionError
        when steps_per_mm is zero; otherwise the loop moves s' by the travel
        of its first `k` iterations, where `k` is the first poll a stop
        reaches. */
    twostate predicate ZoomOutcome(steps: int, n: nat, stops: seq<bool>, id: string, now: real, out: BackendOutcome)
      requires 1 <= n
      reads this
    {
      if !old(zoom.isHomed) then
        out == Returned(ErrorAck(id, "Zoom not homed", now)) && Untouched()
      else if old(emergencyStopActive) then
        out == Returned(ErrorAck(id, "Emergency stop active", now)) && Untouched()
      else if zoomConfig.stepsPerMm == 0.0 then
        out == Raised(DivisionByZero) && Untouched()
      else
        var delta := steps as real / zoomConfig.stepsPerMm;
        if !WithinZoomLimits(zoomConfig, old(zoom.sPrimeMm) + delta) then
          out == Returned(ErrorAck(id, "Zoom position outside limits", now)) && Untouched()
        else
          var k := FirstStop(stops, n);
          && zoom.sPrimeMm == old(zoom.sPrimeMm) + ZoomTravel(delta, n, k)
          && WithinZoomLimits(zoomConfig, zoom.sPrimeMm)
          && zoom.isHomed
          && !zoom.isMoving
          && nozzlePos == old(nozzlePos)
          && (k == n ==>
                var late := StopArrives(stops, n);
                && systemStatus == Idle
                && emergencyStopActive == late
                && nozzleMoving == (old(nozzleMoving) && !late)
                && out == Returned(OkAck(id, "Zoom in completed", now)))
          && (k < n ==>
                && systemStatus == SystemStatus.EmergencyStop
                && emergencyStopActive
                && !nozzleMoving
                && out == Returned(ErrorAck(id, "Emergency stop during zoom", now)))
    }

    /** `zoom_in(steps)`; `n` is the loop's step count and `stops` is read as
        in `MoveNozzle`, with `stops[n]` landing in the last sleep. */
    method ZoomIn(steps: int, n: nat, stops: seq<bool>, id: string, now: real) returns (out: BackendOutcome)
      requires 1 <= n && Valid()
      modifies this
      ensures Valid()
      ensures ZoomOutcome(steps, n, stops, id, now, out)
    {
      if !zoom.isHomed {
        return Returned(ErrorAck(id, "Zoom not homed", now));
      }
      if emergencyStopActive {
        return Returned(ErrorAck(id, "Emergency stop active", now));
      }
      if zoomConfig.stepsPerMm == 0.0 {
        return Raised(DivisionByZero);
      }
      var delta := steps as real / zoomConfig.stepsPerMm;
      if !WithinZoomLimits(zoomConfig, zoom.sPrimeMm + delta) {
        return Returned(ErrorAck(id, "Zoom position outside limits", now));
      }
      zoom := zoom.(isMoving := true);
      systemStatus := Moving;
      ghost var s0 := zoom.sPrimeMm;
      ghost var moving0 := nozzleMoving;
      ghost var pos0 := nozzlePos;
      var i := 0;
      while i < n
        invariant 0 <= i <= FirstStop(stops, n)
        invariant Valid()
        invariant zoom.sPrimeMm == s0 + ZoomTravel(delta, n, i)
        invariant zoom.isHomed && zoom.isMoving
        invariant systemStatus == Moving && !emergencyStopActive
        invariant nozzleMoving == moving0 && nozzlePos == pos0
      {
        if StopArrives(stops, i) {
          ApplyStop();
        }
        if emergencyStopActive {
          zoom := zoom.(isMoving := false);
          systemStatus := SystemStatus.EmergencyStop;
          ZoomTravelWithinLimits(zoomConfig, s0, delta, n, i);
          return Returned(ErrorAck(id, "Emergency stop during zoom", now));
        }
        var s := zoom.sPrimeMm + ZoomIncrement(delta, i, n);
        zoom := zoom.(sPrimeMm := s, magnification := Magnification(zoomConfig, s),
                      percentage := ZoomPercentage(zoomConfig, s));
        ZoomTravelWithinLimits(zoomConfig, s0, delta, n, i + 1);
        i := i + 1;
      }
      ZoomTravelWithinLimits(zoomConfig, s0, delta, n, n);
      if StopArrives(stops, n) {
        ApplyStop();
      }
      zoom := zoom.(isMoving := false);
      systemStatus := Idle;
      return Returned(OkAck(id, "Zoom in completed", now));
    }

    /** `zoom_out(steps)` is `zoom_in(-steps)`. */
    method ZoomOut(steps: int, n: nat, stops: seq<bool>, id: string, now: real) returns (out: BackendOutcome)
      requires 1 <= n && Valid()
      modifies this
      ensures Valid()
      ensures ZoomOutcome(-steps, n, stops, id, now, out)
    {
      out := ZoomIn(-steps, n, stops, id, now);
    }

    /** `home_zoom()`; `n` is the loop's step count. A run that is not
        interrupted ends homed at min_s_prime with percentage 0; an
        interrupted one leaves s' between its start and min_s_prime and the
        homed flag as it was. A stop landing in the last sleep (`stops[n]`)
        is never polled: the run still ends homed, Idle and acknowledged,
        with the flag latched. */
    method HomeZoom(n: nat, stops: seq<bool>, id: string, now: real) returns (ack: CommandAck)
      requires 1 <= n && Valid()
      modifies this
      ensures Valid()
      ensures old(emergencyStopActive) ==>
                ack == ErrorAck(id, "Emergency stop active", now) && Untouched()
      ensures !old(emergencyStopActive) ==>
                var k := FirstStop(stops, n);
                && !zoom.isMoving
                && nozzlePos == old(nozzlePos)
                && (k == n ==>
                      && zoom.sPrimeMm == zoomConfig.minSPrime
                      && zoom.percentage == 0.0
                      && zoom.isHomed
                      && systemStatus == Idle
                      && emergencyStopActive == StopArrives(stops, n)
                      && nozzleMoving == (old(nozzleMoving) && !StopArrives(stops, n))
                      && ack == OkAck(id, "Zoom homed successfully", now))
                && (k < n ==>
                      && zoom.sPrimeMm == HomeApproach(zoomConfig, old(zoom.sPrimeMm), n, k)
                      && zoom.isHomed == old(zoom.isHomed)
                      && systemStatus == SystemStatus.EmergencyStop
                      && emergencyStopActive
                      && !nozzleMoving
                      && ack == ErrorAck(id, "Emergency stop during homing", now))
    {
      if emergencyStopActive {
        return ErrorAck(id, "Emergency stop active", now);
      }
      zoom := zoom.(isMoving := true);
      systemStatus := Homing;
      ghost var s0 := zoom.sPrimeMm;
      ghost var homed0 := zoom.isHomed;
      ghost var moving0 := nozzleMoving;
      ghost var pos0 := nozzlePos;
      var minS := zoomConfig.minSPrime;
      var i := 0;
      while i < n
        invariant 0 <= i <= FirstStop(stops, n)
        invariant Valid()
        invariant zoom.sPrimeMm == HomeApproach(zoomConfig, s0, n, i)
        invariant zoom.isHomed == homed0 && zoom.isMoving
        invariant systemStatus == Homing && !emergencyStopActive
        invariant nozzleMoving == moving0 && nozzlePos == pos0
      {
        if StopArrives(stops, i) {
          ApplyStop();
        }
        if emergencyStopActive {
          zoom := zoom.(isMoving := false);
          systemStatus := SystemStatus.EmergencyStop;
          return ErrorAck(id, "Emergency stop during homing", now);
        }
        var s := HomeStep(zoomConfig, zoom.sPrimeMm, i, n);
        HomeApproachBetween(zoomConfig, s0, n, i + 1);
        zoom := zoom.(sPrimeMm := s, magnification := Magnification(zoomConfig, s),
                      percentage := ZoomPercentage(zoomConfig, s));
        i := i + 1;
      }
      if StopArrives(stops, n) {
        ApplyStop();
      }
      PercentageEnds(zoomConfig, minS);
      zoom := ZoomState(minS, Magnification(zoomConfig, minS), 0.0, true, false);
      systemStatus := Idle;
      return OkAck(id, "Zoom homed successfully", now);
    }

    /** `get_zoom_state`: a copy of the zoom record. */
    function GetZoomState(): (z: ZoomState)
      reads this
      ensures z == zoom
    {
      ZoomState(zoom.sPrimeMm, zoom.magnification, zoom.percentage, zoom.isHomed, zoom.isMoving)
    }

    /** `emergency_stop`: always succeeds, latches the flag and halts both axes. */
    method EmergencyStop(id: string, now: real) returns (ack: CommandAck)
      requires Valid()
      modifies this
      ensures Valid()
      ensures emergencyStopActive && !nozzleMoving && !zoom.isMoving
      ensures systemStatus == SystemStatus.EmergencyStop
      ensures nozzlePos == old(nozzlePos) && zoom.sPrimeMm == old(zoom.sPrimeMm) && zoom.isHomed == old(zoom.isHomed)
      ensures ack == OkAck(id, "Emergency stop activated", now)
      ensures !IsReady()
    {
      ApplyStop();
      return OkAck(id, "Emergency stop activated", now);
    }

    /** `clear_emergency_stop`: not gated by the flag itself. */
    method ClearEmergencyStop(id: string, now: real) returns (ack: CommandAck)
      requires Valid()
      modifies this
      ensures Valid()
      ensures !emergencyStopActive && systemStatus == Idle
      ensures nozzlePos == old(nozzlePos) && nozzleMoving == old(nozzleMoving) && zoom == old(zoom)
      ensures ack == OkAck(id, "Emergency stop cleared", now)
      ensures IsReady()
    {
      emergencyStopActive := false;
      systemStatus := Idle;
      return OkAck(id, "Emergency stop cleared", now);
    }

    /** `get_telemetry`: a snapshot that includes the zoom record. */
    function GetTelemetry(now: real): (t: TelemetryData)
      reads this
      ensures t.nozzle == nozzlePos && t.zoom == Some(zoom)
      ensures t.status == systemStatus && t.timestamp == now && t.errorMessage == None
    {
      TelemetryData(now, GetNozzlePosition(), Some(GetZoomState()), systemStatus, None)
    }

    /** `is_ready`: the zoom's homing state plays no part. */
    function IsReady(): (r: bool)
      reads this
      ensures r <==> !emergencyStopActive && systemStatus in {Idle, Moving, Homing}
    {
      !(emergencyStopActive || systemStatus == Error || systemStatus == SystemStatus.EmergencyStop)
    }

    /** `check_nozzle_limits`. */
    function CheckNozzleLimits(x: real, y: real, z: real): (r: bool)
      reads this
      ensures r <==> PositionWithin(limits, Position(x, y, z))
    {
      WithinLimits(limits, x, y, z)
    }

    /** `check_zoom_limits`. */
    function CheckZoomLimits(s: real): (r: bool)
      reads this
      ensures r <==> zoomConfig.minSPrime <= s <= zoomConfig.maxSPrime
    {
      WithinZoomLimits(zoomConfig, s)
    }
  }
}
