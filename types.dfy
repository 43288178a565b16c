/** Values shared by the dispatcher and the three backends: the enums and
    dataclasses of hw/abstract_hardware.py, plus the zoom state record the
    local simulator keeps. */
module Types {

  datatype Option<+T> = None | Some(value: T)

  /** Status of one command acknowledgment. */
  datatype CommandStatus = Pending | Ok | Err

  /** Overall status of a backend; exactly one at a time. */
  datatype SystemStatus = Idle | Moving | Error | Homing | EmergencyStop

  /** The string value each status carries (`SystemStatus.value`). */
  function StatusValue(s: SystemStatus): string
  {
    match s
    case Idle => "idle"
    case Moving => "moving"
    case Error => "error"
    case Homing => "homing"
    case EmergencyStop => "emergency_stop"
  }

  /** Lookup of a status by its value (`SystemStatus(v)`); None where Python raises. */
  function ParseStatus(v: string): (r: Option<SystemStatus>)
    ensures r.Some? ==> StatusValue(r.value) == v
  {
    if v == "idle" then Some(Idle)
    else if v == "moving" then Some(Moving)
    else if v == "error" then Some(Error)
    else if v == "homing" then Some(Homing)
    else if v == "emergency_stop" then Some(EmergencyStop)
    else None
  }

  /** Every status value parses back to its status, so values are distinct. */
  lemma StatusValueRoundTrip(s: SystemStatus)
    ensures ParseStatus(StatusValue(s)) == Some(s)
  {
  }

  function CommandStatusValue(s: CommandStatus): string
  {
    match s
    case Pending => "pending"
    case Ok => "ok"
    case Err => "err"
  }

  /** Nozzle coordinates in millimetres. */
  datatype Position = Position(x: real, y: real, z: real)

  const Origin := Position(0.0, 0.0, 0.0)

  datatype CommandAck = CommandAck(
    id: string,
    status: CommandStatus,
    message: string,
    timestamp: real,
    stackTrace: Option<string>)

  function ErrorAck(id: string, message: string, now: real): CommandAck
  {
    CommandAck(id, Err, message, now, None)
  }

  function OkAck(id: string, message: string, now: real): CommandAck
  {
    CommandAck(id, Ok, message, now, None)
  }

  /** Zoom actuator state: image distance s' in mm and the values derived from it. */
  datatype ZoomState = ZoomState(
    sPrimeMm: real,
    magnification: real,
    percentage: real,
    isHomed: bool,
    isMoving: bool)

  /** A point-in-time snapshot; `zoom` is filled only by the local simulator. */
  datatype TelemetryData = TelemetryData(
    timestamp: real,
    nozzle: Position,
    zoom: Option<ZoomState>,
    status: SystemStatus,
    errorMessage: Option<string>)

  /** What a backend operation did: returned an ack, or raised an exception
      whose `str()` is `message`. */
  datatype BackendOutcome = Returned(ack: CommandAck) | Raised(message: string)

  /** One `readline()` attempt on the serial port: the decoded line, or an
      exception whose `str()` is `error`. */
  datatype ReadResult = Line(raw: string) | ReadFailed(error: string)
}
