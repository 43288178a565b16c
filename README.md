# Printer gantry control: hardware layer in Dafny

This project models the hardware abstraction and command execution layer of a
remotely operated 3D-printer gantry with an optional lens zoom:

- **Dispatcher** (`Dispatch`, hw/abstract_hardware.py). A FIFO queue of
  commands with a pending acknowledgment per command, and the screening that
  `process_command_queue` performs before routing a command to a backend:
  - parameter lookup, then the safe-limit check, then the emergency gate;
  - the `finally` status rule;
  - the history, filed under each ack's own id;
  - the views `get_queue_status`, `get_command_status` and the
    newest-first `get_command_history`.
- **Test backend** (`TestBackend`, hw/test_hardware.py). A simulator that
  interpolates the nozzle toward its target step by step and polls the
  emergency-stop flag between steps.
- **Local backend** (`LocalBackend`, hw/local_hardware.py). The same nozzle
  simulator plus a zoom actuator:
  - the image distance s' is limited to [min_s_prime, max_s_prime];
  - magnification is `s'/f - 1`;
  - a percentage scale over the configured range;
  - step loops for `zoom_in`/`zoom_out` and `home_zoom`.
- **Connected backend** (`ConnectedBackend`, hw/connected_hardware.py). It
  writes G-code lines (`G21`, `G90`, `G1`, `G28`, `M112`) to a serial port,
  with optional Y/Z swapping, and interprets the printer's reply lines; its
  `initialize` opens pigpio and the port, sets the printer's modes and homes.
- **Printer connection check** (`PrinterConnection`,
  test_printer_connection.py):
  - the `send_gcode` read loop, with its ok/error/timeout results;
  - the `re.search` extraction of temperatures (`T:`/`B:`) and of the position
    (`X: Y: Z:`) from the reply.

Shared modules:

- `Types`: the enums and records.
- `Motion`: the limit check and the interpolation arithmetic.
- `Zoom`: the zoom arithmetic.
- `Text`: Python's `strip`, `lower`, `startswith` and `in` on strings.

Each backend is a class whose methods change its fields in place. Each method's
`ensures` states the complete new state and the returned ack. Where an effect
crosses a class boundary, it is an input to the method:

- `stops: seq<bool>`: an emergency stop from another task landing in one of
  the loop's sleeps. In a loop of `n` steps that polls the flag before each
  step, `stops[i]` for `i < n` lands before the i-th poll and cuts the loop
  short. `stops[n]` lands in the sleep after the last step, which no poll
  follows: the operation still ends IDLE with an OK ack, but the flag stays
  latched. The test backend's `home_nozzle` loop never polls, so every stop
  that lands in it has that effect.
- `replies` / `reply`: what `readline()` yields.
- `run: BackendRun`: what the routed backend method returned or raised, and the
  status and flag it left behind.

The clock (`now`), generated ids (`id`) and formatted tracebacks (`trace`) are
parameters too.

Python `float`s are modelled as `real`. Every backend tests limits with both
ends included.

Behaviours of the code that the model reproduces as written:

- The dispatcher checks the limits of `move_nozzle_xy` and `move_nozzle_z` with
  the held axes at literal 0, not at the stored position (`HeldAxesTestedAsZero`).
- `_finalize_command` files an ack under the ack's own id. A backend ack carries
  a fresh `move_nozzle_<ms>` id, so the command's `Pending` entry is never
  replaced.
- With the emergency flag set, even an `emergency_stop` command is refused
  (`EstopGate`).
- A refused command under an active emergency stop leaves the status `Moving`.
  This happens because the `finally` block only resets the status when the flag
  is clear.
- Each `zoom_in` iteration adds `delta * progress / n`. A complete run therefore
  moves s' by `delta * (n + 1) / (2n)`, and by the full `delta` only when `n = 1`
  (`Zoom.ZoomFullTravelIff`).
- The connected `move_nozzle` stores the target position before it writes and
  reads. The position is therefore the target even when the printer answers
  with an error or the write raises.

## Model

| member | source | states |
|---|---|---|
| Types.ParseStatus | hw/abstract_hardware.py:26-32 | a value parses only to the status that carries it |
| Types.StatusValueRoundTrip | hw/abstract_hardware.py:26-32 | every status's value parses back to that status, so the five values are distinct |
| Text.Lower | hw/connected_hardware.py:124 | `lower()` keeps the length and lower-cases each character in place |
| Text.StripSlice | test_printer_connection.py:111 | `strip()` yields a contiguous slice of the line; only whitespace is removed, and no whitespace is left at either end |
| Text.ContainsIff | hw/connected_hardware.py:124 | `p in s` holds exactly when `p` occurs at some offset of `s` |
| Motion.ProgressInUnit | hw/test_hardware.py:93 | every loop iteration's progress `(i+1)/steps` lies in (0, 1] |
| Motion.ApproachLands | hw/test_hardware.py:82-97 | an uninterrupted interpolation loop ends exactly on the target, whatever the step count |
| Motion.CoveredInUnit | hw/test_hardware.py:82-97 | the covered fraction of the start-to-target distance stays within [0, 1] |
| Motion.ApproachCovered | hw/test_hardware.py:82-97 | after k iterations the nozzle lies on the straight segment from start to target, at the covered fraction |
| Motion.ApproachWithinLimits | hw/test_hardware.py:56-97 | a move between two in-limit positions never stores an out-of-limit position, even when interrupted |
| Motion.FirstStop | hw/test_hardware.py:82-85 | the first poll that sees an emergency stop; no earlier poll sees one |
| Zoom.MagnificationDifference | hw/local_hardware.py:340-343 | magnifications differ by the s' difference divided by the focal length |
| Zoom.PercentageIsExtentFraction | hw/local_hardware.py:345-363 | for a positive focal length the percentage is the position of s' within [min_s_prime, max_s_prime] |
| Zoom.PercentageEnds | hw/local_hardware.py:345-363 | 0 everywhere when the range is empty or reversed; otherwise 0 at min_s_prime and 100 at max_s_prime |
| Zoom.PercentageInRange | hw/local_hardware.py:345-363 | every in-limit s' has a percentage in [0, 100] |
| Zoom.ZoomTravelClosedForm | hw/local_hardware.py:148-163 | after k of n `zoom_in` iterations s' has moved by `delta * k(k+1)/(2n^2)` |
| Zoom.ZoomFullTravelIff | hw/local_hardware.py:132-163 | a complete `zoom_in` moves s' by `delta(n+1)/(2n)`, which is the requested delta exactly when n = 1 |
| Zoom.TravelFractionInUnit | hw/local_hardware.py:148-163 | the share of the requested delta covered so far lies in [0, 1] |
| Zoom.ZoomTravelWithinLimits | hw/local_hardware.py:132-163 | once the target passes the limit check, no partial `zoom_in` run leaves the zoom limits |
| Zoom.HomeApproachBetween | hw/local_hardware.py:200-217 | every `home_zoom` iteration keeps s' between its start and min_s_prime, and the last lands on min_s_prime |
| TestBackend.TestHardware.constructor | hw/test_hardware.py:21-26 | idle, no emergency stop, nozzle at the origin and not moving |
| TestBackend.TestHardware.ApplyStop | hw/test_hardware.py:171-176 | latches the flag, clears the moving flag, sets EMERGENCY_STOP, keeps the position |
| TestBackend.TestHardware.MoveNozzle | hw/test_hardware.py:54-109 | limit refusal, then emergency refusal, both changing nothing; otherwise either lands on the target and is idle, or stops at the first polled emergency stop with the interpolated position; a stop in the last sleep leaves the flag latched under IDLE and an OK ack |
| TestBackend.TestHardware.MoveNozzleXY | hw/test_hardware.py:111-113 | `move_nozzle` with the stored z held |
| TestBackend.TestHardware.MoveNozzleZ | hw/test_hardware.py:115-117 | `move_nozzle` with the stored x and y held |
| TestBackend.TestHardware.GetNozzlePosition | hw/test_hardware.py:119-121 | the stored position |
| TestBackend.TestHardware.HomeNozzle | hw/test_hardware.py:123-168 | refused unchanged under emergency stop; otherwise ends at the origin, idle and not moving, with an OK ack; the flag ends latched exactly when the loop ran (the start was not within 0.01 mm of the origin) and a stop landed in one of its sleeps; inside the loop the position is the move loop's interpolation toward the origin |
| TestBackend.TestHardware.EmergencyStop | hw/test_hardware.py:171-184 | always OK; latches the stop, keeps the position, and leaves the backend not ready |
| TestBackend.TestHardware.ClearEmergencyStop | hw/test_hardware.py:186-198 | always OK; clears the flag, sets IDLE, keeps the position, and leaves the backend ready |
| TestBackend.TestHardware.GetTelemetry | hw/test_hardware.py:229-236 | a snapshot of the position and status at the given time, with no error |
| TestBackend.TestHardware.IsReady | hw/test_hardware.py:238-242 | ready exactly when the flag is clear and the status is neither ERROR nor EMERGENCY_STOP |
| TestBackend.TestHardware.CheckNozzleLimits | hw/test_hardware.py:245-250 | every axis within its bounds, both ends included |
| LocalBackend.LocalHardware.constructor | hw/local_hardware.py:20-32 | idle at the origin; the zoom unhomed at min_s_prime with its magnification and percentage 0 |
| LocalBackend.LocalHardware.ApplyStop | hw/local_hardware.py:242-249 | latches the flag and halts both the nozzle and the zoom, keeping their positions |
| LocalBackend.LocalHardware.MoveNozzle | hw/local_hardware.py:47-99 | as in the test backend; the zoom is untouched except that a stop halts it |
| LocalBackend.LocalHardware.MoveNozzleXY | hw/local_hardware.py:101-103 | `move_nozzle` with the stored z held |
| LocalBackend.LocalHardware.MoveNozzleZ | hw/local_hardware.py:105-107 | `move_nozzle` with the stored x and y held |
| LocalBackend.LocalHardware.GetNozzlePosition | hw/local_hardware.py:109-111 | the stored position |
| LocalBackend.LocalHardware.ZoomIn | hw/local_hardware.py:114-173 | refuses, changing nothing, an unhomed zoom, then an emergency stop; then raises `ZeroDivisionError` when steps_per_mm is 0; then refuses an out-of-limit target; otherwise s' moves by the loop's travel up to the first polled stop; the zoom stays within limits with consistent magnification and percentage; a stop in the last sleep leaves the flag latched under IDLE and an OK ack |
| LocalBackend.LocalHardware.ZoomOut | hw/local_hardware.py:175-177 | exactly `zoom_in(-steps)` |
| LocalBackend.LocalHardware.HomeZoom | hw/local_hardware.py:179-229 | refused unchanged under emergency stop; a run no poll interrupts ends homed at min_s_prime with percentage 0, IDLE and OK, with the flag latched exactly when a stop landed in the last sleep; an interrupted one leaves s' between its start and min_s_prime |
| LocalBackend.LocalHardware.GetZoomState | hw/local_hardware.py:231-239 | a copy of the zoom record |
| LocalBackend.LocalHardware.EmergencyStop | hw/local_hardware.py:242-256 | always OK; latches the stop, halts both axes, and leaves the backend not ready |
| LocalBackend.LocalHardware.ClearEmergencyStop | hw/local_hardware.py:258-270 | always OK; clears the flag, sets IDLE, keeps nozzle and zoom, and leaves the backend ready |
| LocalBackend.LocalHardware.GetTelemetry | hw/local_hardware.py:301-315 | a snapshot of the position, zoom and status |
| LocalBackend.LocalHardware.IsReady | hw/local_hardware.py:317-326 | ready exactly when the flag is clear and the status is neither ERROR nor EMERGENCY_STOP |
| LocalBackend.LocalHardware.CheckNozzleLimits | hw/local_hardware.py:329-334 | every axis within its bounds, both ends included |
| LocalBackend.LocalHardware.CheckZoomLimits | hw/local_hardware.py:336-338 | `min_s_prime <= s' <= max_s_prime` |
| ConnectedBackend.EncodeMove | hw/connected_hardware.py:108-118 | the `G1` line carries x, the feedrate, and y and z in place or swapped by `swap_yz_axes` |
| ConnectedBackend.DecodeMove | hw/connected_hardware.py:108-118 | the position a `G1` line commands under a given wiring |
| ConnectedBackend.EncodeMoveRoundTrip | hw/connected_hardware.py:108-118 | read back with the same wiring, the written line commands exactly the requested position |
| ConnectedBackend.SwapIsRewiring | hw/connected_hardware.py:110-114 | the swapped line is the plain line for the y/z-swapped target; swapping twice is the identity |
| ConnectedBackend.WriteFailure | hw/connected_hardware.py:120 | a write fails exactly when the port is missing or closed |
| ConnectedBackend.MoveReply | hw/connected_hardware.py:123-137 | OK exactly when the stripped, lower-cased reply contains "ok"; otherwise an ERROR "Printer error: " followed by the stripped reply; a failed read raises |
| ConnectedBackend.ConnectedHardware.constructor | hw/connected_hardware.py:21-28 | idle at the origin with no pigpio handle, no port, nothing written |
| ConnectedBackend.ConnectedHardware.Initialize | hw/connected_hardware.py:30-68 | without a pigpio daemon raises, with the handle disconnected and nothing written; a port that fails to open raises its error; otherwise the port is open, `G21`, `G90` and (without an active emergency stop) `G28` are written, the call succeeds whatever homing reports, and the backend is ready exactly when the flag is clear and the status not a failure |
| ConnectedBackend.ConnectedHardware.Shutdown | hw/connected_hardware.py:70-76 | closes an open port and stops the pigpio handle, leaving the backend not ready |
| ConnectedBackend.ConnectedHardware.Write | hw/connected_hardware.py:120 | on an open port the line is appended to what was written; otherwise nothing is written and the call fails |
| ConnectedBackend.ConnectedHardware.MoveNozzle | hw/connected_hardware.py:85-137 | limit and emergency refusals write nothing; otherwise the position becomes the target, the `G1` line is written, and the reply decides the ack |
| ConnectedBackend.ConnectedHardware.MoveNozzleXY | hw/connected_hardware.py:139-141 | `move_nozzle` with the stored z held |
| ConnectedBackend.ConnectedHardware.MoveNozzleZ | hw/connected_hardware.py:143-145 | `move_nozzle` with the stored x and y held |
| ConnectedBackend.ConnectedHardware.GetNozzlePosition | hw/connected_hardware.py:147-153 | the last commanded position |
| ConnectedBackend.ConnectedHardware.HomeNozzle | hw/connected_hardware.py:155-204 | refused without writing under emergency stop; otherwise writes `G28`; the origin and OK if some reply contains "ok", else a timeout error with the position unchanged |
| ConnectedBackend.ConnectedHardware.EmergencyStop | hw/connected_hardware.py:207-221 | latches the stop and then writes `M112`; on an unwritable port the stop is latched but the call raises |
| ConnectedBackend.ConnectedHardware.ClearEmergencyStop | hw/connected_hardware.py:223-233 | clears the flag and sets IDLE without writing; ready then exactly when pigpio and the port are up |
| ConnectedBackend.ConnectedHardware.GetTelemetry | hw/connected_hardware.py:262-269 | a snapshot of the position and status |
| ConnectedBackend.ConnectedHardware.IsReady | hw/connected_hardware.py:271-277 | ready exactly when the flag is clear, the status is not a failure, pigpio is connected and the port open |
| ConnectedBackend.ConnectedHardware.CheckNozzleLimits | hw/connected_hardware.py:280-285 | every axis within its bounds, both ends included |
| PrinterConnection.Classify | test_printer_connection.py:117-122 | a line is a success exactly when it starts with "ok" in lower case; an error exactly when it does not, but contains "error" or "resend" |
| PrinterConnection.Recorded1 | test_printer_connection.py:110-127 | a read adds one line exactly when it succeeded and is non-blank after strip |
| PrinterConnection.FirstDecisive | test_printer_connection.py:109-127 | the first read that ends the loop; no earlier read does |
| PrinterConnection.SendGcode | test_printer_connection.py:89-133 | a closed port writes nothing; otherwise exactly `command + "\n"` is written; the result is the read loop's verdict |
| PrinterConnection.SendGcodeSuccessIff | test_printer_connection.py:96-133 | success exactly when the port is open and some read yields an "ok" line with no error line before it |
| PrinterConnection.RecordedAreStripped | test_printer_connection.py:111-113 | every recorded line is non-blank with no surrounding whitespace |
| PrinterConnection.RecordedSkips | test_printer_connection.py:112-127 | failed reads and blank lines add nothing to the responses |
| PrinterConnection.DecisiveLineIsLast | test_printer_connection.py:117-122 | the decisive line is the last recorded line |
| PrinterConnection.LaterReadsIgnored | test_printer_connection.py:117-122 | reads after the decisive one leave the result unchanged, since the loop has returned |
| PrinterConnection.RecordedPrefix | test_printer_connection.py:110-113 | the lines recorded by the first n reads do not depend on later reads |
| PrinterConnection.TimeoutResult | test_printer_connection.py:129-133 | with no decisive read the result is a failure, with the recorded lines joined by "; " or the no-response message |
| PrinterConnection.RunLength | test_printer_connection.py:163 | the greedy character-class run: all in the class, and the next character is not |
| PrinterConnection.Match | test_printer_connection.py:163-164 | a match has one group per run in the pattern |
| PrinterConnection.MatchFits | test_printer_connection.py:163-164 | every run `Match` finds is non-empty and all of its run's class |
| PrinterConnection.MatchOccurs | test_printer_connection.py:163-164 | the pattern's text with the runs `Match` finds is what the string holds at the offset |
| PrinterConnection.MatchMaximal | test_printer_connection.py:163-164 | no run `Match` finds could have taken one more character |
| PrinterConnection.MatchSound | test_printer_connection.py:163-164 | whatever `Match` finds is the pattern's text at the offset, with runs that fit and are maximal |
| PrinterConnection.MatchComplete | test_printer_connection.py:163-164 | where the pattern's text occurs with fitting, maximal runs, `Match` finds exactly those runs |
| PrinterConnection.MatchIff | test_printer_connection.py:163-164 | both directions of the two lemmas above |
| PrinterConnection.Search | test_printer_connection.py:163-164 | `re.search`: the leftmost offset that matches; None exactly when no offset matches |
| PrinterConnection.FieldPattern | test_printer_connection.py:163-164 | `key([\d.]+)` has one group, and its text is the key followed by the group |
| PrinterConnection.SearchField | test_printer_connection.py:163-164 | the group of the leftmost `key([\d.]+)` match |
| PrinterConnection.TemperatureReport | test_printer_connection.py:159-166 | temperatures are reported exactly when the query succeeded and both `T:` and `B:` fields are found |
| PrinterConnection.AutoMaximal | test_printer_connection.py:188 | in a self-delimiting pattern only the last run's maximality needs checking |
| PrinterConnection.DelimitedMatchFound | test_printer_connection.py:188 | a self-delimiting pattern whose text occurs at an offset with fitting runs, whatever the last run's length, is matched there: wherever backtracking succeeds, `Match` does |
| PrinterConnection.DelimitedMatchIff | test_printer_connection.py:188 | a self-delimiting pattern matches at an offset exactly when its text occurs there with fitting runs and a maximal last run |
| PrinterConnection.PositionPatternDelimited | test_printer_connection.py:188 | `X:([\d.-]+)\s+Y:([\d.-]+)\s+Z:([\d.-]+)` is self-delimiting, since whitespace and labels stop each run |
| PrinterConnection.FieldPatternDelimited | test_printer_connection.py:163-164 | the field patterns are self-delimiting |
| PrinterConnection.PositionReport | test_printer_connection.py:184-191 | a position is reported exactly when the query succeeded and the pattern is found; the values are the X, Y and Z runs, Python's groups 1, 2 and 3 (the model also returns the two `\s+` runs, so they sit at indices 0, 2 and 4 of its run list) |
| Dispatch.FirstMissing | hw/abstract_hardware.py:324-344 | the first parameter the limit check reads that is absent, or None exactly when all are present |
| Dispatch.CheckedPoint | hw/abstract_hardware.py:325-344 | the point the limit check tests, with held axes at 0 |
| Dispatch.RouteIff | hw/abstract_hardware.py:323-371 | a command reaches a backend exactly when its type has a route, its parameters are present, its point is in limits and no emergency stop is active |
| Dispatch.OutOfBoundsRefused | hw/abstract_hardware.py:323-351 | an out-of-limit move is refused for its position even under emergency stop |
| Dispatch.EstopGate | hw/abstract_hardware.py:353-361 | with the flag set nothing is routed; every command that passes the limit check is refused as "Emergency stop active" |
| Dispatch.HeldAxesTestedAsZero | hw/abstract_hardware.py:335-344 | when 0 is outside a held axis's range, every `move_nozzle_xy` / `move_nozzle_z` command is refused |
| Dispatch.UnknownKindRefused | hw/abstract_hardware.py:372-378 | a type without a route is refused by name when the flag is clear |
| Dispatch.SettleErrors | hw/abstract_hardware.py:327-388 | every outcome except an ack returned by the backend is an ERROR filed under the command's id; exceptions carry the trace |
| Dispatch.RememberKeeps | hw/abstract_hardware.py:293 | dict insertion order: the key list stays duplicate-free and gains exactly the new key |
| Dispatch.DistinctCard | hw/abstract_hardware.py:414 | a duplicate-free key list is as long as the dict |
| Dispatch.Insert | hw/abstract_hardware.py:440-444 | one insertion step of the stable newest-first sort adds one entry |
| Dispatch.SortNewest | hw/abstract_hardware.py:440-444 | the sort keeps the length |
| Dispatch.InsertPermutes | hw/abstract_hardware.py:440-444 | an insertion adds exactly the inserted entry |
| Dispatch.InsertNewest | hw/abstract_hardware.py:440-444 | an insertion keeps the list newest first |
| Dispatch.SortNewestCorrect | hw/abstract_hardware.py:440-444 | the sort is a permutation of the items, newest first |
| Dispatch.SliceLength | hw/abstract_hardware.py:445 | how many entries `[:limit]` keeps, for non-negative and negative limits |
| Dispatch.Items | hw/abstract_hardware.py:441 | `items()`: each key paired with its ack, in insertion order |
| Dispatch.CommandDispatcher.constructor | hw/abstract_hardware.py:80-89 | idle, no emergency stop, empty queue and history, no current command |
| Dispatch.CommandDispatcher.QueueCommand | hw/abstract_hardware.py:271-300 | appends the command, files a PENDING "Command queued" ack under its id, and returns the id |
| Dispatch.CommandDispatcher.FinalizeCommand | hw/abstract_hardware.py:397-400 | files the ack under its own id and returns it |
| Dispatch.CommandDispatcher.ProcessCommandQueue | hw/abstract_hardware.py:302-395 | does nothing if the queue is empty or a command is current; otherwise pops the head, screens it, routes or refuses it, and files the ack; the status afterwards is IDLE unless the flag is set; the marker is cleared |
| Dispatch.CommandDispatcher.GetQueueStatus | hw/abstract_hardware.py:402-415 | queue length, marker, status value, flag, and the number of distinct history entries |
| Dispatch.CommandDispatcher.GetCommandStatus | hw/abstract_hardware.py:417-427 | the ack filed under the id, or None exactly when none is filed |
| Dispatch.CommandDispatcher.GetCommandHistory | hw/abstract_hardware.py:429-445 | at most `limit` history entries (Python slice rules), newest first, each as filed, without repeated ids; none left out is newer than one kept |
| Dispatch.HistoryViewFacts | hw/abstract_hardware.py:440-445 | the prefix of the sorted items is newest first, taken from the history, free of repeated ids, and no newer than what it leaves out |
| Dispatch.KeptNotOlder | hw/abstract_hardware.py:440-445 | every entry the slice drops is no newer than every entry it keeps |
| Dispatch.ItemsOnce | hw/abstract_hardware.py:441 | each (id, ack) pair occurs at most once among the items |

## Left out

- Concurrency. The asyncio lock, `asyncio.sleep` and the background tasks are not modelled; dispatch is sequential. An emergency stop that another task raises during a step loop's sleeps is the input `stops`, both where a poll follows and after the last step. The connected `home_nozzle` yields only after a failed read; a stop landing there, which would latch the flag and write `M112` in the middle of the homing wait, is not modelled.
- Float numerics. `float` is `real`. The move distance, the move time and the step count `max(1, int(move_time * 10))` are float work; the step count is a parameter of at least 1.
- Division by the feedrate. A zero feedrate raises `ZeroDivisionError` after the moving flag and status are set. The model takes the step count instead and does not model that exception.
- TestBackend.TestHardware.HomeNozzle: the 0.01 mm origin shortcut (`NearOrigin`) compares the squared distance with 0.0001 instead of taking `** 0.5`. Both sides are non-negative, so the two tests agree on reals; float rounding of the square root is not modelled.
- Clocks and ids. `time.time()`, `uuid.uuid4()` and the `f"..._{ms}"` ack ids are parameters `now` and `id`. `QueueCommand` uses one `now` for both the command's and the pending ack's timestamp.
- Device I/O. Whether pigpio connects and whether the port opens are the inputs of `Initialize`; the device name, baud rate and timeout, the `time.sleep` pauses, the GPIO pin setup and the printed homing warning are not modelled. Serial reads are the inputs `reply`/`replies`; the 60-second homing window is the length of `replies`.
- LocalBackend.LocalHardware.constructor: requires a nonzero focal length. Python computes the initial magnification in the constructor (hw/local_hardware.py:25), which raises `ZeroDivisionError` for a zero focal length, so no object exists; the model has no constructor that raises.
- LocalBackend.LocalHardware.ZoomIn: the raised message is "division by zero", that of an integer steps_per_mm; a float 0.0 gives "float division by zero" in Python.
- The `:.3f` rendering of G-code fields. `GcodeLine` holds the numbers themselves, not their decimal text.
- UTF-8 decoding errors. A read that raises, for any reason, is `ReadFailed`.
- Camera methods: `start_camera_stream`, `stop_camera_stream` and `capture_high_res` on every backend.
- test_printer_connection.py: `find_serial_ports`, `connect_printer`, `main`, and the remaining printed tests of `test_connection` (firmware name, the safe-mode pair). These only probe the platform and print.
- hw/hardware_factory.py and server.py (routes, socket handlers, the telemetry thread, the camera, configuration loading) are not part of this model.
- Python instantiability. `LocalHardware` defines no `home_nozzle`, and the local `get_telemetry` passes a `zoom=` argument that `TelemetryData` does not declare. The model gives `TelemetryData` an optional `zoom` field and models the methods as written.
- Logging and traceback formatting. A stack trace is the opaque string `trace`.
- Backend inheritance. The dispatcher cannot see which backend it runs on. The routed call (`move_nozzle(**params)` and the others) is the input `run`, including the `TypeError` a missing `feedrate` raises.
- Dispatch.CommandDispatcher.GetCommandHistory: does not state that the sort is stable. The insertion sort keeps equal timestamps in insertion order, but no lemma says so.
- Strings. `lower()` folds ASCII letters only. `\d` is ASCII digits. `\s` and `strip()` use Python's whitespace set.
- Regular expressions. `Match` is a greedy matcher without backtracking over `[...]+` runs and literals. For self-delimiting patterns, `DelimitedMatchFound` proves that it succeeds at every offset where the pattern's text occurs with fitting runs (which is where a backtracking engine succeeds), and `DelimitedMatchIff` that the runs it returns are those with a greedy last run. Both patterns used are self-delimiting. Python's engine itself is not modelled.
