/** The command dispatcher every backend inherits (hw/abstract_hardware.py):
    a FIFO queue of commands, the marker of the command being processed, the
    safety screening that runs before a command reaches the backend, and the
    history of acknowledgments with its "most recent first" view. */
module Dispatch {
  import opened Types
  import opened Motion

  /** A queued command: `{'id', 'type', 'params', 'timestamp'}`. */
  datatype Command = Command(id: string, kind: string, params: map<string, real>, timestamp: real)

  /** What the screening in `process_command_queue` decides before any
      backend call: an ERROR ack built by the dispatcher itself, an
      exception raised while screening (a missing parameter), or a call to
      the backend method the command names. */
  datatype Verdict = Refuse(message: string) | Fail(message: string) | Route

  /** What the routed backend call did: what it returned or raised, and the
      status and emergency flag it left behind. */
  datatype BackendRun = BackendRun(outcome: BackendOutcome, status: SystemStatus, estopActive: bool)

  /** `get_queue_status()`. */
  datatype QueueStatus = QueueStatus(
    queueLength: nat,
    currentCommandId: Option<string>,
    systemStatus: string,
    emergencyStop: bool,
    commandHistorySize: nat)

  const MoveKinds: set<string> := {"move_nozzle", "move_nozzle_xy", "move_nozzle_z"}

  /** The four command types with a route to a backend method. */
  predicate IsRouted(kind: string)
  {
    kind in MoveKinds || kind == "emergency_stop"
  }

  /** The parameters the limit check reads, in the order it reads them. */
  function LimitKeys(kind: string): seq<string>
  {
    if kind == "move_nozzle" then ["x", "y", "z"]
    else if kind == "move_nozzle_xy" then ["x", "y"]
    else if kind == "move_nozzle_z" then ["z"]
    else []
  }

  /** The first of `keys` absent from `params`: the `KeyError` that
      `params[key]` raises. */
  function FirstMissing(params: map<string, real>, keys: seq<string>): (r: Option<string>)
    ensures r.None? <==> forall k :: k in keys ==> k in params
    ensures r.Some? ==> r.value in keys && r.value !in params
    ensures r.Some? ==> exists j :: 0 <= j < |keys| && keys[j] == r.value &&
                          forall i :: 0 <= i < j ==> keys[i] in params
  {
    if keys == [] then None
    else if keys[0] !in params then Some(keys[0])
    else
      var r := FirstMissing(params, keys[1..]);
      assert r.Some? ==> exists j :: 0 <= j < |keys| && keys[j] == r.value &&
                           forall i :: 0 <= i < j ==> keys[i] in params by {
        if r.Some? {
          var j :| 0 <= j < |keys[1..]| && keys[1..][j] == r.value &&
                   forall i :: 0 <= i < j ==> keys[1..][i] in params;
          assert forall i :: 0 <= i < j + 1 ==> keys[i] in params by {
            forall i | 0 <= i < j + 1
              ensures keys[i] in params
            {
              if i > 0 {
                assert keys[i] == keys[1..][i - 1];
              }
            }
          }
          assert keys[j + 1] == r.value;
        }
      }
      r
  }

  /** The point the limit check tests: the held axes of an XY-only or a
      Z-only move are tested as 0, not as the stored coordinates. */
  function CheckedPoint(kind: string, params: map<string, real>): (p: Position)
    requires kind in MoveKinds && forall k :: k in LimitKeys(kind) ==> k in params
  {
    if kind == "move_nozzle" then Position(params["x"], params["y"], params["z"])
    else if kind == "move_nozzle_xy" then Position(params["x"], params["y"], 0.0)
    else Position(0.0, 0.0, params["z"])
  }

  /** The screening of `process_command_queue`: for a move, parameter lookup
      and the limit check; then the emergency gate; then routing by type. */
  function Screen(limits: SafeLimits, c: Command, estopActive: bool): Verdict
  {
    if c.kind in MoveKinds && FirstMissing(c.params, LimitKeys(c.kind)).Some? then
      Fail("'" + FirstMissing(c.params, LimitKeys(c.kind)).value + "'")
    else if c.kind in MoveKinds && !PositionWithin(limits, CheckedPoint(c.kind, c.params)) then
      Refuse("Position outside safe limits")
    else if estopActive then Refuse("Emergency stop active")
    else if IsRouted(c.kind) then Route
    else Refuse("Unknown command type: " + c.kind)
  }

  /** A command reaches its backend exactly when its type has a route, the
      emergency flag is clear, and, for a move, every parameter the limit
      check reads is present and the checked point is within limits. */
  lemma RouteIff(limits: SafeLimits, c: Command, estopActive: bool)
    ensures Screen(limits, c, estopActive) == Route <==>
              && IsRouted(c.kind)
              && !estopActive
              && (c.kind in MoveKinds ==>
                    (forall k :: k in LimitKeys(c.kind) ==> k in c.params)
                    && PositionWithin(limits, CheckedPoint(c.kind, c.params)))
  {
  }

  /** The limit check comes before the emergency gate: an out-of-bounds
      move is refused for its position whatever the flag. */
  lemma OutOfBoundsRefused(limits: SafeLimits, c: Command, estopActive: bool)
    requires c.kind in MoveKinds && forall k :: k in LimitKeys(c.kind) ==> k in c.params
    requires !PositionWithin(limits, CheckedPoint(c.kind, c.params))
    ensures Screen(limits, c, estopActive) == Refuse("Position outside safe limits")
  {
  }

  /** With the flag set nothing is routed, not even `emergency_stop`; every
      command that passes its parameter and limit checks is refused with
      "Emergency stop active". */
  lemma EstopGate(limits: SafeLimits, c: Command)
    ensures Screen(limits, c, true) != Route
    ensures (c.kind !in MoveKinds ||
             ((forall k :: k in LimitKeys(c.kind) ==> k in c.params)
              && PositionWithin(limits, CheckedPoint(c.kind, c.params)))) ==>
              Screen(limits, c, true) == Refuse("Emergency stop active")
  {
  }

  /** Consequence of testing held axes as 0: when 0 is outside the z range,
      every XY-only move is refused, wherever it goes; likewise Z-only moves
      when 0 is outside the x or y range. */
  lemma HeldAxesTestedAsZero(limits: SafeLimits, c: Command, estopActive: bool)
    requires forall k :: k in LimitKeys(c.kind) ==> k in c.params
    ensures c.kind == "move_nozzle_xy" && !(limits.zMin <= 0.0 <= limits.zMax) ==>
              Screen(limits, c, estopActive) == Refuse("Position outside safe limits")
    ensures c.kind == "move_nozzle_z" && !(limits.xMin <= 0.0 <= limits.xMax && limits.yMin <= 0.0 <= limits.yMax) ==>
              Screen(limits, c, estopActive) == Refuse("Position outside safe limits")
  {
  }

  /** A type without a route reaches no backend: with the flag clear it is
      refused as unknown. */
  lemma UnknownKindRefused(limits: SafeLimits, c: Command)
    requires !IsRouted(c.kind)
    ensures Screen(limits, c, false) == Refuse("Unknown command type: " + c.kind)
  {
  }

  /** The ack `process_command_queue` returns and stores for command `c`. */
  function Settle(c: Command, v: Verdict, run: BackendRun, now: real, trace: string): (ack: CommandAck)
  {
    match v
    case Refuse(m) => ErrorAck(c.id, m, now)
    case Fail(m) => CommandAck(c.id, Err, m, now, Some(trace))
    case Route =>
      match run.outcome
      case Returned(a) => a
      case Raised(m) => CommandAck(c.id, Err, m, now, Some(trace))
  }

  /** Every outcome other than an ack returned by the backend is an ERROR
      ack keyed by the command's own id, and exactly the exceptions carry a
      stack trace: nothing is raised to the caller. */
  lemma SettleErrors(c: Command, v: Verdict, run: BackendRun, now: real, trace: string)
    requires !(v.Route? && run.outcome.Returned?)
    ensures var ack := Settle(c, v, run, now, trace);
            && ack.id == c.id && ack.status == Err && ack.timestamp == now
            && (ack.stackTrace.Some? <==> v.Fail? || v.Route?)
            && (v.Refuse? ==> ack.message == v.message)
            && (v.Fail? ==> ack.message == v.message)
            && (v.Route? ==> ack.message == run.outcome.message)
  {
  }

  /** Keys in the order Python's dict first saw them. */
  function Remember(order: seq<string>, k: string): (r: seq<string>)
  {
    if k in order then order else order + [k]
  }

  predicate NoDuplicates(s: seq<string>)
  {
    forall i, j :: 0 <= i < j < |s| ==> s[i] != s[j]
  }

  lemma RememberKeeps(order: seq<string>, k: string)
    requires NoDuplicates(order)
    ensures NoDuplicates(Remember(order, k))
    ensures forall j :: j in Remember(order, k) <==> j in order || j == k
  {
  }

  /** A list without repeats has as many elements as its set. */
  lemma {:induction false} DistinctCard(s: seq<string>)
    requires NoDuplicates(s)
    ensures |set k | k in s| == |s|
  {
    if s != [] {
      var rest := s[1..];
      DistinctCard(rest);
      assert (set k | k in s) == (set k | k in rest) + {s[0]};
      forall j | 0 <= j < |rest|
        ensures rest[j] != s[0]
      {
        assert rest[j] == s[j + 1];
      }
      assert s[0] !in rest;
    }
  }

  // get_command_history: a stable sort by timestamp, newest first.

  type Entry = (string, CommandAck)

  predicate Newest(s: seq<Entry>)
  {
    forall i, j :: 0 <= i < j < |s| ==> s[i].1.timestamp >= s[j].1.timestamp
  }

  /** `x` placed before the first entry not newer than it, so that of two
      entries with equal timestamps the earlier-listed stays first. */
  function Insert(x: Entry, s: seq<Entry>): (r: seq<Entry>)
    ensures |r| == |s| + 1
  {
    if s == [] || s[0].1.timestamp <= x.1.timestamp then [x] + s
    else [s[0]] + Insert(x, s[1..])
  }

  /** `sorted(..., key=timestamp, reverse=True)`. */
  function SortNewest(s: seq<Entry>): (r: seq<Entry>)
    ensures |r| == |s|
  {
    if s == [] then [] else Insert(s[0], SortNewest(s[1..]))
  }

  lemma {:induction false} InsertPermutes(x: Entry, s: seq<Entry>)
    ensures multiset(Insert(x, s)) == multiset(s) + multiset{x}
  {
    if s != [] && s[0].1.timestamp > x.1.timestamp {
      InsertPermutes(x, s[1..]);
      assert s == [s[0]] + s[1..];
    }
  }

  lemma {:induction false} InsertNewest(x: Entry, s: seq<Entry>)
    requires Newest(s)
    ensures Newest(Insert(x, s))
  {
    if s != [] && s[0].1.timestamp > x.1.timestamp {
      InsertNewest(x, s[1..]);
      InsertPermutes(x, s[1..]);
      var r := Insert(x, s);
      forall j | 1 <= j < |r|
        ensures s[0].1.timestamp >= r[j].1.timestamp
      {
        assert r[j] in multiset(Insert(x, s[1..]));
        assert r[j] == x || r[j] in multiset(s[1..]);
        if r[j] != x {
          var m :| 0 <= m < |s[1..]| && s[1..][m] == r[j];
          assert s[m + 1] == r[j];
        }
      }
    }
  }

  /** The sort keeps every entry, as often as it occurs, and lists them
      newest first. */
  lemma {:induction false} SortNewestCorrect(s: seq<Entry>)
    ensures multiset(SortNewest(s)) == multiset(s)
    ensures Newest(SortNewest(s))
  {
    if s != [] {
      SortNewestCorrect(s[1..]);
      InsertPermutes(s[0], SortNewest(s[1..]));
      InsertNewest(s[0], SortNewest(s[1..]));
      assert s == [s[0]] + s[1..];
    }
  }

  /** How many entries the slice `[:limit]` keeps of `n`: negative limits
      count from the end. */
  function SliceLength(n: nat, limit: int): (m: nat)
    ensures m <= n
    ensures 0 <= limit ==> (m == n || m == limit) && m <= limit
    ensures limit < 0 ==> m + (if -limit <= n then -limit else n) == n
  {
    if 0 <= limit then (if limit < n then limit else n)
    else if n + limit >= 0 then n + limit else 0
  }

  /** The history as `command_history.items()`, in insertion order. */
  function Items(order: seq<string>, history: map<string, CommandAck>): (r: seq<Entry>)
    requires forall k :: k in order ==> k in history
    ensures |r| == |order|
    ensures forall i :: 0 <= i < |r| ==> r[i] == (order[i], history[order[i]])
  {
    if order == [] then [] else [(order[0], history[order[0]])] + Items(order[1..], history)
  }

  class CommandDispatcher {
    const limits: SafeLimits
    var systemStatus: SystemStatus
    var emergencyStopActive: bool
    var commandQueue: seq<Command>
    var currentCommandId: Option<string>
    var commandHistory: map<string, CommandAck>
    /** The history's keys in insertion order, as the dict keeps them. */
    var historyOrder: seq<string>

    /** Every history entry is filed under its ack's id, the order lists
        each key once, and every queued command has an entry. */
    ghost predicate Valid()
      reads this
    {
      && NoDuplicates(historyOrder)
      && (forall k :: k in commandHistory <==> k in historyOrder)
      && (forall k :: k in commandHistory ==> commandHistory[k].id == k)
      && (forall c :: c in commandQueue ==> c.id in commandHistory)
    }

    constructor (limits: SafeLimits)
      ensures Valid()
      ensures this.limits == limits
      ensures systemStatus == Idle && !emergencyStopActive
      ensures commandQueue == [] && currentCommandId == None
      ensures commandHistory == map[] && historyOrder == []
    {
      this.limits := limits;
      systemStatus := Idle;
      emergencyStopActive := false;
      commandQueue := [];
      currentCommandId := None;
      commandHistory := map[];
      historyOrder := [];
    }

    /** A command is current: the marker is set and non-empty, as Python's
        truth test on the id string reads it. */
    predicate Busy()
      reads this
    {
      currentCommandId.Some? && currentCommandId.value != ""
    }

    /** `queue_command(command_type, **kwargs)`; `id` is the fresh uuid and
        `now` the clock. */
    method QueueCommand(kind: string, params: map<string, real>, id: string, now: real) returns (r: string)
      requires Valid()
      modifies this
      ensures Valid()
      ensures r == id
      ensures commandQueue == old(commandQueue) + [Command(id, kind, params, now)]
      ensures commandHistory == old(commandHistory)[id := CommandAck(id, Pending, "Command queued", now, None)]
      ensures historyOrder == Remember(old(historyOrder), id)
      ensures systemStatus == old(systemStatus) && emergencyStopActive == old(emergencyStopActive)
      ensures currentCommandId == old(currentCommandId)
    {
      RememberKeeps(historyOrder, id);
      commandQueue := commandQueue + [Command(id, kind, params, now)];
      commandHistory := commandHistory[id := CommandAck(id, Pending, "Command queued", now, None)];
      historyOrder := Remember(historyOrder, id);
      return id;
    }

    /** `_finalize_command(ack)`: file the ack under its own id, replacing
        any earlier entry with that id. */
    method FinalizeCommand(ack: CommandAck) returns (r: CommandAck)
      requires Valid()
      modifies this`commandHistory, this`historyOrder
      ensures Valid()
      ensures r == ack
      ensures commandHistory == old(commandHistory)[ack.id := ack]
      ensures historyOrder == Remember(old(historyOrder), ack.id)
    {
      RememberKeeps(historyOrder, ack.id);
      commandHistory := commandHistory[ack.id := ack];
      historyOrder := Remember(historyOrder, ack.id);
      return ack;
    }

    /** `process_command_queue()`. The backend call a routed command makes
        is the input `run`; `now` is the clock and `trace` the formatted
        traceback of an exception. */
    method ProcessCommandQueue(run: BackendRun, now: real, trace: string) returns (r: Option<CommandAck>)
      requires Valid()
      modifies this
      ensures Valid()
      ensures old(commandQueue) == [] || old(Busy()) ==>
                && r == None
                && commandQueue == old(commandQueue) && currentCommandId == old(currentCommandId)
                && systemStatus == old(systemStatus) && emergencyStopActive == old(emergencyStopActive)
                && commandHistory == old(commandHistory) && historyOrder == old(historyOrder)
      ensures old(commandQueue) != [] && !old(Busy()) ==>
                var c := old(commandQueue)[0];
                var v := Screen(limits, c, old(emergencyStopActive));
                var ack := Settle(c, v, run, now, trace);
                && r == Some(ack)
                && commandQueue == old(commandQueue)[1..]
                && currentCommandId == None
                && emergencyStopActive == (if v.Route? then run.estopActive else old(emergencyStopActive))
                && systemStatus == (if emergencyStopActive then (if v.Route? then run.status else Moving) else Idle)
                && commandHistory == old(commandHistory)[ack.id := ack]
                && historyOrder == Remember(old(historyOrder), ack.id)
    {
      if commandQueue == [] || Busy() {
        return None;
      }
      var c := commandQueue[0];
      commandQueue := commandQueue[1..];
      currentCommandId := Some(c.id);
      systemStatus := Moving;
      var v := Screen(limits, c, emergencyStopActive);
      var ack: CommandAck;
      match v {
        case Refuse(m) =>
          ack := ErrorAck(c.id, m, now);
        case Fail(m) =>
          ack := CommandAck(c.id, Err, m, now, Some(trace));
        case Route =>
          systemStatus := run.status;
          emergencyStopActive := run.estopActive;
          match run.outcome {
            case Returned(a) =>
              ack := a;
            case Raised(m) =>
              ack := CommandAck(c.id, Err, m, now, Some(trace));
          }
      }
      assert c == old(commandQueue)[0] && v == Screen(limits, c, old(emergencyStopActive));
      assert ack == Settle(c, v, run, now, trace);
      assert emergencyStopActive == (if v.Route? then run.estopActive else old(emergencyStopActive));
      assert systemStatus == (if v.Route? then run.status else Moving);
      // The `finally` block.
      if !emergencyStopActive {
        systemStatus := Idle;
      }
      currentCommandId := None;
      ack := FinalizeCommand(ack);
      return Some(ack);
    }

    /** `get_queue_status()`: the history size is the number of distinct
        ids ever filed. */
    function GetQueueStatus(): (r: QueueStatus)
      requires Valid()
      reads this
      ensures r.queueLength == |commandQueue| && r.currentCommandId == currentCommandId
      ensures ParseStatus(r.systemStatus) == Some(systemStatus)
      ensures r.emergencyStop == emergencyStopActive
      ensures r.commandHistorySize == |historyOrder|
    {
      StatusValueRoundTrip(systemStatus);
      DistinctCard(historyOrder);
      assert commandHistory.Keys == set k | k in historyOrder;
      QueueStatus(|commandQueue|, currentCommandId, StatusValue(systemStatus), emergencyStopActive, |commandHistory|)
    }

    /** `get_command_status(command_id)`: the ack filed under the id. */
    function GetCommandStatus(id: string): (r: Option<CommandAck>)
      requires Valid()
      reads this
      ensures r.Some? <==> id in historyOrder
      ensures r.Some? ==> r.value == commandHistory[id] && r.value.id == id
    {
      if id in commandHistory then Some(commandHistory[id]) else None
    }

    /** `get_command_history(limit)`: the newest entries first, at most
        `limit` of them (a negative limit drops that many from the end). */
    function GetCommandHistory(limit: int): (r: seq<Entry>)
      requires Valid()
      reads this
      ensures |r| == SliceLength(|historyOrder|, limit)
      ensures Newest(r)
      ensures forall e :: e in r ==> e.0 in commandHistory && commandHistory[e.0] == e.1
      ensures forall i, j :: 0 <= i < j < |r| ==> r[i].0 != r[j].0
      ensures forall k :: k in commandHistory && (forall e :: e in r ==> e.0 != k) ==>
                forall e :: e in r ==> e.1.timestamp >= commandHistory[k].timestamp
    {
      var items := Items(historyOrder, commandHistory);
      var sorted := SortNewest(items);
      SortNewestCorrect(items);
      var m := SliceLength(|historyOrder|, limit);
      var r := sorted[..m];
      HistoryViewFacts(historyOrder, commandHistory, items, sorted, m, r);
      r
    }
  }

  /** The facts `GetCommandHistory` promises, about the sorted items and the
      prefix it keeps. */
  lemma HistoryViewFacts(order: seq<string>, history: map<string, CommandAck>,
                         items: seq<Entry>, sorted: seq<Entry>, m: nat, r: seq<Entry>)
    requires NoDuplicates(order) && (forall k :: k in history <==> k in order)
    requires items == Items(order, history)
    requires multiset(sorted) == multiset(items) && Newest(sorted) && m <= |sorted|
    requires r == sorted[..m]
    ensures Newest(r)
    ensures forall e :: e in r ==> e.0 in history && history[e.0] == e.1
    ensures forall i, j :: 0 <= i < j < |r| ==> r[i].0 != r[j].0
    ensures forall k :: k in history && (forall e :: e in r ==> e.0 != k) ==>
              forall e :: e in r ==> e.1.timestamp >= history[k].timestamp
  {
    SortedFromHistory(order, history, items, sorted);
    SortedKeysDistinct(order, history, items, sorted);
    KeptNotOlder(order, history, items, sorted, m, r);
    PrefixKeeps(history, sorted, m, r);
  }

  /** A prefix of the sorted items keeps their order, their provenance and
      their distinct ids. */
  lemma PrefixKeeps(history: map<string, CommandAck>, sorted: seq<Entry>, m: nat, r: seq<Entry>)
    requires m <= |sorted| && r == sorted[..m]
    requires Newest(sorted)
    requires forall e :: e in sorted ==> e.0 in history && history[e.0] == e.1
    requires forall i, j :: 0 <= i < j < |sorted| ==> sorted[i].0 != sorted[j].0
    ensures Newest(r)
    ensures forall e :: e in r ==> e.0 in history && history[e.0] == e.1
    ensures forall i, j :: 0 <= i < j < |r| ==> r[i].0 != r[j].0
  {
    forall e | e in r
      ensures e in sorted
    {
      var i :| 0 <= i < |r| && r[i] == e;
      assert sorted[i] == e;
    }
  }

  lemma SortedFromHistory(order: seq<string>, history: map<string, CommandAck>,
                          items: seq<Entry>, sorted: seq<Entry>)
    requires forall k :: k in order ==> k in history
    requires items == Items(order, history) && multiset(sorted) == multiset(items)
    ensures forall e :: e in sorted ==> e.0 in history && history[e.0] == e.1
  {
    forall e | e in sorted
      ensures e.0 in history && history[e.0] == e.1
    {
      assert e in multiset(items);
      var i :| 0 <= i < |items| && items[i] == e;
    }
  }

  /** An entry at two places of a list occurs in it at least twice. */
  lemma TwiceCounted(s: seq<Entry>, i: nat, j: nat)
    requires i < j < |s| && s[i] == s[j]
    ensures multiset(s)[s[i]] >= 2
  {
    var e := s[i];
    assert s == s[..i] + [e] + s[i + 1..j] + [e] + s[j + 1..];
  }

  /** The sorted items have distinct ids, because the order has. */
  lemma SortedKeysDistinct(order: seq<string>, history: map<string, CommandAck>,
                           items: seq<Entry>, sorted: seq<Entry>)
    requires NoDuplicates(order) && (forall k :: k in order ==> k in history)
    requires items == Items(order, history) && multiset(sorted) == multiset(items)
    ensures forall i, j :: 0 <= i < j < |sorted| ==> sorted[i].0 != sorted[j].0
  {
    SortedFromHistory(order, history, items, sorted);
    forall i, j | 0 <= i < j < |sorted|
      ensures sorted[i].0 != sorted[j].0
    {
      if sorted[i].0 == sorted[j].0 {
        assert sorted[i] in sorted && sorted[j] in sorted;
        assert sorted[i] == sorted[j];
        TwiceCounted(sorted, i, j);
        ItemsOnce(order, history, sorted[i]);
        assert false;
      }
    }
  }

  /** Whatever the prefix leaves out is no newer than what it keeps. */
  lemma KeptNotOlder(order: seq<string>, history: map<string, CommandAck>,
                     items: seq<Entry>, sorted: seq<Entry>, m: nat, r: seq<Entry>)
    requires forall k :: k in history <==> k in order
    requires items == Items(order, history)
    requires multiset(sorted) == multiset(items) && Newest(sorted) && m <= |sorted|
    requires r == sorted[..m]
    ensures forall k :: k in history && (forall e :: e in r ==> e.0 != k) ==>
              forall e :: e in r ==> e.1.timestamp >= history[k].timestamp
  {
    forall k | k in history && (forall e :: e in r ==> e.0 != k)
      ensures forall e :: e in r ==> e.1.timestamp >= history[k].timestamp
    {
      var p :| 0 <= p < |order| && order[p] == k;
      assert items[p] == (k, history[k]);
      assert items[p] in multiset(sorted);
      var q :| 0 <= q < |sorted| && sorted[q] == items[p];
      assert forall i :: 0 <= i < m ==> r[i] == sorted[i];
      assert sorted[q] !in r;
      assert m <= q;
      forall e | e in r
        ensures e.1.timestamp >= history[k].timestamp
      {
        var i :| 0 <= i < m && r[i] == e;
      }
    }
  }

  lemma {:induction false} ItemsOnce(order: seq<string>, history: map<string, CommandAck>, e: Entry)
    requires NoDuplicates(order) && (forall k :: k in order ==> k in history)
    ensures multiset(Items(order, history))[e] <= 1
    decreases |order|
  {
    if order != [] {
      var rest := order[1..];
      ItemsOnce(rest, history, e);
      assert Items(order, history) == [(order[0], history[order[0]])] + Items(rest, history);
      if e == (order[0], history[order[0]]) {
        forall p | 0 <= p < |rest|
          ensures Items(rest, history)[p] != e
        {
          assert order[p + 1] != order[0];
        }
        assert e !in Items(rest, history);
      }
    }
  }
}
