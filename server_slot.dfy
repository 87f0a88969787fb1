/** The server-process slot of backend/src/main.rs: the three fields of
    `AppState`, the handlers `/status`, `/start` and `/stop`, and the cleanup
    the monitor task performs when the child process exits.

    Every handler locks the one mutex at its start and keeps it to its end, so
    each operation is one atomic step. The operating system's answers (did the
    spawn succeed, did the write of "stop\n" to stdin succeed) are parameters.
    Handles are modelled by their presence only. */
module ServerSlot {

  import opened Wrappers

  /** The abstract value of `AppState`: `is_minecraft_running`, whether
      `child_stdin` is `Some`, whether `server_monitor_handle` is `Some`. */
  datatype Slot = Slot(running: bool, hasStdin: bool, hasMonitor: bool)

  /** The state `main` builds before serving requests. */
  const Initial: Slot := Slot(false, false, false)

  /** The invariant the code keeps: the stdin handle and the monitor handle are
      present together, and only while the running flag is set. The converse
      (running implies both handles) does NOT hold: see GracefulStopKeepsRunning. */
  predicate Inv(s: Slot) {
    (s.hasStdin <==> s.hasMonitor) && (s.hasStdin ==> s.running)
  }

  /** The new slot and the JSON message of one handler. */
  datatype Step = Step(slot: Slot, response: string)

  /** `get_status`: reads the flag, changes nothing. */
  function StatusOf(s: Slot): string {
    if s.running then "running" else "stopped"
  }

  /** `start_server`: no-op while running; a failed spawn returns before the
      slot is touched; a successful spawn fills all three fields. */
  function StartStep(s: Slot, spawnOk: bool): Step {
    if s.running then Step(s, "already_running")
    else if !spawnOk then Step(s, "error_spawning")
    else Step(Slot(true, true, true), "starting")
  }

  /** `stop_server`: `child_stdin.take()` removes the handle whatever the write
      does; a failed write aborts and clears the monitor handle and clears the
      flag; a successful write only drops the monitor handle (the task keeps
      running) and leaves the flag set; no stdin clears flag and monitor. */
  function StopStep(s: Slot, writeOk: bool): Step {
    if !s.running then Step(s, "already_stopped")
    else if s.hasStdin then
      if !writeOk then Step(Slot(false, false, false), "error_stopping")
      else Step(Slot(s.running, false, false), "stopping_gracefully")
    else Step(Slot(false, false, false), "error_no_stdin")
  }

  /** The tail of `monitor_server_process`: an unconditional reset. */
  function MonitorExitStep(s: Slot): Slot {
    Slot(false, false, false)
  }

  /** Everything that can happen to the slot, one atomic step each. */
  datatype Event = StatusRequest | StartRequest(spawnOk: bool) | StopRequest(writeOk: bool) | MonitorExit

  function Next(s: Slot, e: Event): Slot {
    match e
    case StatusRequest => s
    case StartRequest(ok) => StartStep(s, ok).slot
    case StopRequest(ok) => StopStep(s, ok).slot
    case MonitorExit => MonitorExitStep(s)
  }

  /** The HTTP reply an event produces; the monitor task replies to no one. */
  function Reply(s: Slot, e: Event): Option<string> {
    match e
    case StatusRequest => Some(StatusOf(s))
    case StartRequest(ok) => Some(StartStep(s, ok).response)
    case StopRequest(ok) => Some(StopStep(s, ok).response)
    case MonitorExit => None
  }

  /** The slot after a serialised sequence of events. */
  function Run(s: Slot, es: seq<Event>): Slot
    decreases |es|
  {
    if es == [] then s else Run(Next(s, es[0]), es[1..])
  }

  /** How many replies in a sequence of events are "starting", i.e. how many
      child processes were spawned and registered. */
  function CountStarting(s: Slot, es: seq<Event>): nat
    decreases |es|
  {
    if es == [] then 0
    else (if Reply(s, es[0]) == Some("starting") then 1 else 0) + CountStarting(Next(s, es[0]), es[1..])
  }

  /** The mutable `AppState` behind the mutex. */
  class AppState {
    var running: bool
    var hasStdin: bool
    var hasMonitor: bool

    function Snapshot(): Slot
      reads this
    {
      Slot(running, hasStdin, hasMonitor)
    }

    ghost predicate Valid()
      reads this
    {
      Inv(Snapshot())
    }

    /** The value `main` creates. */
    constructor ()
      ensures Snapshot() == Initial && Valid()
    {
      running := false;
      hasStdin := false;
      hasMonitor := false;
    }

    /** GET /status. */
    method Status() returns (status: string)
      ensures status == StatusOf(Snapshot())
    {
      status := StatusOf(Snapshot());
    }

    /** GET /start; `spawnOk` is the outcome of `cmd.spawn()`. */
    method Start(spawnOk: bool) returns (message: string)
      modifies this
      ensures Step(Snapshot(), message) == StartStep(old(Snapshot()), spawnOk)
      ensures old(Valid()) ==> Valid()
    {
      if running {
        return "already_running";
      }
      if !spawnOk {
        return "error_spawning";
      }
      running := true;
      hasStdin := true;
      hasMonitor := true;
      message := "starting";
    }

    /** GET /stop; `writeOk` is the outcome of `stdin.write_all(b"stop\n")`. */
    method Stop(writeOk: bool) returns (message: string)
      modifies this
      ensures Step(Snapshot(), message) == StopStep(old(Snapshot()), writeOk)
      ensures old(running) ==> Valid()
      ensures old(Valid()) ==> Valid()
    {
      if !running {
        return "already_stopped";
      }
      if hasStdin {
        hasStdin := false;
        if !writeOk {
          if hasMonitor {
            hasMonitor := false;
          }
          running := false;
          return "error_stopping";
        }
        hasMonitor := false;
        message := "stopping_gracefully";
      } else {
        running := false;
        hasMonitor := false;
        message := "error_no_stdin";
      }
    }

    /** The monitor task's cleanup after `child.wait()` returns. */
    method MonitorExit()
      modifies this
      ensures Snapshot() == MonitorExitStep(old(Snapshot()))
      ensures Valid()
    {
      running := false;
      hasStdin := false;
      hasMonitor := false;
    }
  }

  // ---------------------------------------------------------------------------
  // Properties of the individual handlers

  /** `/status` answers "running" exactly when the flag is set, and a status
      request changes nothing. */
  lemma StatusReflectsFlag(s: Slot)
    ensures StatusOf(s) == "running" <==> s.running
    ensures StatusOf(s) == "stopped" <==> !s.running
    ensures Next(s, StatusRequest) == s
  {
  }

  /** Start while running: "already_running", nothing changes. */
  lemma StartWhileRunning(s: Slot, spawnOk: bool)
    requires s.running
    ensures StartStep(s, spawnOk) == Step(s, "already_running")
  {
  }

  /** Start from a stopped slot: a failed spawn leaves it as it was (stopped,
      and with no handles when the invariant holds); a successful one sets all
      three fields together. */
  lemma StartFromStopped(s: Slot, spawnOk: bool)
    requires !s.running
    ensures !spawnOk ==> StartStep(s, spawnOk) == Step(s, "error_spawning")
    ensures !spawnOk && Inv(s) ==> StartStep(s, spawnOk).slot == Initial
    ensures spawnOk ==> StartStep(s, spawnOk) == Step(Slot(true, true, true), "starting")
  {
  }

  /** Stop on a stopped slot: "already_stopped", nothing changes. */
  lemma StopWhenStopped(s: Slot, writeOk: bool)
    requires !s.running
    ensures StopStep(s, writeOk) == Step(s, "already_stopped")
  {
  }

  /** Stop with a stdin handle: the handle always leaves the slot; a failed
      write also clears monitor and flag, a successful one clears the monitor
      handle but keeps the flag set. */
  lemma StopWithStdin(s: Slot, writeOk: bool)
    requires s.running && s.hasStdin
    ensures !StopStep(s, writeOk).slot.hasStdin && !StopStep(s, writeOk).slot.hasMonitor
    ensures !writeOk ==> StopStep(s, writeOk) == Step(Initial, "error_stopping")
    ensures writeOk ==> StopStep(s, writeOk) == Step(Slot(true, false, false), "stopping_gracefully")
  {
  }

  /** Stop while the flag is set but no stdin is stored: flag and monitor are
      cleared and "error_no_stdin" is returned. */
  lemma StopWithoutStdin(s: Slot, writeOk: bool)
    requires s.running && !s.hasStdin
    ensures StopStep(s, writeOk) == Step(Initial, "error_no_stdin")
  {
  }

  /** The monitor's cleanup resets everything, whatever the state, so a later
      `/status` reports "stopped". */
  lemma MonitorExitResets(s: Slot)
    ensures Next(s, MonitorExit) == Initial
    ensures StatusOf(Next(s, MonitorExit)) == "stopped"
  {
  }

  /** Every single event keeps the invariant, and every stop request on a
      running slot establishes it whatever came before. */
  lemma StepPreservesInv(s: Slot, e: Event)
    ensures Inv(s) ==> Inv(Next(s, e))
    ensures e.StopRequest? && s.running ==> Inv(Next(s, e))
  {
  }

  // ---------------------------------------------------------------------------
  // Properties of sequences of events

  /** The invariant holds after any serialised sequence of events. */
  lemma {:induction false} RunPreservesInv(s: Slot, es: seq<Event>)
    requires Inv(s)
    ensures Inv(Run(s, es))
    decreases |es|
  {
    if es != [] {
      StepPreservesInv(s, es[0]);
      RunPreservesInv(Next(s, es[0]), es[1..]);
    }
  }

  /** The states reachable from the initial one are exactly those satisfying
      the invariant: stopped and empty, running with both handles, and running
      with no handle at all (after a graceful stop). */
  lemma ReachableIffInv(s: Slot)
    ensures Inv(s) <==> exists es :: Run(Initial, es) == s
  {
    if Inv(s) {
      if !s.running {
        assert Run(Initial, []) == s;
      } else if s.hasStdin {
        var es := [StartRequest(true)];
        assert Run(Initial, es) == Run(Slot(true, true, true), []) == s;
      } else {
        GracefulStopKeepsRunning();
        assert Run(Initial, [StartRequest(true), StopRequest(true)]) == s;
      }
    }
    forall es | Run(Initial, es) == s
      ensures Inv(s)
    {
      RunPreservesInv(Initial, es);
    }
  }

  /** After a graceful stop the flag stays set while both handles are gone, so
      "running iff both handles are present" is not an invariant of the code;
      `/status` keeps reporting "running" until the monitor cleans up, and a
      second `/stop` in that window takes the no-stdin branch. */
  lemma GracefulStopKeepsRunning()
    ensures Run(Initial, [StartRequest(true), StopRequest(true)]) == Slot(true, false, false)
    ensures StatusOf(Slot(true, false, false)) == "running"
    ensures StopStep(Slot(true, false, false), true) == Step(Initial, "error_no_stdin")
    ensures StopStep(Slot(true, false, false), false) == Step(Initial, "error_no_stdin")
  {
    var es := [StartRequest(true), StopRequest(true)];
    assert Run(Initial, es) == Run(Next(Initial, es[0]), es[1..]);
  }

  /** Start requests alone, however many and whatever the spawn outcomes, spawn
      at most one process: exactly one "starting" when the slot was stopped and
      some spawn succeeds, none otherwise. */
  lemma {:induction false} StartsSpawnAtMostOnce(s: Slot, es: seq<Event>)
    requires forall i | 0 <= i < |es| :: es[i].StartRequest?
    ensures CountStarting(s, es) == if !s.running && exists i | 0 <= i < |es| :: es[i].spawnOk then 1 else 0
    decreases |es|
  {
    if es != [] {
      var rest := es[1..];
      assert forall i | 0 <= i < |rest| :: rest[i] == es[i + 1];
      StartsSpawnAtMostOnce(Next(s, es[0]), rest);
      if !s.running && !es[0].spawnOk {
        if exists i | 0 <= i < |es| :: es[i].spawnOk {
          var i :| 0 <= i < |es| && es[i].spawnOk;
          assert rest[i - 1].spawnOk;
        }
      }
    }
  }
}
