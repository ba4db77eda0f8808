// The process table of the shell manager under pid reuse, and its output cap.
module ShellManager {
  import opened Prelude

  // ---------------------------------------------------------------------------
  // The table

  /** A spawned process; the identity stands for the object the spawn returned. */
  datatype Process = Process(identity: nat, pid: int)

  datatype Tracked = Tracked(process: Process, groupKill: bool)

  type Table = map<int, Tracked>

  function Track(table: Table, process: Process, groupKill: bool): Table {
    table[process.pid := Tracked(process, groupKill)]
  }

  /** The exit callback: the entry goes only if it is still this process. */
  function Untrack(table: Table, process: Process): Table {
    if process.pid in table && table[process.pid].process == process then table - {process.pid} else table
  }

  /** Every other pid keeps its entry; this pid loses it exactly when it was this process's. */
  ghost predicate ExitHandled(before: Table, process: Process, after: Table) {
    && after - {process.pid} == before - {process.pid}
    && (process.pid in after <==> process.pid in before && before[process.pid].process != process)
    && (process.pid in after ==> after[process.pid] == before[process.pid])
  }

  /** That leaves one table: the one the histories below speak of. */
  lemma ExitIsDetermined(before: Table, process: Process, after: Table)
    ensures ExitHandled(before, process, after) <==> after == Untrack(before, process)
  {
    var pid := process.pid;
    if ExitHandled(before, process, after) {
      forall k
        ensures k in after <==> k in Untrack(before, process)
        ensures k in after ==> after[k] == Untrack(before, process)[k]
      {
        if k != pid {
          assert k in after <==> k in after - {pid};
          assert k in before <==> k in before - {pid};
          assert k in after ==> (after - {pid})[k] == after[k] && (before - {pid})[k] == before[k];
        }
      }
    }
  }

  /** The signals a kill request may name. */
  const ALLOWED_KILL_SIGNALS := {"SIGHUP", "SIGINT", "SIGTERM", "SIGKILL", "SIGUSR1", "SIGUSR2"}

  datatype KillError = BadPid | UnsupportedSignal | NotManaged

  class Manager {
    var managedProcesses: Table

    constructor ()
      ensures managedProcesses == map[]
    {
      managedProcesses := map[];
    }

    method TrackProcess(process: Process, groupKill: bool)
      modifies this
      ensures managedProcesses == Track(old(managedProcesses), process, groupKill)
    {
      managedProcesses := managedProcesses[process.pid := Tracked(process, groupKill)];
    }

    method OnExited(process: Process)
      modifies this
      ensures ExitHandled(old(managedProcesses), process, managedProcesses)
    {
      if process.pid in managedProcesses {
        var current := managedProcesses[process.pid];
        if current.process == process {
          managedProcesses := managedProcesses - {process.pid};
        }
      }
    }

    /** The process a kill request is about to signal. */
    method KillTarget(pid: int, signal: string) returns (r: Result<Process, KillError>)
      ensures r.Ok? <==> pid > 1 && signal in ALLOWED_KILL_SIGNALS && pid in managedProcesses
      ensures r.Ok? ==> r.value == managedProcesses[pid].process
      ensures r == Err(BadPid) <==> pid <= 1
      ensures r == Err(UnsupportedSignal) <==> pid > 1 && signal !in ALLOWED_KILL_SIGNALS
    {
      if pid <= 1 {
        return Err(BadPid);
      }
      if signal !in ALLOWED_KILL_SIGNALS {
        return Err(UnsupportedSignal);
      }
      if pid !in managedProcesses {
        return Err(NotManaged);
      }
      r := Ok(managedProcesses[pid].process);
    }
  }

  // ---------------------------------------------------------------------------
  // Processes and their late callbacks

  /** Running processes, exited ones whose callback is still to come, and the table. */
  datatype System = System(running: set<Process>, exiting: set<Process>, table: Table)

  datatype Event =
    | Spawn(process: Process, groupKill: bool)
    | Exit(process: Process)
    | Callback(process: Process)

  /** The kernel gives a pid to one running process at a time, and may reuse it as soon as that one exits. */
  ghost predicate Possible(s: System, e: Event) {
    match e
    case Spawn(p, _) => p !in s.running && p !in s.exiting && forall q :: q in s.running ==> q.pid != p.pid
    case Exit(p) => p in s.running
    case Callback(p) => p in s.exiting
  }

  function Happen(s: System, e: Event): System {
    match e
    case Spawn(p, groupKill) => s.(running := s.running + {p}, table := Track(s.table, p, groupKill))
    case Exit(p) => s.(running := s.running - {p}, exiting := s.exiting + {p})
    case Callback(p) => s.(exiting := s.exiting - {p}, table := Untrack(s.table, p))
  }

  function After(s: System, events: seq<Event>): System
    decreases |events|
  {
    if events == [] then s else After(Happen(s, events[0]), events[1..])
  }

  ghost predicate Plays(s: System, events: seq<Event>)
    decreases |events|
  {
    events != [] ==> Possible(s, events[0]) && Plays(Happen(s, events[0]), events[1..])
  }

  const QUIET := System({}, {}, map[])

  ghost predicate Consistent(s: System) {
    && s.running !! s.exiting
    && (forall p :: p in s.running ==> p.pid in s.table && s.table[p.pid].process == p)
    && (forall pid :: pid in s.table ==>
          s.table[pid].process.pid == pid && s.table[pid].process in s.running + s.exiting)
  }

  lemma EventsKeepConsistent(s: System, e: Event)
    requires Consistent(s) && Possible(s, e)
    ensures Consistent(Happen(s, e))
  {
    var next := Happen(s, e);
    forall p | p in next.running
      ensures p.pid in next.table && next.table[p.pid].process == p
    {
      if p in s.running {
        assert p.pid in s.table && s.table[p.pid].process == p;
      }
    }
  }

  lemma {:induction false} RunsStayConsistent(s: System, events: seq<Event>)
    requires Consistent(s) && Plays(s, events)
    ensures Consistent(After(s, events))
    decreases |events|
  {
    if events != [] {
      EventsKeepConsistent(s, events[0]);
      RunsStayConsistent(Happen(s, events[0]), events[1..]);
    }
  }

  /** In every order of spawns, exits and late callbacks, a running process is the one found under its pid. */
  lemma RunningProcessIsTracked(events: seq<Event>, p: Process)
    requires Plays(QUIET, events) && p in After(QUIET, events).running
    ensures p.pid in After(QUIET, events).table && After(QUIET, events).table[p.pid].process == p
  {
    RunsStayConsistent(QUIET, events);
  }

  /** Once every callback has run, the table holds the running processes and nothing else. */
  lemma SettledTableIsExact(events: seq<Event>)
    requires Plays(QUIET, events) && After(QUIET, events).exiting == {}
    ensures var s := After(QUIET, events);
            s.running == set pid | pid in s.table :: s.table[pid].process
  {
    RunsStayConsistent(QUIET, events);
    var s := After(QUIET, events);
    var tracked := set pid | pid in s.table :: s.table[pid].process;
    forall p | p in s.running
      ensures p in tracked
    {
      assert s.table[p.pid].process == p;
    }
  }

  // ---------------------------------------------------------------------------
  // Output

  const MAX_OUTPUT_BYTES := 262144

  function Concat(chunks: seq<seq<byte>>): seq<byte> {
    if chunks == [] then [] else chunks[0] + Concat(chunks[1..])
  }

  function Prefix(bytes: seq<byte>, count: nat): seq<byte> {
    if |bytes| <= count then bytes else bytes[..count]
  }

  lemma {:induction false} ConcatGrows(chunks: seq<seq<byte>>, chunk: seq<byte>)
    ensures Concat(chunks + [chunk]) == Concat(chunks) + chunk
  {
    if chunks == [] {
      assert chunks + [chunk] == [chunk];
      assert [chunk][1..] == [];
    } else {
      assert (chunks + [chunk])[1..] == chunks[1..] + [chunk];
      ConcatGrows(chunks[1..], chunk);
    }
  }

  /** Keep the first bytes of a stream up to the cap and count the rest: the whole stream is always drained. */
  method CollectOutput(stream: seq<seq<byte>>) returns (bytes: seq<byte>, totalBytes: nat, truncated: bool)
    ensures bytes == Prefix(Concat(stream), 262144)
    ensures totalBytes == |Concat(stream)|
    ensures truncated <==> |bytes| < totalBytes
  {
    var chunks: seq<seq<byte>> := [];
    var storedBytes := 0;
    totalBytes := 0;
    for i := 0 to |stream|
      invariant totalBytes == |Concat(stream[..i])|
      invariant storedBytes == |Concat(chunks)| <= MAX_OUTPUT_BYTES
      invariant Concat(chunks) == Prefix(Concat(stream[..i]), MAX_OUTPUT_BYTES)
    {
      var value := stream[i];
      assert stream[..i + 1] == stream[..i] + [value];
      ConcatGrows(stream[..i], value);
      totalBytes := totalBytes + |value|;
      if storedBytes >= MAX_OUTPUT_BYTES {
        continue;
      }
      var remaining := MAX_OUTPUT_BYTES - storedBytes;
      var chunk := if |value| > remaining then value[..remaining] else value;
      ConcatGrows(chunks, chunk);
      chunks := chunks + [chunk];
      storedBytes := storedBytes + |chunk|;
    }
    assert stream[..|stream|] == stream;
    bytes := Assemble(chunks, storedBytes);
    truncated := totalBytes > MAX_OUTPUT_BYTES;
  }

  /** The platform's `set`: copy a chunk into a buffer from an offset on. */
  method SetAt(buffer: array<byte>, chunk: seq<byte>, offset: nat)
    requires offset + |chunk| <= buffer.Length
    modifies buffer
    ensures buffer[..offset + |chunk|] == old(buffer[..offset]) + chunk
  {
    for j := 0 to |chunk|
      invariant buffer[..offset + j] == old(buffer[..offset]) + chunk[..j]
    {
      buffer[offset + j] := chunk[j];
    }
  }

  /** Copy the kept chunks one after the other into a buffer of their total size. */
  method Assemble(chunks: seq<seq<byte>>, storedBytes: nat) returns (bytes: seq<byte>)
    requires storedBytes == |Concat(chunks)|
    ensures bytes == Concat(chunks)
  {
    var buffer := new byte[storedBytes](_ => 0);
    var offset := 0;
    for i := 0 to |chunks|
      invariant offset == |Concat(chunks[..i])| <= storedBytes
      invariant buffer[..offset] == Concat(chunks[..i])
    {
      assert chunks[..i + 1] == chunks[..i] + [chunks[i]];
      ConcatGrows(chunks[..i], chunks[i]);
      ConcatSplits(chunks, i + 1);
      SetAt(buffer, chunks[i], offset);
      offset := offset + |chunks[i]|;
    }
    assert chunks[..|chunks|] == chunks;
    bytes := buffer[..];
  }

  lemma {:induction false} ConcatSplits(chunks: seq<seq<byte>>, k: nat)
    requires k <= |chunks|
    ensures Concat(chunks) == Concat(chunks[..k]) + Concat(chunks[k..])
  {
    if k == 0 {
      assert chunks[0..] == chunks;
    } else {
      ConcatSplits(chunks[1..], k - 1);
      assert chunks[..k][1..] == chunks[1..][..k - 1];
      assert chunks[k..] == chunks[1..][k - 1..];
    }
  }
}
