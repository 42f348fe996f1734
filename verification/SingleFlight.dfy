/** The coordinator of bounded helper processes: one for each key, no more than
    its capacity, each admitted until the operating system has reaped it. */
module SingleFlight {
  import opened Common

  type Key = nat
  type Process = nat
  type Waiter = nat

  /** What the coordinator and its waiters share about one started process. */
  datatype Tracked = Tracked(key: Key, request: nat, cancellationRequested: bool, closed: bool)

  datatype Admission = Aborted | Exhausted | StartFailed | Refused | Waiting(waiter: Waiter)

  /** What may happen next: a call, the end of one caller's wait (by result, abort
      or timeout), or the reaping of a process. */
  datatype Event =
    | Run(key: Key, request: nat, aborted: bool, starts: bool, reuseOk: bool)
    | Settle(waiter: Waiter)
    | Close(process: Process)

  class Coordinator {
    const capacity: nat
    var active: map<Key, Process>
    var tracked: map<Process, Tracked>
    var waiting: map<Waiter, Process>
    var nextProcess: Process
    var nextWaiter: Waiter
    /** How often each process has been told to cancel. */
    ghost var cancels: map<Process, nat>

    ghost predicate Unreaped(p: Process)
      reads this
    {
      p in tracked && !tracked[p].closed
    }

    ghost predicate Admitted()
      reads this
    {
      capacity > 0 && |active| <= capacity && PairedOff(active, tracked, nextProcess)
    }

    ghost predicate Counted()
      reads this
    {
      CancelledOnce(tracked, cancels)
    }

    ghost predicate Awaited(newest: Option<Process>)
      reads this
    {
      AwaitedBy(tracked, waiting, nextWaiter, newest)
    }

    ghost predicate Valid()
      reads this
    {
      Admitted() && Counted() && Awaited(None)
    }

    constructor (capacity: nat)
      requires capacity > 0
      ensures Valid() && this.capacity == capacity && active == map[] && tracked == map[]
    {
      this.capacity := capacity;
      active := map[];
      tracked := map[];
      waiting := map[];
      nextProcess := 0;
      nextWaiter := 0;
      cancels := map[];
    }

    method IsActive(key: Key) returns (b: bool)
      requires Valid()
      ensures b <==> exists p :: Unreaped(p) && tracked[p].key == key
    {
      b := key in active;
      if b {
        assert Unreaped(active[key]) && tracked[active[key]].key == key;
      }
    }

    /** Joins the process of this key, or starts one if there is room. */
    method Run(key: Key, request: nat, aborted: bool, starts: bool, reuseOk: bool) returns (r: Admission)
      requires Valid()
      modifies this
      ensures Valid()
      ensures forall p :: p in old(tracked) ==> p in tracked && tracked[p] == old(tracked[p])
      ensures !r.Waiting? ==>
                active == old(active) && tracked == old(tracked) && waiting == old(waiting) && cancels == old(cancels)
      ensures r.Waiting? ==>
                && r.waiter !in old(waiting) && r.waiter in waiting && key in active && waiting[r.waiter] == active[key]
                && (key in old(active) ==> active == old(active) && tracked == old(tracked))
                && (key !in old(active) ==> active[key] !in old(tracked) && tracked[active[key]].request == request)
      ensures r.Exhausted? ==> key !in old(active) && |old(active)| == capacity
    {
      if aborted {
        return Aborted;
      }
      var process;
      if key !in active {
        if |active| >= capacity {
          return Exhausted;
        }
        if !starts {
          return StartFailed;
        }
        process := Start(key, request);
      } else {
        process := active[key];
        if !reuseOk {
          return Refused;
        }
      }
      var waiter := Wait(process);
      return Waiting(waiter);
    }

    method Start(key: Key, request: nat) returns (process: Process)
      requires Valid() && key !in active && |active| < capacity
      modifies this
      ensures Admitted() && Counted() && Awaited(Some(process))
      ensures process !in old(tracked) && active == old(active)[key := process] && waiting == old(waiting)
      ensures tracked == old(tracked)[process := Tracked(key, request, false, false)]
    {
      StartPaired(active, tracked, nextProcess, key, request);
      OneMoreKey(active, key, nextProcess);
      StartCounted(tracked, cancels, nextProcess, key, request);
      StillAwaited(tracked, waiting, nextWaiter, nextProcess, Tracked(key, request, false, false), None);
      hide PairedOff, AwaitedBy, CancelledOnce;
      process := nextProcess;
      nextProcess := nextProcess + 1;
      tracked := tracked[process := Tracked(key, request, false, false)];
      cancels := cancels[process := 0];
      active := active[key := process];
    }

    method Wait(process: Process) returns (waiter: Waiter)
      requires Admitted() && Counted() && Awaited(Some(process)) && process in tracked
      modifies this`waiting, this`nextWaiter
      ensures Valid() && waiter !in old(waiting) && waiting == old(waiting)[waiter := process]
    {
      waiter := nextWaiter;
      nextWaiter := nextWaiter + 1;
      waiting := waiting[waiter := process];
      assert waiter in waiting && waiting[waiter] == process;
      assert forall w :: w in old(waiting) ==> w in waiting && waiting[w] == old(waiting)[w];
    }

    /** One caller stops waiting; the first to do so cancels the process. */
    method Settle(waiter: Waiter)
      requires Valid()
      modifies this
      ensures Valid() && active == old(active)
      ensures tracked
              == if waiter in old(waiting) then CancelledIn(old(tracked), old(waiting)[waiter]) else old(tracked)
    {
      if waiter in waiting {
        var process := waiting[waiter];
        LeftAwaited(tracked, waiting, nextWaiter, waiter);
        hide PairedOff, AwaitedBy, CancelledOnce;
        waiting := waiting - {waiter};
        if !tracked[process].cancellationRequested {
          Cancel(process);
        } else {
          SameRecord(tracked, waiting, nextWaiter, process);
        }
      }
    }

    method Cancel(process: Process)
      requires Admitted() && Counted() && Awaited(Some(process)) && process in tracked
               && !tracked[process].cancellationRequested
      modifies this`tracked, this`cancels
      ensures Valid()
      ensures tracked == CancelledIn(old(tracked), process)
    {
      CancelPaired(active, tracked, nextProcess, process);
      StillAwaited(tracked, waiting, nextWaiter, process, tracked[process].(cancellationRequested := true),
                   Some(process));
      hide PairedOff, AwaitedBy;
      tracked := tracked[process := tracked[process].(cancellationRequested := true)];
      cancels := cancels[process := cancels[process] + 1];
    }

    /** The operating system has reaped the process: only now is its key released. */
    method Close(process: Process)
      requires Valid()
      modifies this
      ensures Valid() && waiting == old(waiting) && cancels == old(cancels)
      ensures tracked == if process in old(tracked) then ClosedIn(old(tracked), process) else old(tracked)
      ensures forall k :: k in old(active) && old(active)[k] != process ==> k in active && active[k] == old(active)[k]
    {
      if process !in tracked || tracked[process].closed {
        assert process in tracked ==> ClosedIn(tracked, process) == tracked;
        return;
      }
      var key := tracked[process].key;
      ClosePaired(active, tracked, nextProcess, process);
      StillAwaited(tracked, waiting, nextWaiter, process, tracked[process].(closed := true), None);
      StillCounted(tracked, cancels, process);
      hide PairedOff, AwaitedBy, CancelledOnce;
      tracked := tracked[process := tracked[process].(closed := true)];
      if key in active && active[key] == process {
        active := active - {key};
      }
    }

    /** Any interleaving of calls, settlements and reapings. A process that is not
        reaped meanwhile keeps its key, and nobody else gets it. */
    method Handle(events: seq<Event>)
      requires Valid()
      modifies this
      ensures Valid()
      ensures forall p :: old(Unreaped(p)) && Event.Close(p) !in events ==>
                Unreaped(p) && tracked[p].key == old(tracked)[p].key && active[tracked[p].key] == p
      ensures forall p :: p in tracked ==> cancels[p] <= 1
    {
      var k := 0;
      while k < |events|
        invariant 0 <= k <= |events| && Valid()
        invariant forall p :: old(Unreaped(p)) && Event.Close(p) !in events ==>
                    Unreaped(p) && tracked[p].key == old(tracked)[p].key
      {
        match events[k] {
          case Run(key, request, aborted, starts, reuseOk) =>
            var _ := Run(key, request, aborted, starts, reuseOk);
          case Settle(waiter) =>
            Settle(waiter);
          case Close(process) =>
            assert Event.Close(process) in events;
            Close(process);
        }
        k := k + 1;
      }
    }

    /** Unreaped processes are never more than the capacity, and no two share a key. */
    lemma WithinCapacity(processes: set<Process>)
      requires Valid() && forall p :: p in processes ==> Unreaped(p)
      ensures |processes| <= |active| <= capacity
      ensures forall p, q ::
                p in processes && q in processes && p in tracked && q in tracked
                && tracked[p].key == tracked[q].key ==>
                  p == q
    {
      CountByKey(processes, active);
    }
  }

  /** Keys and unreaped processes are paired off; the next process is a new one. */
  ghost predicate PairedOff(active: map<Key, Process>, tracked: map<Process, Tracked>, next: Process) {
    && (forall k :: k in active ==> active[k] in tracked && !tracked[active[k]].closed && tracked[active[k]].key == k)
    && (forall p :: p in tracked && !tracked[p].closed ==> tracked[p].key in active && active[tracked[p].key] == p)
    && (forall p :: p in tracked ==> p < next)
  }

  ghost predicate CancelledOnce(tracked: map<Process, Tracked>, cancels: map<Process, nat>) {
    && cancels.Keys == tracked.Keys
    && (forall p :: p in tracked ==> cancels[p] == if tracked[p].cancellationRequested then 1 else 0)
  }

  /** Somebody waits for every process, but perhaps `newest`, until it is cancelled. */
  ghost predicate AwaitedBy(tracked: map<Process, Tracked>, waiting: map<Waiter, Process>, next: Waiter,
                            newest: Option<Process>)
  {
    && (forall w :: w in waiting ==> w < next && waiting[w] in tracked)
    && (forall p :: p in tracked && !tracked[p].cancellationRequested && newest != Some(p) ==>
          exists w :: w in waiting && waiting[w] == p)
  }

  /** Replacing one record, or adding one, keeps the waiters of all others. */
  lemma StillAwaited(tracked: map<Process, Tracked>, waiting: map<Waiter, Process>, next: Waiter,
                     p: Process, t: Tracked, newest: Option<Process>)
    requires AwaitedBy(tracked, waiting, next, newest)
    ensures newest.None? || newest == Some(p) ==> AwaitedBy(tracked[p := t], waiting, next, Some(p))
    ensures t.cancellationRequested && newest == Some(p) ==> AwaitedBy(tracked[p := t], waiting, next, None)
    ensures p in tracked && t.cancellationRequested == tracked[p].cancellationRequested ==>
              AwaitedBy(tracked[p := t], waiting, next, newest)
  {
  }

  function CancelledIn(tracked: map<Process, Tracked>, p: Process): map<Process, Tracked>
    requires p in tracked
  {
    tracked[p := tracked[p].(cancellationRequested := true)]
  }

  function ClosedIn(tracked: map<Process, Tracked>, p: Process): map<Process, Tracked>
    requires p in tracked
  {
    tracked[p := tracked[p].(closed := true)]
  }

  lemma StillCounted(tracked: map<Process, Tracked>, cancels: map<Process, nat>, p: Process)
    requires CancelledOnce(tracked, cancels) && p in tracked
    ensures CancelledOnce(ClosedIn(tracked, p), cancels)
  {
  }

  lemma StartCounted(tracked: map<Process, Tracked>, cancels: map<Process, nat>, p: Process, key: Key, request: nat)
    requires CancelledOnce(tracked, cancels)
    ensures CancelledOnce(tracked[p := Tracked(key, request, false, false)], cancels[p := 0])
  {
  }

  lemma LeftAwaited(tracked: map<Process, Tracked>, waiting: map<Waiter, Process>, next: Waiter, w: Waiter)
    requires AwaitedBy(tracked, waiting, next, None) && w in waiting
    ensures waiting[w] in tracked && AwaitedBy(tracked, waiting - {w}, next, Some(waiting[w]))
  {
    var fewer := waiting - {w};
    forall p | p in tracked && !tracked[p].cancellationRequested && p != waiting[w]
      ensures exists v :: v in fewer && fewer[v] == p
    {
      var v :| v in waiting && waiting[v] == p;
      assert v in fewer;
    }
  }

  lemma SameRecord(tracked: map<Process, Tracked>, waiting: map<Waiter, Process>, next: Waiter, p: Process)
    requires p in tracked && tracked[p].cancellationRequested && AwaitedBy(tracked, waiting, next, Some(p))
    ensures CancelledIn(tracked, p) == tracked && AwaitedBy(tracked, waiting, next, None)
  {
  }

  lemma StartPaired(active: map<Key, Process>, tracked: map<Process, Tracked>, next: Process, key: Key, request: nat)
    requires PairedOff(active, tracked, next) && key !in active
    ensures PairedOff(active[key := next], tracked[next := Tracked(key, request, false, false)], next + 1)
    ensures next !in tracked
  {
    var more, records := active[key := next], tracked[next := Tracked(key, request, false, false)];
    forall p | p in records && !records[p].closed
      ensures records[p].key in more && more[records[p].key] == p
    {
      assert p != next ==> p in tracked && records[p] == tracked[p];
    }
  }

  lemma OneMoreKey(active: map<Key, Process>, key: Key, process: Process)
    requires key !in active
    ensures |active[key := process]| == |active| + 1
  {
    assert active[key := process].Keys == active.Keys + {key};
  }

  lemma CancelPaired(active: map<Key, Process>, tracked: map<Process, Tracked>, next: Process, p: Process)
    requires PairedOff(active, tracked, next) && p in tracked
    ensures PairedOff(active, tracked[p := tracked[p].(cancellationRequested := true)], next)
  {
  }

  lemma ClosePaired(active: map<Key, Process>, tracked: map<Process, Tracked>, next: Process, p: Process)
    requires PairedOff(active, tracked, next) && p in tracked && !tracked[p].closed
    ensures tracked[p].key in active && active[tracked[p].key] == p
    ensures PairedOff(active - {tracked[p].key}, tracked[p := tracked[p].(closed := true)], next)
    ensures |active - {tracked[p].key}| <= |active|
    ensures forall k :: k in active && active[k] != p ==> k != tracked[p].key
  {
    assert (active - {tracked[p].key}).Keys == active.Keys - {tracked[p].key};
  }

  /** Processes that are each the value of some key are no more than the keys. */
  lemma {:induction false} CountByKey(processes: set<Process>, active: map<Key, Process>)
    requires forall p :: p in processes ==> exists k :: k in active && active[k] == p
    ensures |processes| <= |active|
    decreases processes
  {
    if processes != {} {
      var p :| p in processes;
      var k :| k in active && active[k] == p;
      var fewer := active - {k};
      assert fewer.Keys == active.Keys - {k};
      forall q | q in processes - {p}
        ensures exists j :: j in fewer && fewer[j] == q
      {
        var j :| j in active && active[j] == q;
        assert j in fewer;
      }
      CountByKey(processes - {p}, fewer);
    }
  }

  /** What one helper process has said so far, and what the parent made of it.
      Output beyond the bound is cut one byte past it. */
  class ChildProcess {
    const maxOutputBytes: nat
    const readyMessage: string
    var stdoutChunks: seq<seq<bv8>>
    var stdoutBytes: nat
    var stderrChunks: seq<seq<bv8>>
    var stderrBytes: nat
    var readyBuffer: string
    var readySettled: bool
    var readyAccepted: bool
    var authorizationGranted: bool
    var cancellationRequested: bool
    var processClosed: bool
    var operationSettled: bool
    var output: Option<(seq<bv8>, seq<bv8>)>
    /** Everything that arrived, and how often the payload was written. */
    ghost var stdoutStream: seq<bv8>
    ghost var stderrStream: seq<bv8>
    ghost var readyStream: string
    ghost var payloads: nat

    ghost predicate Valid()
      reads this
    {
      && Captured(stdoutChunks, stdoutBytes, stdoutStream, maxOutputBytes)
      && Captured(stderrChunks, stderrBytes, stderrStream, maxOutputBytes)
      && (readyAccepted ==> readySettled && readyBuffer == readyMessage && readyMessage <= readyStream)
      && (!readySettled ==> readyBuffer == readyStream && readyStream <= readyMessage && readyStream != readyMessage)
      && (authorizationGranted ==> readyAccepted) && payloads == (if authorizationGranted then 1 else 0)
      && (processClosed ==> operationSettled)
      && (output.Some? ==> operationSettled && processClosed)
    }

    constructor (maxOutputBytes: nat, readyMessage: string)
      requires maxOutputBytes > 0 && readyMessage != []
      ensures Valid() && !operationSettled && !processClosed && payloads == 0
    {
      this.maxOutputBytes := maxOutputBytes;
      this.readyMessage := readyMessage;
      stdoutChunks, stdoutBytes, stderrChunks, stderrBytes := [], 0, [], 0;
      readyBuffer, readySettled, readyAccepted := [], false, false;
      authorizationGranted, cancellationRequested, processClosed, operationSettled := false, false, false, false;
      output := None;
      stdoutStream, stderrStream, readyStream, payloads := [], [], [], 0;
    }

    method OnStdout(chunk: seq<bv8>) returns (kill: bool)
      requires Valid()
      modifies this`stdoutChunks, this`stdoutBytes, this`stdoutStream
      ensures Valid() && stdoutStream == old(stdoutStream) + chunk
      ensures kill <==> |stdoutStream| > maxOutputBytes
    {
      stdoutChunks, stdoutBytes := Capture(stdoutChunks, stdoutBytes, chunk, maxOutputBytes, stdoutStream);
      stdoutStream := stdoutStream + chunk;
      kill := stdoutBytes > maxOutputBytes;
    }

    method OnStderr(chunk: seq<bv8>) returns (kill: bool)
      requires Valid()
      modifies this`stderrChunks, this`stderrBytes, this`stderrStream
      ensures Valid() && stderrStream == old(stderrStream) + chunk
      ensures kill <==> |stderrStream| > maxOutputBytes
    {
      stderrChunks, stderrBytes := Capture(stderrChunks, stderrBytes, chunk, maxOutputBytes, stderrStream);
      stderrStream := stderrStream + chunk;
      kill := stderrBytes > maxOutputBytes;
    }

    /** The helper is ready once it has said exactly the agreed message; the first
        character that departs from it rejects the helper. `chunk` is the text that
        one chunk of bytes decodes to by itself. */
    method OnReady(chunk: string) returns (kill: bool)
      requires Valid()
      modifies this`readyBuffer, this`readySettled, this`readyAccepted, this`readyStream
      ensures Valid() && readyStream == old(readyStream) + chunk
      ensures !old(readySettled) ==> (readyAccepted <==> readyStream == readyMessage)
      ensures !old(readySettled) ==> (kill <==> !(readyStream <= readyMessage))
      ensures old(readySettled) ==> readyAccepted == old(readyAccepted)
    {
      kill := false;
      readyStream := readyStream + chunk;
      if readySettled {
        return;
      }
      readyBuffer := readyBuffer + chunk;
      if |readyBuffer| > |readyMessage| || !(readyBuffer <= readyMessage) {
        readySettled := true;
        kill := true;
        return;
      }
      if readyBuffer == readyMessage {
        readySettled := true;
        readyAccepted := true;
      }
    }

    /** Writes the payload: at most once, and only to a helper that has said it is
        ready and has neither been cancelled nor reaped. */
    method Authorize() returns (ok: bool)
      requires Valid()
      modifies this`authorizationGranted, this`payloads
      ensures Valid()
      ensures ok <==> readyAccepted && !old(authorizationGranted) && !cancellationRequested && !processClosed
      ensures payloads == old(payloads) + (if ok then 1 else 0) <= 1
      ensures ok ==> readyMessage <= readyStream
    {
      ok := readySettled && readyAccepted && !authorizationGranted && !cancellationRequested && !processClosed;
      if ok {
        authorizationGranted := true;
        payloads := payloads + 1;
      }
    }

    method Cancel() returns (terminates: bool)
      requires Valid()
      modifies this`cancellationRequested, this`readySettled
      ensures Valid()
      ensures terminates <==> !old(cancellationRequested) && !processClosed
      ensures cancellationRequested == (old(cancellationRequested) || terminates)
    {
      terminates := !cancellationRequested && !processClosed;
      if terminates {
        cancellationRequested := true;
        readySettled := true;
      }
    }

    /** A later failure of a live process settles its operation; it is not reaped. */
    method OnError(hasPid: bool)
      requires Valid()
      modifies this`operationSettled, this`readySettled, this`processClosed
      ensures Valid() && operationSettled
      ensures processClosed == (old(processClosed) || !hasPid)
    {
      operationSettled := true;
      readySettled := true;
      processClosed := processClosed || !hasPid;
    }

    /** The result is settled once. It is the whole of what the helper wrote, and
        only if it was not cancelled and stayed within the bound. */
    method OnClose()
      requires Valid()
      modifies this`operationSettled, this`readySettled, this`processClosed, this`output
      ensures Valid() && operationSettled && processClosed
      ensures old(operationSettled) ==> output == old(output)
      ensures !old(operationSettled) ==>
                output == if !cancellationRequested && |stdoutStream| <= maxOutputBytes
                             && |stderrStream| <= maxOutputBytes
                          then Some((stdoutStream, stderrStream)) else None
    {
      processClosed := true;
      readySettled := true;
      if !operationSettled {
        operationSettled := true;
        if cancellationRequested || stdoutBytes > maxOutputBytes || stderrBytes > maxOutputBytes {
          output := None;
        } else {
          assert stdoutStream[..stdoutBytes] == stdoutStream && stderrStream[..stderrBytes] == stderrStream;
          output := Some((Flatten(stdoutChunks), Flatten(stderrChunks)));
        }
      }
    }
  }

  function Flatten(chunks: seq<seq<bv8>>): seq<bv8> {
    if chunks == [] then [] else Flatten(chunks[..|chunks| - 1]) + chunks[|chunks| - 1]
  }

  /** The chunks are the stream, cut one byte past the bound. */
  predicate Captured(chunks: seq<seq<bv8>>, bytes: nat, stream: seq<bv8>, bound: nat) {
    bytes == Min(bound + 1, |stream|) && Flatten(chunks) == stream[..bytes]
  }

  method Capture(chunks: seq<seq<bv8>>, currentBytes: nat, chunk: seq<bv8>, bound: nat, ghost stream: seq<bv8>)
    returns (more: seq<seq<bv8>>, bytes: nat)
    requires Captured(chunks, currentBytes, stream, bound)
    ensures Captured(more, bytes, stream + chunk, bound)
  {
    more := chunks;
    var remaining := bound + 1 - currentBytes;
    if remaining > 0 {
      more := chunks + [chunk[..Min(remaining, |chunk|)]];
      assert more[..|more| - 1] == chunks;
    }
    bytes := Min(bound + 1, currentBytes + |chunk|);
    if currentBytes == |stream| {
      assert (stream + chunk)[..bytes] == stream + chunk[..bytes - |stream|];
    } else {
      assert (stream + chunk)[..bytes] == stream[..bytes];
    }
  }
}
