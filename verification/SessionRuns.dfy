/** Runs of seeks, reads, scatter reads and closes on several descriptors, in any
    order, while their sources come and go. */
module SessionRuns {
  import opened Common
  import opened ScsiSession

  datatype Request =
    | OnSeek(d: nat, offset: int, whence: Whence, readOnly: bool, probe: Probe, kernel: Option<int>)
    | OnRead(d: nat, length: nat, scope: Option<Scope>, probe: Probe, transfer: Transfer, kernelData: Option<seq<bv8>>)
    | OnVector(d: nat, segments: seq<Segment>, hasMemory: bool, scope: Option<Scope>, probe: Probe,
               transfer: Transfer, kernelData: Option<seq<bv8>>)
    | OnClose(d: nat)

  /** What a request means to the session of its descriptor. */
  datatype Step = Asked(d: nat, event: Event) | Closed(d: nat) | Unasked(d: nat, answer: Option<int>)

  function StepOf(r: Request): Step {
    match r
    case OnSeek(d, offset, whence, readOnly, probe, kernel) =>
      Asked(d, Event(probe, Call.Seek(offset, whence, readOnly, kernel)))
    case OnRead(d, length, scope, probe, transfer, kernelData) =>
      Asked(d, Event(probe, Call.Read(length, scope, transfer, Size(kernelData))))
    case OnVector(d, segments, hasMemory, scope, probe, transfer, kernelData) =>
      if |segments| > IOV_LIMIT || Total(segments) > SSIZE_LIMIT then Unasked(d, None)
      else if Total(segments) == 0 then Unasked(d, Some(0))
      else if !hasMemory then Unasked(d, None)
      else Asked(d, Event(probe, Call.Read(Total(segments), scope, transfer, Size(kernelData))))
    case OnClose(d) => Closed(d)
  }

  function StepsOf(requests: seq<Request>): seq<Step> {
    seq(|requests|, k requires 0 <= k < |requests| => StepOf(requests[k]))
  }

  /** A step changes the session of its own descriptor only. */
  function Next(a: Option<Association>, d: nat, s: Step): Option<Association> {
    if s.d != d then a
    else
      match s
      case Asked(_, event) => Called(a, d, event.probe, event.call).after
      case Closed(_) => None
      case Unasked(_, _) => a
  }

  function SessionOf(a: Option<Association>, d: nat, steps: seq<Step>): Option<Association> {
    if steps == [] then a else Next(SessionOf(a, d, steps[..|steps| - 1]), d, steps[|steps| - 1])
  }

  /** What a step returns, given the session of its descriptor. */
  function AnswerOf(a: Option<Association>, s: Step): Option<int> {
    match s
    case Asked(d, event) => Called(a, d, event.probe, event.call).result
    case Closed(_) => None
    case Unasked(_, answer) => answer
  }

  /** The calls on `d` among these steps. */
  function EventsOf(d: nat, steps: seq<Step>): seq<Event> {
    if steps == [] then []
    else
      var before := EventsOf(d, steps[..|steps| - 1]);
      var last := steps[|steps| - 1];
      if last.Asked? && last.d == d then before + [last.event] else before
  }

  lemma {:induction false} EventsMember(d: nat, steps: seq<Step>, i: nat)
    requires i < |EventsOf(d, steps)|
    ensures Asked(d, EventsOf(d, steps)[i]) in steps
    decreases |steps|
  {
    var before := EventsOf(d, steps[..|steps| - 1]);
    if i < |before| {
      EventsMember(d, steps[..|steps| - 1], i);
    }
  }

  /** Asking again with the same answers changes nothing. */
  lemma AcquiredAgain(a: Option<Association>, d: nat, e: Probe)
    requires a.Some? ==> Coherent(a.value) && a.value.source == d
    requires Acquired(a, d, e).after.Some?
    ensures
      var r := Acquired(Acquired(a, d, e).after, d, e);
      r.after == Acquired(a, d, e).after && r.sg == Acquired(a, d, e).sg && r.outcome == Acquired(a, d, e).outcome
  {
  }

  /** The session `a1` of `d` began with step `k`, at the kernel's cursor, where there
      was none or one of another source. */
  ghost predicate BeganAt(a: Option<Association>, d: nat, steps: seq<Step>, k: nat, a1: Association)
    requires k < |steps|
  {
    var before := SessionOf(a, d, steps[..k]);
    && steps[k].Asked? && steps[k].d == d
    && (before.None? || !SameSource(before.value, steps[k].event.probe))
    && Acquired(None, d, steps[k].event.probe).after == Some(a1)
    && steps[k].event.probe.cursor == Some(a1.position)
  }

  /** Since step `k`, `d` has not been closed and its source has been seen unchanged. */
  ghost predicate Lived(d: nat, steps: seq<Step>, k: nat, a1: Association) {
    && k <= |steps| && a1.source == d
    && forall i :: k <= i < |steps| && steps[i].d == d ==>
         !steps[i].Closed? && (steps[i].Asked? ==> SameSource(a1, steps[i].event.probe))
  }

  /** `a1` is the session of `d` from its beginning at step `k` on, or the one that was
      there at the start. */
  ghost predicate Epoch(a: Option<Association>, d: nat, steps: seq<Step>, k: nat, a1: Association) {
    Lived(d, steps, k, a1) && ((k == 0 && a == Some(a1)) || (k < |steps| && BeganAt(a, d, steps, k, a1)))
  }

  /** As the reader opens its source. */
  ghost predicate OnlyReads(d: nat, steps: seq<Step>) {
    forall i :: 0 <= i < |steps| && steps[i].Asked? && steps[i].d == d && steps[i].event.call.Seek? ==>
      steps[i].event.call.readOnly
  }

  lemma EventsPush(d: nat, steps: seq<Step>, s: Step)
    ensures EventsOf(d, steps + [s])
            == if s.Asked? && s.d == d then EventsOf(d, steps) + [s.event] else EventsOf(d, steps)
  {
    assert (steps + [s])[..|steps|] == steps;
  }

  lemma AfterPush(a: Association, events: seq<Event>, e: Event)
    ensures SessionAfter(Some(a), a.source, events + [e])
            == Called(SessionAfter(Some(a), a.source, events), a.source, e.probe, e.call).after
  {
    assert (events + [e])[..|events|] == events;
  }

  /** An epoch that goes on for one more step. */
  lemma EpochStep(a: Option<Association>, d: nat, steps: seq<Step>, k: nat, a1: Association)
    requires steps != [] && k < |steps|
    ensures
      var init, last := steps[..|steps| - 1], steps[|steps| - 1];
      && steps[k..] == init[k..] + [last]
      && (Epoch(a, d, steps, k, a1) && (k < |init| || (k == 0 && a == Some(a1))) ==> Epoch(a, d, init, k, a1))
      && (Epoch(a, d, init, k, a1)
          && (last.d == d ==> !last.Closed? && (last.Asked? ==> SameSource(a1, last.event.probe)))
          ==> Epoch(a, d, steps, k, a1))
  {
    var init := steps[..|steps| - 1];
    assert forall i :: 0 <= i < |init| ==> init[i] == steps[i];
    assert k < |init| ==> init[..k] == steps[..k];
  }

  /** Within an epoch the session is what the calls on its own descriptor made of it. */
  lemma {:induction false} EpochSession(a: Option<Association>, d: nat, steps: seq<Step>, k: nat, a1: Association)
    requires SourceIs(a, d) && Epoch(a, d, steps, k, a1) && OnlyReads(d, steps)
    ensures SessionOf(a, d, steps) == SessionAfter(Some(a1), d, EventsOf(d, steps[k..]))
    decreases |steps|
  {
    if k < |steps| {
      var init, last := steps[..|steps| - 1], steps[|steps| - 1];
      EpochStep(a, d, steps, k, a1);
      EventsPush(d, init[k..], last);
      if last.Asked? && last.d == d {
        AfterPush(a1, EventsOf(d, init[k..]), last.event);
      }
      if k < |init| || (k == 0 && a == Some(a1)) {
        EpochSession(a, d, init, k, a1);
      } else {
        SourceKept(a, d, init);
        FirstCall(a, d, steps, a1);
      }
    }
  }

  /** The call that begins an epoch acts on the new session. */
  lemma FirstCall(a: Option<Association>, d: nat, steps: seq<Step>, a1: Association)
    requires steps != [] && BeganAt(a, d, steps, |steps| - 1, a1) && OnlyReads(d, steps) && a1.source == d
    requires SourceIs(SessionOf(a, d, steps[..|steps| - 1]), d)
    ensures SessionOf(a, d, steps)
            == Called(Some(a1), d, steps[|steps| - 1].event.probe, steps[|steps| - 1].event.call).after
  {
    var before, e := SessionOf(a, d, steps[..|steps| - 1]), steps[|steps| - 1].event;
    if before.Some? {
      CursorSurvives(before.value, e.probe);
    }
    AcquiredAgain(None, d, e.probe);
    hide Acquired, PlainRead, PlainSeek;
  }

  predicate SourceIs(a: Option<Association>, d: nat) {
    a.Some? ==> a.value.source == d
  }

  lemma {:induction false} SourceKept(a: Option<Association>, d: nat, steps: seq<Step>)
    requires SourceIs(a, d)
    ensures SourceIs(SessionOf(a, d, steps), d)
  {
    if steps != [] {
      SourceKept(a, d, steps[..|steps| - 1]);
    }
  }

  /** Every session there is has an epoch. */
  lemma {:induction false} EpochExists(a: Option<Association>, d: nat, steps: seq<Step>)
    returns (k: nat, a1: Association)
    requires SourceIs(a, d) && OnlyReads(d, steps) && SessionOf(a, d, steps).Some?
    ensures Epoch(a, d, steps, k, a1)
    decreases |steps|
  {
    if steps == [] {
      return 0, a.value;
    }
    var init, last := steps[..|steps| - 1], steps[|steps| - 1];
    var before := SessionOf(a, d, init);
    SourceKept(a, d, init);
    hide Called, Acquired;
    if last.d != d || !last.Asked? || (before.Some? && SameSource(before.value, last.event.probe)) {
      k, a1 := EpochExists(a, d, init);
      if last.d == d && last.Asked? {
        EpochSession(a, d, init, k, a1);
        EpochCursor(a, d, init, k, a1);
      }
      EpochStep(a, d, steps, k, a1);
    } else {
      k := |steps| - 1;
      a1 := FirstSession(before, d, last.event);
    }
  }

  /** A call that leaves a session where there was none to go on with has made it. */
  lemma FirstSession(before: Option<Association>, d: nat, event: Event) returns (a1: Association)
    requires SourceIs(before, d) && (before.None? || !SameSource(before.value, event.probe))
    requires event.call.Seek? ==> event.call.readOnly
    requires Called(before, d, event.probe, event.call).after.Some?
    ensures Acquired(None, d, event.probe).after == Some(a1)
    ensures event.probe.cursor == Some(a1.position) && a1.source == d && SameSource(a1, event.probe)
  {
    if before.Some? {
      CursorSurvives(before.value, event.probe);
    }
    a1 := Acquired(None, d, event.probe).after.value;
  }

  /** Within an epoch the session lives, for the same source, and its cursor is a
      plain cursor that started at the kernel's. */
  lemma EpochCursor(a: Option<Association>, d: nat, steps: seq<Step>, k: nat, a1: Association)
    requires SourceIs(a, d) && Epoch(a, d, steps, k, a1) && OnlyReads(d, steps)
    ensures
      var s := SessionOf(a, d, steps);
      && s.Some? && s.value.position == PlainAfter(a1, EventsOf(d, steps[k..]))
      && s.value.sourceIdentity == a1.sourceIdentity && s.value.scsiIdentity == a1.scsiIdentity
  {
    var since := steps[k..];
    var events := EventsOf(d, since);
    forall i | 0 <= i < |events|
      ensures SameSource(a1, events[i].probe) && (events[i].call.Seek? ==> events[i].call.readOnly)
    {
      EventsMember(d, since, i);
      var j :| 0 <= j < |since| && since[j] == Asked(d, events[i]);
      assert steps[k + j] == since[j];
    }
    EpochSession(a, d, steps, k, a1);
    CursorRefines(a1, events);
  }

  /** A descriptor has a session exactly while an epoch lasts: since a call made it, at
      the kernel's cursor, there was no close and its source was seen unchanged. All
      that time its cursor is a plain file cursor moved by the calls on that descriptor
      alone, whatever happens to the others. */
  lemma CursorInRuns(a: Option<Association>, d: nat, steps: seq<Step>)
    requires SourceIs(a, d) && OnlyReads(d, steps)
    ensures SessionOf(a, d, steps).Some? <==> exists k: nat, a1 :: Epoch(a, d, steps, k, a1)
    ensures forall k: nat, a1 :: Epoch(a, d, steps, k, a1) ==>
              SessionOf(a, d, steps).Some?
              && SessionOf(a, d, steps).value.position == PlainAfter(a1, EventsOf(d, steps[k..]))
  {
    if SessionOf(a, d, steps).Some? {
      var k, a1 := EpochExists(a, d, steps);
    }
    forall k: nat, a1 | Epoch(a, d, steps, k, a1)
      ensures SessionOf(a, d, steps).Some?
              && SessionOf(a, d, steps).value.position == PlainAfter(a1, EventsOf(d, steps[k..]))
    {
      EpochCursor(a, d, steps, k, a1);
    }
  }

  /** What the callers of these functions see to. */
  predicate Fits(r: Request, size: nat) {
    match r
    case OnSeek(_, _, _, _, probe, _) => probe.cursor.Some? ==> probe.cursor.value <= INT64_LIMIT
    case OnRead(_, length, _, probe, transfer, kernelData) =>
      && (probe.cursor.Some? ==> probe.cursor.value <= INT64_LIMIT)
      && |transfer.data| == length && (kernelData.Some? ==> |kernelData.value| <= length)
    case OnVector(_, segments, _, _, probe, transfer, kernelData) =>
      && (probe.cursor.Some? ==> probe.cursor.value <= INT64_LIMIT) && InMemory(segments, size)
      && |transfer.data| == Total(segments) && (kernelData.Some? ==> |kernelData.value| <= Total(segments))
    case OnClose(_) => true
  }

  /** One request, on whichever descriptor. */
  method Serve(sessions: Sessions, memory: array<bv8>, r: Request) returns (answer: Option<int>)
    requires sessions.Valid() && Fits(r, memory.Length)
    modifies sessions, memory
    ensures sessions.Valid()
    ensures answer == AnswerOf(Find(old(sessions.associations), r.d), StepOf(r))
    ensures forall d: nat :: Find(sessions.associations, d) == Next(Find(old(sessions.associations), d), d, StepOf(r))
  {
    hide Called;
    answer := None;
    match r
    case OnSeek(d, offset, whence, readOnly, probe, kernel) =>
      answer := sessions.Seek(d, offset, whence, readOnly, probe, kernel);
    case OnRead(d, length, scope, probe, transfer, kernelData) =>
      var buffer := new bv8[length];
      var n, _, _ := sessions.Read(d, buffer, probe, scope, transfer, kernelData);
      answer := if n.Some? then Some(n.value) else None;
    case OnVector(d, segments, hasMemory, scope, probe, transfer, kernelData) =>
      var n := ReadVector(sessions, d, memory, segments, hasMemory, probe, scope, transfer, kernelData);
      answer := if n.Some? then Some(n.value) else None;
    case OnClose(d) =>
      sessions.Close(d);
  }

  lemma StepsPush(requests: seq<Request>, k: nat)
    requires k < |requests|
    ensures StepsOf(requests[..k + 1]) == StepsOf(requests[..k]) + [StepOf(requests[k])]
  {
  }

  lemma SessionPush(a: Option<Association>, d: nat, steps: seq<Step>, s: Step)
    ensures SessionOf(a, d, steps + [s]) == Next(SessionOf(a, d, steps), d, s)
  {
    assert (steps + [s])[..|steps|] == steps;
  }

  /** Any requests on any descriptors: each is answered as its own descriptor's session
      demands, and that session depends on the requests for that descriptor alone. */
  method RunRequests(sessions: Sessions, memory: array<bv8>, requests: seq<Request>) returns (answers: seq<Option<int>>)
    requires sessions.Valid() && forall r <- requests :: Fits(r, memory.Length)
    modifies sessions, memory
    ensures sessions.Valid()
    ensures forall d: nat ::
              Find(sessions.associations, d) == SessionOf(Find(old(sessions.associations), d), d, StepsOf(requests))
    ensures |answers| == |requests|
    ensures forall k :: 0 <= k < |requests| ==>
              answers[k] == AnswerOf(SessionOf(Find(old(sessions.associations), requests[k].d), requests[k].d,
                                               StepsOf(requests[..k])), StepOf(requests[k]))
  {
    hide Next, AnswerOf, Fits, StepOf;
    ghost var list := sessions.associations;
    answers := [];
    var index := 0;
    while index < |requests|
      invariant 0 <= index <= |requests| && sessions.Valid() && |answers| == index
      invariant forall d: nat ::
                  Find(sessions.associations, d) == SessionOf(Find(list, d), d, StepsOf(requests[..index]))
      invariant forall k :: 0 <= k < index ==>
                  answers[k] == AnswerOf(SessionOf(Find(list, requests[k].d), requests[k].d, StepsOf(requests[..k])),
                                         StepOf(requests[k]))
    {
      ghost var before := sessions.associations;
      var answer := Serve(sessions, memory, requests[index]);
      StepsPush(requests, index);
      forall d: nat
        ensures Find(sessions.associations, d) == SessionOf(Find(list, d), d, StepsOf(requests[..index + 1]))
      {
        SessionPush(Find(list, d), d, StepsOf(requests[..index]), StepOf(requests[index]));
      }
      answers := answers + [answer];
      index := index + 1;
    }
    assert requests[..index] == requests;
  }
}
