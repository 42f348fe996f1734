/** The cache of SCSI sessions, one for each source descriptor, and the logical
    cursor that its seeks and reads share. */
module ScsiSession {
  import opened Common

  const BLOCK_BYTES: nat := 2048
  const INT64_LIMIT: int := 9223372036854775807
  const UINT32_LIMIT: nat := 4294967295
  const UINT16_LIMIT: nat := 65535
  const ENODEV: nat := 19
  const EINVAL: nat := 22
  const EPROTO: nat := 71

  datatype Readiness = Unavailable | OpenFailed | Ready

  datatype Association = Association(
    source: nat, position: int, sourceIdentity: nat, scsiIdentity: nat, outcome: Readiness,
    descriptor: Option<nat>, passthrough: bool, descriptorIdentity: nat, failureErrno: nat)

  /** What the system calls of one acquisition report: the source's identities if
      it is a readable block device, the kernel's cursor, and everything about the
      generic device. `errno` is what the failing call left. */
  datatype Probe = Probe(
    source: Option<nat>, scsi: Option<nat>, hasMemory: bool, cursor: Option<nat>, resolved: bool,
    device: Option<nat>, sg: Option<nat>, sgScsi: Option<nat>, errno: nat)

  datatype Acquisition = Acquisition(after: Option<Association>, outcome: Readiness, sg: Option<nat>, errno: nat)

  /** A session as one acquisition leaves it, or none; and what it lets the caller do. */
  function Acquired(a: Option<Association>, d: nat, e: Probe): Acquisition {
    if e.source.None? then Acquisition(None, Unavailable, None, ENODEV)
    else
      var kept := if a.Some? && a.value.sourceIdentity != e.source.value then None else a;
      if e.scsi.None? then
        if kept.None? then Acquisition(None, Unavailable, None, e.errno)
        else if kept.value.descriptor.Some? then
          Acquisition(Some(Failed(kept.value, e.errno)), OpenFailed, None, e.errno)
        else Acquisition(kept, kept.value.outcome, None, e.errno)
      else if kept.Some? && kept.value.scsiIdentity == e.scsi.value then Reused(kept.value, d, e)
      else Opened(d, e)
  }

  function Failed(a: Association, errno: nat): Association {
    a.(descriptor := None, outcome := OpenFailed, failureErrno := errno)
  }

  /** A session whose source is still the same. */
  function Reused(a: Association, d: nat, e: Probe): Acquisition
    requires e.scsi.Some?
  {
    if a.descriptor.None? then Acquisition(Some(a), a.outcome, None, a.failureErrno)
    else if a.passthrough then Acquisition(Some(a), a.outcome, Some(d), e.errno)
    else if e.sg == Some(a.descriptorIdentity) && e.sgScsi == e.scsi then
      Acquisition(Some(a), a.outcome, a.descriptor, e.errno)
    else Acquisition(Some(Failed(a, ENODEV)), OpenFailed, None, ENODEV)
  }

  /** A new session; it starts where the kernel's cursor is. */
  function Opened(d: nat, e: Probe): Acquisition
    requires e.source.Some? && e.scsi.Some?
  {
    if !e.hasMemory || e.cursor.None? then Acquisition(None, Unavailable, None, e.errno)
    else
      var made := Association(d, e.cursor.value, e.source.value, e.scsi.value, OpenFailed, None, false, 0, 0);
      if !e.resolved then
        Acquisition(Some(made.(descriptor := Some(d), passthrough := true, outcome := Ready)), Ready, Some(d), e.errno)
      else if e.device.None? then Acquisition(Some(Failed(made, e.errno)), OpenFailed, None, e.errno)
      else if e.sg.None? || e.sgScsi != e.scsi then Acquisition(Some(Failed(made, ENODEV)), OpenFailed, None, ENODEV)
      else
        Acquisition(Some(made.(descriptor := e.device, descriptorIdentity := e.sg.value, outcome := Ready)),
                    Ready, e.device, e.errno)
  }

  /** A session is ready exactly while it has a descriptor, and its cursor is an offset. */
  predicate Coherent(a: Association) {
    && (a.descriptor.Some? ==> a.outcome.Ready?) && (a.descriptor.None? ==> a.outcome.OpenFailed?)
    && 0 <= a.position <= INT64_LIMIT
  }

  lemma AcquiredCoherent(a: Option<Association>, d: nat, e: Probe)
    requires a.Some? ==> Coherent(a.value) && a.value.source == d
    requires e.cursor.Some? ==> e.cursor.value <= INT64_LIMIT
    ensures var r := Acquired(a, d, e);
            && (r.after.Some? ==> Coherent(r.after.value) && r.after.value.source == d)
            && (r.sg.Some? <==> r.outcome.Ready?) && (r.sg.Some? ==> r.after.Some? && r.after.value.descriptor.Some?)
            && (r.outcome.Unavailable? <==> r.after.None?)
  {
  }

  /** The same source device as when the session was made, as far as can be told. */
  predicate SameSource(a: Association, e: Probe) {
    e.source == Some(a.sourceIdentity) && (e.scsi.Some? ==> e.scsi.value == a.scsiIdentity)
  }

  /** A session survives an acquisition exactly when its source is the same, and
      then its cursor has not moved. */
  lemma CursorSurvives(a: Association, e: Probe)
    ensures Acquired(Some(a), a.source, e).sg.Some? ==> Acquired(Some(a), a.source, e).after.Some?
    ensures Acquired(Some(a), a.source, e).after.Some? ==> Acquired(Some(a), a.source, e).after.value.source == a.source
    ensures SameSource(a, e) ==>
              && Acquired(Some(a), a.source, e).after.Some?
              && Acquired(Some(a), a.source, e).after.value.position == a.position
              && Acquired(Some(a), a.source, e).after.value.sourceIdentity == a.sourceIdentity
              && Acquired(Some(a), a.source, e).after.value.scsiIdentity == a.scsiIdentity
    ensures !SameSource(a, e) ==> Acquired(Some(a), a.source, e) == Acquired(None, a.source, e)
  {
  }

  /** A session that has failed keeps failing, unchanged, exactly while its source
      is seen to be the same. */
  lemma FailureStays(a: Association, e: Probe)
    requires Coherent(a) && a.descriptor.None?
    ensures SameSource(a, e) ==>
              Acquired(Some(a), a.source, e).after == Some(a) && Acquired(Some(a), a.source, e).outcome.OpenFailed?
    ensures Acquired(Some(a), a.source, e).outcome.Ready? ==> !SameSource(a, e)
  {
  }

  /** Concretely: a failed session whose source can no longer be examined is gone, and
      the next acquisition, of the very same source, opens a usable one. */
  lemma FailureEnds() returns (a: Association, gone: Probe, back: Probe)
    ensures Coherent(a) && a.descriptor.None? && SameSource(a, back) && gone.source.None?
    ensures Acquired(Some(a), a.source, back).outcome.OpenFailed?
    ensures Acquired(Some(a), a.source, gone).after.None?
    ensures Acquired(Acquired(Some(a), a.source, gone).after, a.source, back).outcome.Ready?
  {
    a := Association(3, 0, 1, 1, OpenFailed, None, false, 0, ENODEV);
    gone := Probe(None, None, true, Some(0), false, None, None, None, ENODEV);
    back := Probe(Some(1), Some(1), true, Some(0), false, None, None, None, 0);
  }

  function Find(list: seq<Association>, d: nat): Option<Association> {
    if list == [] then None else if list[0].source == d then Some(list[0]) else Find(list[1..], d)
  }

  ghost predicate Distinct(list: seq<Association>) {
    forall i, j :: 0 <= i < j < |list| ==> list[i].source != list[j].source
  }

  lemma {:induction false} Found(list: seq<Association>, i: nat)
    requires Distinct(list) && i < |list|
    ensures Find(list, list[i].source) == Some(list[i])
  {
    if i > 0 {
      Found(list[1..], i - 1);
    }
  }

  lemma {:induction false} NotFound(list: seq<Association>, d: nat)
    ensures Find(list, d).None? <==> forall i :: 0 <= i < |list| ==> list[i].source != d
    ensures Find(list, d).Some? ==> Find(list, d).value.source == d && Find(list, d).value in list
  {
    if list != [] {
      NotFound(list[1..], d);
    }
  }

  lemma {:induction false} FindConcat(a: seq<Association>, b: seq<Association>, d: nat)
    ensures Find(a + b, d) == if Find(a, d).Some? then Find(a, d) else Find(b, d)
  {
    if a == [] {
      assert a + b == b;
    } else {
      FindConcat(a[1..], b, d);
      assert (a + b)[1..] == a[1..] + b;
    }
  }

  lemma FindSplit(list: seq<Association>, i: nat, d: nat)
    requires i < |list|
    ensures Find(list, d) == if Find(list[..i], d).Some? then Find(list[..i], d)
                             else if list[i].source == d then Some(list[i]) else Find(list[i + 1..], d)
  {
    assert list == list[..i] + ([list[i]] + list[i + 1..]);
    FindConcat(list[..i], [list[i]] + list[i + 1..], d);
    FindConcat([list[i]], list[i + 1..], d);
  }

  /** What a list that differs in one place says about every descriptor. */
  ghost predicate Rebound(before: seq<Association>, after: seq<Association>, d: nat, a: Option<Association>) {
    Distinct(after) && Find(after, d) == a && forall other: nat :: other != d ==>
      Find(after, other) == Find(before, other)
  }

  lemma Removed(list: seq<Association>, i: nat)
    requires Distinct(list) && i < |list|
    ensures Rebound(list, list[..i] + list[i + 1..], list[i].source, None)
  {
    var d, after := list[i].source, list[..i] + list[i + 1..];
    NotFound(after, d);
    forall other: nat | other != d
      ensures Find(after, other) == Find(list, other)
    {
      FindSplit(list, i, other);
      FindConcat(list[..i], list[i + 1..], other);
    }
  }

  lemma Updated(list: seq<Association>, i: nat, a: Association)
    requires Distinct(list) && i < |list| && a.source == list[i].source
    ensures Rebound(list, list[i := a], a.source, Some(a))
  {
    var after := list[i := a];
    Found(after, i);
    forall other: nat | other != a.source
      ensures Find(after, other) == Find(list, other)
    {
      FindSplit(list, i, other);
      FindSplit(after, i, other);
      assert after[..i] == list[..i] && after[i + 1..] == list[i + 1..];
    }
  }

  lemma Pushed(list: seq<Association>, a: Association)
    requires Distinct(list) && Find(list, a.source).None?
    ensures Rebound(list, [a] + list, a.source, Some(a))
  {
    NotFound(list, a.source);
    assert ([a] + list)[1..] == list;
  }

  datatype Whence = FromStart | FromCursor | FromElsewhere

  /** Where a plain file cursor at `p` goes, if the seek is valid. */
  function PlainSeek(p: int, offset: int, whence: Whence): Option<int> {
    var base := if whence.FromStart? then 0 else p;
    if whence.FromElsewhere? || base + offset < 0 || base + offset > INT64_LIMIT then None else Some(base + offset)
  }

  /** How the one command of a read ended: `resid` bytes of the request were not
      transferred, and `data` is what the request's buffer holds afterwards. */
  datatype Transfer = Transfer(completed: bool, infoOk: bool, status: nat, host: nat, driver: nat, resid: int,
                               data: seq<bv8>)

  /** What a caller that watches the command has announced. */
  datatype Scope = Scope(lba: int, blocks: int)

  /** A whole number of sectors, addressable, at a sector boundary, as announced. */
  predicate Readable(p: int, length: nat, scope: Option<Scope>) {
    && p % BLOCK_BYTES == 0 && length > 0 && length % BLOCK_BYTES == 0
    && p / BLOCK_BYTES <= UINT32_LIMIT && length / BLOCK_BYTES <= UINT16_LIMIT
    && length / BLOCK_BYTES - 1 <= UINT32_LIMIT - p / BLOCK_BYTES
    && (scope.Some? ==> scope.value == Scope(p / BLOCK_BYTES, length / BLOCK_BYTES))
  }

  predicate Succeeded(t: Transfer) {
    t.completed && t.infoOk && t.status == 0 && t.host == 0 && t.driver == 0
  }

  /** The bytes a read delivers from a plain file cursor at `p`, if it succeeds. */
  function PlainRead(p: int, length: nat, scope: Option<Scope>, t: Transfer): (n: Option<nat>)
    ensures n.Some? ==> n.value <= length && n.value % BLOCK_BYTES == 0
  {
    if Readable(p, length, scope) && Succeeded(t) && 0 <= t.resid <= length && (length - t.resid) % BLOCK_BYTES == 0
    then Some(length - t.resid) else None
  }

  datatype Call =
    | Seek(offset: int, whence: Whence, readOnly: bool, kernel: Option<int>)
    | Read(length: nat, scope: Option<Scope>, transfer: Transfer, kernelBytes: Option<nat>)

  /** What a call leaves of the session of its descriptor, and what it returns. */
  datatype Effect = Effect(after: Option<Association>, result: Option<int>)

  function Called(a: Option<Association>, d: nat, e: Probe, call: Call): Effect {
    if call.Seek? && !call.readOnly then Effect(a, call.kernel)
    else
      var r := Acquired(a, d, e);
      if r.sg.None? then Effect(r.after, if r.outcome.OpenFailed? then None else ByKernel(call))
      else
        var s := r.after.value;
        match call
        case Seek(offset, whence, _, _) =>
          var p := PlainSeek(s.position, offset, whence);
          Effect(Some(if p.Some? then s.(position := p.value) else s), p)
        case Read(length, scope, transfer, _) =>
          var n := PlainRead(s.position, length, scope, transfer);
          Effect(Some(if n.Some? then s.(position := s.position + n.value) else s), n)
  }

  function ByKernel(call: Call): Option<int> {
    match call
    case Seek(_, _, _, kernel) => kernel
    case Read(_, _, _, kernelBytes) => kernelBytes
  }

  class Sessions {
    var associations: seq<Association>

    /** At most one session for each source descriptor. */
    ghost predicate Valid()
      reads this
    {
      Distinct(associations) && forall i :: 0 <= i < |associations| ==> Coherent(associations[i])
    }

    constructor ()
      ensures Valid() && associations == []
    {
      associations := [];
    }

    method IndexOf(d: nat) returns (i: nat)
      requires Valid()
      ensures i <= |associations|
      ensures i < |associations| ==> associations[i].source == d && Find(associations, d) == Some(associations[i])
      ensures i == |associations| ==> Find(associations, d).None?
    {
      i := 0;
      while i < |associations| && associations[i].source != d
        invariant 0 <= i <= |associations|
        invariant forall k :: 0 <= k < i ==> associations[k].source != d
      {
        i := i + 1;
      }
      NotFound(associations, d);
      if i < |associations| {
        Found(associations, i);
      }
    }

    /** Drops the session of `d`, if there is one, and no other. */
    method Invalidate(d: nat)
      requires Valid()
      modifies this
      ensures Valid() && Rebound(old(associations), associations, d, None)
    {
      var i := IndexOf(d);
      if i < |associations| {
        Removed(associations, i);
        associations := associations[..i] + associations[i + 1..];
      }
    }

    method Bind(i: nat, a: Association)
      requires Valid() && Coherent(a) && i <= |associations|
      requires i < |associations| ==> associations[i].source == a.source
      requires i == |associations| ==> Find(associations, a.source).None?
      modifies this
      ensures Valid() && Rebound(old(associations), associations, a.source, Some(a))
    {
      if i < |associations| {
        Updated(associations, i, a);
        associations := associations[i := a];
      } else {
        Pushed(associations, a);
        associations := [a] + associations;
      }
    }

    /** A session whose source has not changed; the generic device is checked again. */
    method Reuse(i: nat, e: Probe) returns (sg: Option<nat>, outcome: Readiness, errno: nat)
      requires Valid() && i < |associations| && e.scsi.Some?
      modifies this
      ensures Valid()
      ensures
        var r := Reused(old(associations)[i], old(associations)[i].source, e);
        && Rebound(old(associations), associations, old(associations)[i].source, r.after)
        && sg == r.sg && outcome == r.outcome && errno == r.errno
    {
      var a := associations[i];
      Found(associations, i);
      outcome := a.outcome;
      if a.descriptor.None? {
        return None, outcome, a.failureErrno;
      }
      if a.passthrough {
        return Some(a.source), outcome, e.errno;
      }
      if e.sg == Some(a.descriptorIdentity) && e.sgScsi == e.scsi {
        return a.descriptor, outcome, e.errno;
      }
      Bind(i, a.(descriptor := None, outcome := OpenFailed, failureErrno := ENODEV));
      return None, OpenFailed, ENODEV;
    }

    /** A new session is put in front before its device is opened, and then takes
        the outcome of that. */
    method Open(d: nat, e: Probe) returns (sg: Option<nat>, outcome: Readiness, errno: nat)
      requires Valid() && Find(associations, d).None? && e.source.Some? && e.scsi.Some?
      requires e.cursor.Some? ==> e.cursor.value <= INT64_LIMIT
      modifies this
      ensures Valid()
      ensures
        var r := Opened(d, e);
        Rebound(old(associations), associations, d, r.after) && sg == r.sg && outcome == r.outcome && errno == r.errno
    {
      if !e.hasMemory || e.cursor.None? {
        return None, Unavailable, e.errno;
      }
      ghost var list0 := associations;
      var a := Association(d, e.cursor.value, e.source.value, e.scsi.value, OpenFailed, None, false, 0, 0);
      Bind(|associations|, a);
      ghost var list1 := associations;
      var i := IndexOf(d);
      if !e.resolved {
        Bind(i, a.(descriptor := Some(d), passthrough := true, outcome := Ready));
        return Some(d), Ready, e.errno;
      }
      if e.device.None? {
        Bind(i, a.(failureErrno := e.errno));
        return None, OpenFailed, e.errno;
      }
      if e.sg.None? || e.sgScsi != e.scsi {
        Bind(i, a.(failureErrno := ENODEV));
        return None, OpenFailed, ENODEV;
      }
      Bind(i, a.(descriptor := e.device, descriptorIdentity := e.sg.value, outcome := Ready));
      return e.device, Ready, e.errno;
    }

    /** Finds, renews, fails or makes the session of one descriptor. */
    method Acquire(d: nat, e: Probe) returns (sg: Option<nat>, outcome: Readiness, errno: nat)
      requires Valid() && (e.cursor.Some? ==> e.cursor.value <= INT64_LIMIT)
      modifies this
      ensures Valid()
      ensures
        var r := Acquired(Find(old(associations), d), d, e);
        Rebound(old(associations), associations, d, r.after) && sg == r.sg && outcome == r.outcome && errno == r.errno
    {
      if e.source.None? {
        Invalidate(d);
        return None, Unavailable, ENODEV;
      }
      var i := IndexOf(d);
      if i < |associations| && associations[i].sourceIdentity != e.source.value {
        Invalidate(d);
        i := IndexOf(d);
      }
      if e.scsi.None? {
        if i == |associations| {
          return None, Unavailable, e.errno;
        }
        if associations[i].descriptor.Some? {
          Bind(i, associations[i].(descriptor := None, outcome := OpenFailed, failureErrno := e.errno));
          return None, OpenFailed, e.errno;
        }
        return None, associations[i].outcome, e.errno;
      }
      if i < |associations| && associations[i].scsiIdentity != e.scsi.value {
        Invalidate(d);
        i := IndexOf(d);
      }
      if i < |associations| {
        sg, outcome, errno := Reuse(i, e);
      } else {
        sg, outcome, errno := Open(d, e);
      }
    }

    method Seek(d: nat, offset: int, whence: Whence, readOnly: bool, e: Probe, kernel: Option<int>)
      returns (r: Option<int>)
      requires Valid() && (e.cursor.Some? ==> e.cursor.value <= INT64_LIMIT)
      modifies this
      ensures Valid()
      ensures
        var effect := Called(Find(old(associations), d), d, e, Call.Seek(offset, whence, readOnly, kernel));
        Rebound(old(associations), associations, d, effect.after) && r == effect.result
    {
      NotFound(associations, d);
      AcquiredCoherent(Find(associations, d), d, e);
      var sg: Option<nat> := None;
      var outcome := Unavailable;
      if readOnly {
        var errno;
        sg, outcome, errno := Acquire(d, e);
      }
      if sg.None? {
        return if outcome.OpenFailed? then None else kernel;
      }
      var i := IndexOf(d);
      var a := associations[i];
      var base := if whence.FromStart? then 0 else a.position;
      if whence.FromElsewhere? || offset < -base || offset > INT64_LIMIT - base {
        return None;
      }
      Bind(i, a.(position := base + offset));
      return Some(base + offset);
    }

    /** `localError` and `captured` are what a watching caller gets to see. */
    method Read(d: nat, buffer: array<bv8>, e: Probe, scope: Option<Scope>, t: Transfer, kernelData: Option<seq<bv8>>)
      returns (r: Option<nat>, localError: Option<nat>, captured: bool)
      requires Valid() && (e.cursor.Some? ==> e.cursor.value <= INT64_LIMIT)
      requires |t.data| == buffer.Length && (kernelData.Some? ==> |kernelData.value| <= buffer.Length)
      modifies this, buffer
      ensures Valid()
      ensures
        var a := Find(old(associations), d);
        var effect := Called(a, d, e, Call.Read(buffer.Length, scope, t, Size(kernelData)));
        && Rebound(old(associations), associations, d, effect.after) && r == effect.result
        && (r.Some? ==> buffer[..r.value] == Delivered(Acquired(a, d, e), t, kernelData)[..r.value])
      ensures r.Some? ==> r.value <= buffer.Length && localError.None?
      ensures captured ==> scope.Some? && t.completed
    {
      NotFound(associations, d);
      AcquiredCoherent(Find(associations, d), d, e);
      captured := false;
      localError := None;
      var sg, outcome, errno := Acquire(d, e);
      if sg.None? {
        if outcome.OpenFailed? {
          return None, if scope.Some? then Some(errno) else None, false;
        }
        if kernelData.None? {
          return None, None, false;
        }
        Place(buffer, 0, kernelData.value);
        return Some(|kernelData.value|), None, false;
      }
      var i := IndexOf(d);
      var a := associations[i];
      if !Readable(a.position, buffer.Length, scope) {
        return None, if scope.Some? then Some(EINVAL) else None, false;
      }
      Place(buffer, 0, t.data);
      captured := t.completed && scope.Some?;
      if !Succeeded(t) {
        return None, None, captured;
      }
      if t.resid < 0 || t.resid > buffer.Length {
        return None, if scope.Some? then Some(EPROTO) else None, captured;
      }
      var count := buffer.Length - t.resid;
      if count % BLOCK_BYTES != 0 {
        return None, if scope.Some? then Some(EPROTO) else None, captured;
      }
      Bind(i, a.(position := a.position + count));
      return Some(count), None, captured;
    }

    /** Closing a source descriptor ends its session and no other. */
    method Close(d: nat)
      requires Valid()
      modifies this
      ensures Valid() && Rebound(old(associations), associations, d, None)
    {
      Invalidate(d);
    }
  }

  function Size(data: Option<seq<bv8>>): Option<nat> {
    if data.Some? then Some(|data.value|) else None
  }

  /** Whose bytes a successful read delivers: the command's, or the kernel's when
      there is no session. */
  function Delivered(r: Acquisition, t: Transfer, kernelData: Option<seq<bv8>>): seq<bv8> {
    if r.sg.Some? || kernelData.None? then t.data else kernelData.value
  }

  method Place(buffer: array<bv8>, base: nat, bytes: seq<bv8>)
    requires base + |bytes| <= buffer.Length
    modifies buffer
    ensures buffer[..] == Laid(old(buffer[..]), base, bytes)
  {
    forall k | 0 <= k < |bytes| {
      buffer[base + k] := bytes[k];
    }
  }

  /** One call on a live session of an unchanged source, read-only as the reader
      opens it: the cursor does exactly what a plain file cursor would do, or
      stays when the session has failed. */
  function CursorMove(p: int, ready: bool, call: Call): int {
    if !ready then p
    else match call
         case Seek(offset, whence, _, _) =>
           (var q := PlainSeek(p, offset, whence); if q.Some? then q.value else p)
         case Read(length, scope, transfer, _) =>
           (var n := PlainRead(p, length, scope, transfer); if n.Some? then p + n.value else p)
  }

  datatype Event = Event(probe: Probe, call: Call)

  /** The session of `d` after a run of calls on it. */
  function SessionAfter(a: Option<Association>, d: nat, events: seq<Event>): Option<Association> {
    if events == [] then a
    else
      var before := SessionAfter(a, d, events[..|events| - 1]);
      var last := events[|events| - 1];
      Called(before, d, last.probe, last.call).after
  }

  /** Whether the session could be used in the last of these calls. */
  function ReadyAt(a: Option<Association>, d: nat, events: seq<Event>): bool
    requires events != []
  {
    Acquired(SessionAfter(a, d, events[..|events| - 1]), d, events[|events| - 1].probe).sg.Some?
  }

  /** A plain file cursor taken through the same calls. */
  function PlainAfter(a: Association, events: seq<Event>): int {
    if events == [] then a.position
    else CursorMove(PlainAfter(a, events[..|events| - 1]), ReadyAt(Some(a), a.source, events),
                    events[|events| - 1].call)
  }

  /** Over every run of seeks and reads on a read-only descriptor of an unchanged
      source, the session lives and its cursor is that plain cursor. */
  lemma {:induction false} CursorRefines(a: Association, events: seq<Event>)
    requires forall k :: 0 <= k < |events| ==> SameSource(a, events[k].probe)
    requires forall k :: 0 <= k < |events| && events[k].call.Seek? ==> events[k].call.readOnly
    ensures
      var s := SessionAfter(Some(a), a.source, events);
      && s.Some? && s.value.position == PlainAfter(a, events)
      && s.value.sourceIdentity == a.sourceIdentity && s.value.scsiIdentity == a.scsiIdentity
  {
    if events != [] {
      var init, last := events[..|events| - 1], events[|events| - 1];
      CursorRefines(a, init);
      var before := SessionAfter(Some(a), a.source, init).value;
      assert SameSource(a, last.probe);
      CursorSurvives(before, last.probe);
      hide Acquired, Readable, PlainSeek;
    }
  }

  /** On a descriptor that is not read-only a seek goes past the session: its
      cursor follows only when the kernel happens to land on it. */
  lemma SeekBypasses(a: Association, e: Probe, offset: int, whence: Whence, readOnly: bool, kernel: Option<int>)
    requires SameSource(a, e) && Acquired(Some(a), a.source, e).sg.Some?
    requires Called(Some(a), a.source, e, Call.Seek(offset, whence, readOnly, kernel)).result.Some?
    ensures
      var effect := Called(Some(a), a.source, e, Call.Seek(offset, whence, readOnly, kernel));
      && effect.after.Some?
      && (effect.after.value.position == effect.result.value <==> readOnly || kernel == Some(a.position))
  {
    CursorSurvives(a, e);
  }

  /** Concretely: after such a seek to sector 9, the next read is of sector 0. */
  lemma StaleCursor() returns (a: Association, e: Probe)
    ensures Coherent(a) && e.cursor.None? && SameSource(a, e)
    ensures
      var sought := Called(Some(a), a.source, e, Call.Seek(9 * BLOCK_BYTES, FromStart, false, Some(9 * BLOCK_BYTES)));
      sought.result == Some(9 * BLOCK_BYTES) && sought.after == Some(a) && a.position == 0
  {
    a := Association(3, 0, 1, 1, Ready, Some(3), true, 0, 0);
    e := Probe(Some(1), Some(1), true, None, false, None, None, None, 0);
  }

  /** A failed session stays as it is and answers nothing, through every run of
      read-only calls in which its source is seen unchanged. */
  lemma {:induction false} FailedRun(a: Association, events: seq<Event>)
    requires Coherent(a) && a.descriptor.None?
    requires forall k :: 0 <= k < |events| ==> SameSource(a, events[k].probe)
    requires forall k :: 0 <= k < |events| && events[k].call.Seek? ==> events[k].call.readOnly
    ensures SessionAfter(Some(a), a.source, events) == Some(a)
    ensures events != [] ==>
              var last := events[|events| - 1];
              Called(Some(a), a.source, last.probe, last.call).result.None?
  {
    if events != [] {
      var init, last := events[..|events| - 1], events[|events| - 1];
      FailedRun(a, init);
      assert SameSource(a, last.probe);
      FailureStays(a, last.probe);
    }
  }

  /** One segment of a scatter read: a place in memory. */
  datatype Segment = Segment(base: nat, length: nat)

  function Total(segments: seq<Segment>): nat {
    if segments == [] then 0 else segments[0].length + Total(segments[1..])
  }

  predicate InMemory(segments: seq<Segment>, size: nat) {
    forall k :: 0 <= k < |segments| ==> segments[k].base + segments[k].length <= size
  }

  predicate Disjoint(segments: seq<Segment>) {
    forall j, k :: 0 <= j < k < |segments| ==>
      segments[j].base + segments[j].length <= segments[k].base
      || segments[k].base + segments[k].length <= segments[j].base
  }

  function Laid(memory: seq<bv8>, base: nat, bytes: seq<bv8>): (r: seq<bv8>)
    requires base + |bytes| <= |memory|
    ensures |r| == |memory|
  {
    memory[..base] + bytes + memory[base + |bytes|..]
  }

  lemma LaidThere(memory: seq<bv8>, base: nat, bytes: seq<bv8>, length: nat)
    requires base + |bytes| <= base + length <= |memory|
    ensures Laid(memory, base, bytes)[base..base + length][..|bytes|] == bytes
    ensures forall i :: 0 <= i < |memory| && (i < base || base + |bytes| <= i) ==>
              Laid(memory, base, bytes)[i] == memory[i]
  {
    var laid := Laid(memory, base, bytes);
    assert laid[base..base + length][..|bytes|] == laid[base..base + |bytes|];
    forall i | 0 <= i < |memory| && (i < base || base + |bytes| <= i)
      ensures laid[i] == memory[i]
    {
    }
  }

  /** Memory after the bytes of `data` have been laid into the segments in turn. */
  function Scattered(memory: seq<bv8>, segments: seq<Segment>, data: seq<bv8>): (r: seq<bv8>)
    requires InMemory(segments, |memory|)
    ensures |r| == |memory|
    decreases |segments|
  {
    if segments == [] || data == [] then memory
    else
      var part := Min(segments[0].length, |data|);
      var base := segments[0].base;
      Scattered(Laid(memory, base, data[..part]), segments[1..], data[part..])
  }

  /** The bytes in the segments, one after another. */
  function Gathered(memory: seq<bv8>, segments: seq<Segment>): seq<bv8>
    requires InMemory(segments, |memory|)
  {
    if segments == [] then []
    else memory[segments[0].base..segments[0].base + segments[0].length] + Gathered(memory, segments[1..])
  }

  lemma {:induction false} Elsewhere(memory: seq<bv8>, segments: seq<Segment>, data: seq<bv8>, i: nat)
    requires InMemory(segments, |memory|) && i < |memory|
    requires forall k :: 0 <= k < |segments| ==> i < segments[k].base || segments[k].base + segments[k].length <= i
    ensures Scattered(memory, segments, data)[i] == memory[i]
    decreases |segments|
  {
    if segments != [] && data != [] {
      var part, base := Min(segments[0].length, |data|), segments[0].base;
      LaidThere(memory, base, data[..part], part);
      Elsewhere(Laid(memory, base, data[..part]), segments[1..], data[part..], i);
    }
  }

  /** Disjoint segments together hold exactly the bytes that one read would have
      put in one buffer. */
  lemma {:induction false} ScatterGathers(memory: seq<bv8>, segments: seq<Segment>, data: seq<bv8>)
    requires InMemory(segments, |memory|) && Disjoint(segments) && |data| <= Total(segments)
    ensures
      var after := Scattered(memory, segments, data);
      |Gathered(after, segments)| == Total(segments) && Gathered(after, segments)[..|data|] == data
    decreases |segments|
  {
    var after := Scattered(memory, segments, data);
    GatheredLength(after, segments);
    if segments != [] && data != [] {
      var s := segments[0];
      var part := Min(s.length, |data|);
      var placed := Laid(memory, s.base, data[..part]);
      LaidThere(memory, s.base, data[..part], s.length);
      hide Laid;
      ScatterGathers(placed, segments[1..], data[part..]);
      FirstKept(placed, segments, data[part..]);
      GatheredSplit(Gathered(after, segments[1..]), placed[s.base..s.base + s.length], data, part);
    }
  }

  lemma FirstKept(memory: seq<bv8>, segments: seq<Segment>, data: seq<bv8>)
    requires segments != [] && InMemory(segments, |memory|) && Disjoint(segments)
    ensures
      var s := segments[0];
      Scattered(memory, segments[1..], data)[s.base..s.base + s.length] == memory[s.base..s.base + s.length]
  {
    var s, after := segments[0], Scattered(memory, segments[1..], data);
    forall i | s.base <= i < s.base + s.length
      ensures after[i] == memory[i]
    {
      Elsewhere(memory, segments[1..], data, i);
    }
  }

  lemma GatheredSplit(rest: seq<bv8>, first: seq<bv8>, data: seq<bv8>, part: nat)
    requires part <= |data| <= |first| + |rest| && part <= |first| && first[..part] == data[..part]
    requires part == |first| || part == |data|
    requires |data| - part <= |rest| && rest[..|data| - part] == data[part..]
    ensures (first + rest)[..|data|] == data
  {
    assert data == data[..part] + data[part..];
    if part == |data| {
      assert (first + rest)[..|data|] == first[..part];
    } else {
      assert (first + rest)[..|data|] == first + rest[..|data| - part];
    }
  }

  lemma {:induction false} GatheredLength(memory: seq<bv8>, segments: seq<Segment>)
    requires InMemory(segments, |memory|)
    ensures |Gathered(memory, segments)| == Total(segments)
  {
    if segments != [] {
      GatheredLength(memory, segments[1..]);
    }
  }

  const IOV_LIMIT: nat := 1024
  const SSIZE_LIMIT: nat := 9223372036854775807

  lemma {:induction false} TotalUpTo(segments: seq<Segment>, k: nat)
    requires k < |segments|
    ensures Total(segments[..k + 1]) == Total(segments[..k]) + segments[k].length
    ensures Total(segments[..k + 1]) <= Total(segments)
  {
    if k == 0 {
      assert segments[..1][1..] == [];
    } else {
      TotalUpTo(segments[1..], k - 1);
      assert segments[..k + 1][1..] == segments[1..][..k];
      assert segments[..k][1..] == segments[1..][..k - 1];
    }
  }

  method MeasureSegments(segments: seq<Segment>) returns (length: Option<nat>)
    ensures length == if Total(segments) <= SSIZE_LIMIT then Some(Total(segments)) else None
  {
    var sum, index := 0, 0;
    while index < |segments|
      invariant 0 <= index <= |segments| && sum == Total(segments[..index]) <= SSIZE_LIMIT
    {
      TotalUpTo(segments, index);
      if segments[index].length > SSIZE_LIMIT - sum {
        return None;
      }
      sum := sum + segments[index].length;
      index := index + 1;
    }
    assert segments[..index] == segments;
    return Some(sum);
  }

  /** Lays the bytes into the segments of `memory`, as many as there are. */
  method ScatterBytes(memory: array<bv8>, segments: seq<Segment>, data: seq<bv8>)
    requires InMemory(segments, memory.Length)
    modifies memory
    ensures memory[..] == Scattered(old(memory[..]), segments, data)
  {
    hide Laid;
    var copied, index := 0, 0;
    while index < |segments| && copied < |data|
      invariant 0 <= index <= |segments| && 0 <= copied <= |data|
      invariant InMemory(segments[index..], memory.Length)
      invariant Scattered(memory[..], segments[index..], data[copied..]) == Scattered(old(memory[..]), segments, data)
    {
      var segment := segments[index];
      var part := Min(segment.length, |data| - copied);
      Place(memory, segment.base, data[copied..][..part]);
      assert segments[index..][1..] == segments[index + 1..] && data[copied..][part..] == data[copied + part..];
      copied := copied + part;
      index := index + 1;
    }
  }

  /** A scatter read: like one read of the whole length into one buffer, with the
      bytes then laid out; only an empty one never asks the session. */
  method ReadVector(sessions: Sessions, d: nat, memory: array<bv8>, segments: seq<Segment>, hasMemory: bool,
                    e: Probe, scope: Option<Scope>, t: Transfer, kernelData: Option<seq<bv8>>)
    returns (r: Option<nat>)
    requires sessions.Valid() && (e.cursor.Some? ==> e.cursor.value <= INT64_LIMIT)
    requires InMemory(segments, memory.Length)
    requires |t.data| == Total(segments) && (kernelData.Some? ==> |kernelData.value| <= Total(segments))
    modifies sessions, memory
    ensures sessions.Valid()
    ensures |segments| > IOV_LIMIT || Total(segments) > SSIZE_LIMIT || (Total(segments) > 0 && !hasMemory) ==> r.None?
    ensures |segments| <= IOV_LIMIT && Total(segments) == 0 ==> r == Some(0)
    ensures |segments| > IOV_LIMIT || Total(segments) > SSIZE_LIMIT || Total(segments) == 0 || !hasMemory ==>
              sessions.associations == old(sessions.associations) && memory[..] == old(memory[..])
    ensures |segments| <= IOV_LIMIT && 0 < Total(segments) <= SSIZE_LIMIT && hasMemory ==>
              var a := Find(old(sessions.associations), d);
              var effect := Called(a, d, e, Call.Read(Total(segments), scope, t, Size(kernelData)));
              && Rebound(old(sessions.associations), sessions.associations, d, effect.after) && r == effect.result
              && (r.Some? ==> 0 <= r.value <= Total(segments)
                              && memory[..]
                                 == Scattered(old(memory[..]), segments,
                                              Delivered(Acquired(a, d, e), t, kernelData)[..r.value]))
              && (r.None? ==> memory[..] == old(memory[..]))
  {
    if |segments| > IOV_LIMIT {
      return None;
    }
    var length := MeasureSegments(segments);
    if length.None? {
      return None;
    }
    if length.value == 0 {
      return Some(0);
    }
    if !hasMemory {
      return None;
    }
    var buffer := new bv8[length.value];
    var localError, captured;
    r, localError, captured := sessions.Read(d, buffer, e, scope, t, kernelData);
    if r.Some? {
      ScatterBytes(memory, segments, buffer[..r.value]);
    }
  }
}
