/** Two advisory file locks, the intent and the gate, between any number of queue
    commands and cutovers, any of which may die at any moment. */
module Cutover {
  import opened Common

  type Pid = nat

  /** How far a process has come. `Leased` has the gate and has given up the intent
      but has not begun its body; `Dying` has not yet lost what it still holds. */
  datatype Phase =
    | WantsIntent | WantsGate | Entered | Leased | Runs
    | PollsIntent | HasIntent | Drains | HasGate | Ready | DropsGate | DropsIntent
    | Dying | Gone

  datatype World = World(phases: map<Pid, Phase>, intent: Option<Pid>, shared: set<Pid>, exclusive: Option<Pid>) {
    predicate At(p: Pid, phase: Phase) {
      p in phases && phases[p] == phase
    }

    function Move(p: Pid, phase: Phase): World {
      this.(phases := phases[p := phase])
    }
  }

  datatype Action = StartCommand | StartCutover | Proceed | Abort | Die | CloseIntent | CloseGate

  const EMPTY := World(map[], None, {}, None)

  function Without(holder: Option<Pid>, p: Pid): Option<Pid> {
    if holder == Some(p) then None else holder
  }

  /** The effect of one system call or sentinel of `p`, or nothing while it has to
      wait. Closing a descriptor gives its lock up; a dead process loses both in
      any order. */
  function Act(w: World, p: Pid, a: Action): Option<World> {
    match a
    case StartCommand => if p in w.phases then None else Some(w.Move(p, WantsIntent))
    case StartCutover => if p in w.phases then None else Some(w.Move(p, PollsIntent))
    case Proceed => if p in w.phases then Advance(w, p) else None
    case Abort => if p in w.phases then GiveUp(w, p) else None
    case Die => if p in w.phases && !w.phases[p].Gone? && !w.phases[p].Dying? then Some(w.Move(p, Dying)) else None
    case CloseIntent =>
      if w.At(p, Dying) && w.intent == Some(p) then Some(w.(intent := None)) else None
    case CloseGate =>
      if w.At(p, Dying) && (p in w.shared || w.exclusive == Some(p))
      then Some(w.(shared := w.shared - {p}, exclusive := Without(w.exclusive, p))) else None
  }

  function Advance(w: World, p: Pid): Option<World>
    requires p in w.phases
  {
    match w.phases[p]
    case WantsIntent => if w.intent.None? then Some(w.Move(p, WantsGate).(intent := Some(p))) else None
    case WantsGate => if w.exclusive.None? then Some(w.Move(p, Entered).(shared := w.shared + {p})) else None
    case Entered => Some(w.Move(p, Leased).(intent := None))
    case Leased => Some(w.Move(p, Runs))
    case Runs => Some(w.Move(p, Gone).(shared := w.shared - {p}))
    case PollsIntent => if w.intent.None? then Some(w.Move(p, HasIntent).(intent := Some(p))) else None
    case HasIntent => Some(w.Move(p, Drains))
    case Drains =>
      if w.shared == {} && w.exclusive.None? then Some(w.Move(p, HasGate).(exclusive := Some(p))) else None
    case HasGate => Some(w.Move(p, Ready))
    case Ready => Some(w.Move(p, DropsGate))
    case DropsGate => Some(w.Move(p, DropsIntent).(exclusive := None))
    case DropsIntent => Some(w.Move(p, Gone).(intent := None))
    case _ => None
  }

  /** An abort sentinel or an exception sends a process to its cleanup. */
  function GiveUp(w: World, p: Pid): Option<World>
    requires p in w.phases
  {
    match w.phases[p]
    case WantsIntent => Some(w.Move(p, Gone))
    case WantsGate => Some(w.Move(p, Gone).(intent := None))
    case PollsIntent => Some(w.Move(p, Gone))
    case HasIntent => Some(w.Move(p, DropsIntent))
    case Drains => Some(w.Move(p, DropsIntent))
    case HasGate => Some(w.Move(p, DropsGate))
    case _ => None
  }

  predicate OwnsIntent(phase: Phase) {
    phase.WantsGate? || phase.Entered? || phase.HasIntent? || phase.Drains? || phase.HasGate? || phase.Ready?
    || phase.DropsGate? || phase.DropsIntent?
  }

  predicate OwnsShare(phase: Phase) {
    phase.Entered? || phase.Leased? || phase.Runs?
  }

  predicate OwnsGate(phase: Phase) {
    phase.HasGate? || phase.Ready? || phase.DropsGate?
  }

  /** The locks are held by exactly the processes whose phase says so, and by some
      that are dying. */
  ghost predicate Sound(w: World) {
    && (forall p :: p in w.phases && OwnsIntent(w.phases[p]) ==> w.intent == Some(p))
    && (forall p :: p in w.phases && OwnsShare(w.phases[p]) ==> p in w.shared)
    && (forall p :: p in w.phases && OwnsGate(w.phases[p]) ==> w.exclusive == Some(p))
    && (w.intent.Some? ==> w.intent.value in w.phases
                           && (OwnsIntent(w.phases[w.intent.value]) || w.phases[w.intent.value].Dying?))
    && (forall p :: p in w.shared ==> p in w.phases && (OwnsShare(w.phases[p]) || w.phases[p].Dying?))
    && (w.exclusive.Some? ==> w.exclusive.value in w.phases
                              && (OwnsGate(w.phases[w.exclusive.value]) || w.phases[w.exclusive.value].Dying?))
    && (w.exclusive.Some? ==> w.shared == {})
  }

  predicate OfCommand(phase: Phase) {
    phase.WantsIntent? || phase.WantsGate? || phase.Entered? || phase.Leased? || phase.Runs?
  }

  lemma CommandAdvanceSound(w: World, p: Pid)
    requires Sound(w) && p in w.phases && OfCommand(w.phases[p]) && Advance(w, p).Some?
    ensures Sound(Advance(w, p).value)
  {
  }

  lemma CutoverAdvanceSound(w: World, p: Pid)
    requires Sound(w) && p in w.phases && !OfCommand(w.phases[p]) && Advance(w, p).Some?
    ensures Sound(Advance(w, p).value)
  {
  }

  lemma GiveUpSound(w: World, p: Pid)
    requires Sound(w) && p in w.phases && GiveUp(w, p).Some?
    ensures Sound(GiveUp(w, p).value)
  {
  }

  lemma ActSound(w: World, p: Pid, a: Action)
    requires Sound(w) && Act(w, p, a).Some?
    ensures Sound(Act(w, p, a).value)
  {
    if a.Proceed? {
      if OfCommand(w.phases[p]) {
        CommandAdvanceSound(w, p);
      } else {
        CutoverAdvanceSound(w, p);
      }
    } else if a.Abort? {
      GiveUpSound(w, p);
    }
    hide Advance, GiveUp;
  }

  /** `ws` is a run: each world follows from the one before by somebody's action. */
  ghost predicate Interleaved(ws: seq<World>) {
    |ws| > 0 && forall k :: 0 < k < |ws| ==> Linked(ws[k - 1], ws[k])
  }

  ghost predicate Linked(v: World, w: World) {
    exists p: Pid, a: Action :: Act(v, p, a) == Some(w)
  }

  lemma {:induction false} RunSound(ws: seq<World>, k: nat)
    requires Interleaved(ws) && Sound(ws[0]) && k < |ws|
    ensures Sound(ws[k])
  {
    if k > 0 {
      RunSound(ws, k - 1);
      assert Linked(ws[k - 1], ws[k]);
      var p: Pid, a: Action :| Act(ws[k - 1], p, a) == Some(ws[k]);
      ActSound(ws[k - 1], p, a);
    }
  }

  /** In every world of every run that starts with an empty queue: no command runs
      while a cutover is ready, and at most one cutover is. */
  lemma Exclusion(ws: seq<World>, k: nat, p: Pid, q: Pid)
    requires Interleaved(ws) && ws[0] == EMPTY && k < |ws|
    requires ws[k].At(q, Ready)
    ensures ws[k].shared == {}
    ensures !ws[k].At(p, Runs) && !ws[k].At(p, Leased)
    ensures ws[k].At(p, Ready) ==> p == q
  {
    RunSound(ws, k);
  }

  /** From its intent sentinel until it ends, a cutover is closed to newcomers. */
  predicate Closed(w: World, q: Pid) {
    w.At(q, Drains) || w.At(q, HasGate) || w.At(q, Ready)
  }

  predicate BodyStarts(v: World, w: World, p: Pid) {
    w.At(p, Runs) && !v.At(p, Runs)
  }

  lemma ClosedStep(v: World, w: World, q: Pid)
    requires Sound(v) && Linked(v, w) && Closed(v, q) && Closed(w, q)
    ensures w.shared <= v.shared
    ensures forall p :: w.At(p, Leased) ==> v.At(p, Leased)
    ensures forall p :: BodyStarts(v, w, p) ==> v.At(p, Leased)
  {
  }

  /** While a cutover is closed, the gate's holders only become fewer, and only a
      command that had the gate when the cutover closed still begins its body. */
  lemma {:induction false} ClosedDrains(ws: seq<World>, q: Pid, k: nat)
    requires Interleaved(ws) && Sound(ws[0]) && k < |ws|
    requires forall i :: 0 <= i < |ws| ==> Closed(ws[i], q)
    ensures ws[k].shared <= ws[0].shared
    ensures forall p :: ws[k].At(p, Leased) ==> ws[0].At(p, Leased)
    ensures k > 0 ==> forall p :: BodyStarts(ws[k - 1], ws[k], p) ==> ws[0].At(p, Leased)
  {
    if k > 0 {
      ClosedDrains(ws, q, k - 1);
      RunSound(ws, k - 1);
      ClosedStep(ws[k - 1], ws[k], q);
    }
  }

  /** Some command begins its body in some run during which `q` stays closed. */
  ghost predicate MayStillBegin(w: World, q: Pid) {
    exists ws: seq<World>, k: nat, p: Pid :: BeginsAt(ws, k, p, w, q)
  }

  ghost predicate BeginsAt(ws: seq<World>, k: nat, p: Pid, w: World, q: Pid) {
    && Interleaved(ws) && ws[0] == w && 0 < k < |ws| && BodyStarts(ws[k - 1], ws[k], p)
    && forall i :: 0 <= i < |ws| ==> Closed(ws[i], q)
  }

  /** The intent sentinel alone does not promise that no body begins any more: that
      holds exactly when no command stands between its lease and its body. */
  lemma BodiesAfterIntent(w: World, q: Pid)
    requires Sound(w) && Closed(w, q)
    ensures MayStillBegin(w, q) <==> exists p :: w.At(p, Leased)
  {
    if exists p :: w.At(p, Leased) {
      var p :| w.At(p, Leased);
      var next := w.Move(p, Runs);
      assert Act(w, p, Proceed) == Some(next);
      var ws := [w, next];
      assert Linked(ws[0], ws[1]);
      assert BeginsAt(ws, 1, p, w, q);
    }
    if MayStillBegin(w, q) {
      var ws: seq<World>, k: nat, p: Pid :| BeginsAt(ws, k, p, w, q);
      ClosedDrains(ws, q, k);
      assert w.At(p, Leased);
    }
  }

  lemma Extended(ws: seq<World>, p: Pid, a: Action) returns (longer: seq<World>)
    requires Interleaved(ws) && Act(ws[|ws| - 1], p, a).Some?
    ensures Interleaved(longer) && longer == ws + [Act(ws[|ws| - 1], p, a).value]
  {
    hide Act;
    longer := ws + [Act(ws[|ws| - 1], p, a).value];
    assert Linked(longer[|ws| - 1], longer[|ws|]);
    assert forall k :: 0 < k < |ws| ==> Linked(ws[k - 1], ws[k]);
    assert forall k :: 0 <= k < |ws| ==> longer[k] == ws[k];
  }

  lemma LeaseAlone() returns (ws: seq<World>)
    ensures Interleaved(ws) && ws[0] == EMPTY
    ensures ws[|ws| - 1] == World(map[0 := Leased], None, {0}, None)
  {
    ws := Extended([EMPTY], 0, StartCommand);
    ws := Extended(ws, 0, Proceed);
    ws := Extended(ws, 0, Proceed);
    ws := Extended(ws, 0, Proceed);
  }

  /** Such a world is reached: command 0 has its lease, cutover 1 its intent. */
  lemma LeasedBeforeIntent() returns (ws: seq<World>)
    ensures Interleaved(ws) && ws[0] == EMPTY
    ensures var w := ws[|ws| - 1]; Closed(w, 1) && w.At(0, Leased) && MayStillBegin(w, 1)
  {
    ws := LeaseAlone();
    ws := Extended(ws, 1, StartCutover);
    ws := Extended(ws, 1, Proceed);
    ws := Extended(ws, 1, Proceed);
    RunSound(ws, |ws| - 1);
    assert ws[|ws| - 1].At(0, Leased);
    BodiesAfterIntent(ws[|ws| - 1], 1);
  }

  /** A command that holds the intent finds the gate free, unless a cutover that
      died has lost its intent but not yet its gate; then the gate is about to fall. */
  lemma NoWaitOnGate(w: World, p: Pid)
    requires Sound(w) && w.At(p, WantsGate)
    ensures Act(w, p, Proceed).Some? <==> w.exclusive.None?
    ensures w.exclusive.Some? ==> w.At(w.exclusive.value, Dying) && Act(w, w.exclusive.value, CloseGate).Some?
  {
  }

  lemma ReadyAlone() returns (ws: seq<World>)
    ensures Interleaved(ws) && ws[0] == EMPTY
    ensures ws[|ws| - 1] == World(map[1 := Ready], Some(1), {}, Some(1))
  {
    ws := Extended([EMPTY], 1, StartCutover);
    ws := Extended(ws, 1, Proceed);
    ws := Extended(ws, 1, Proceed);
    ws := Extended(ws, 1, Proceed);
    ws := Extended(ws, 1, Proceed);
  }

  /** That exception is real: cutover 1 dies while ready and loses its intent first, and
      command 0, which then has the intent, has to wait for the gate. */
  lemma GateOutlivesIntent() returns (ws: seq<World>)
    ensures Interleaved(ws) && ws[0] == EMPTY
    ensures
      var w := ws[|ws| - 1];
      w.At(0, WantsGate) && w.intent == Some(0) && Act(w, 0, Proceed).None? && w.At(1, Dying)
  {
    ws := ReadyAlone();
    ws := Extended(ws, 1, Die);
    ws := Extended(ws, 1, CloseIntent);
    ws := Extended(ws, 0, StartCommand);
    ws := Extended(ws, 0, Proceed);
  }

  predicate Finishing(a: Action) {
    a.Proceed? || a.CloseIntent? || a.CloseGate?
  }

  ghost predicate CanMove(w: World) {
    exists p: Pid, a: Action :: Finishing(a) && Act(w, p, a).Some?
  }

  lemma Moves(w: World, p: Pid, a: Action)
    requires Finishing(a) && Act(w, p, a).Some?
    ensures CanMove(w)
  {
  }

  /** No deadlock: as long as anybody has not finished, somebody can go on without
      an abort, a crash or a newcomer. */
  lemma NoDeadlock(w: World, p: Pid)
    requires Sound(w) && p in w.phases && !w.phases[p].Gone? && !w.phases[p].Dying?
    ensures CanMove(w)
  {
    if w.intent.Some? {
      var h := w.intent.value;
      if w.phases[h].Dying? {
        Moves(w, h, CloseIntent);
      } else if w.phases[h].WantsGate? {
        Moves(w, if w.exclusive.None? then h else w.exclusive.value, if w.exclusive.None? then Proceed else CloseGate);
      } else if w.phases[h].Drains? {
        GateClears(w, h);
      } else {
        Moves(w, h, Proceed);
      }
    } else {
      Moves(w, p, Proceed);
    }
  }

  lemma GateClears(w: World, q: Pid)
    requires Sound(w) && w.At(q, Drains)
    ensures CanMove(w)
  {
    if w.shared != {} {
      var s :| s in w.shared;
      Moves(w, s, if w.phases[s].Dying? then CloseGate else Proceed);
    } else if w.exclusive.Some? {
      Moves(w, w.exclusive.value, CloseGate);
    } else {
      Moves(w, q, Proceed);
    }
  }

  /** Steps a process still has to take, closings included. */
  function Remaining(w: World, p: Pid): nat
    requires p in w.phases
  {
    match w.phases[p]
    case WantsIntent => 5 case WantsGate => 4 case Entered => 3 case Leased => 2 case Runs => 1
    case PollsIntent => 7 case HasIntent => 6 case Drains => 5 case HasGate => 4 case Ready => 3
    case DropsGate => 2 case DropsIntent => 1
    case Dying => (if w.intent == Some(p) then 1 else 0)
      + (if p in w.shared || w.exclusive == Some(p) then 1 else 0)
    case Gone => 0
  }

  /** Going on brings a process nearer to its end and sets nobody else back, so
      with no newcomers everything ends. */
  lemma FinishingProgress(w: World, p: Pid, a: Action)
    requires Sound(w) && p in w.phases && Finishing(a) && Act(w, p, a).Some?
    ensures Remaining(Act(w, p, a).value, p) < Remaining(w, p)
    ensures forall q :: q in w.phases && q != p ==> Remaining(Act(w, p, a).value, q) == Remaining(w, q)
    ensures Act(w, p, a).value.phases.Keys == w.phases.Keys
  {
  }

  function Total(w: World, bound: nat): nat {
    if bound == 0 then 0
    else (if bound - 1 in w.phases then Remaining(w, bound - 1) else 0) + Total(w, bound - 1)
  }

  lemma {:induction false} TotalFalls(v: World, w: World, p: Pid, bound: nat)
    requires p in v.phases && v.phases.Keys == w.phases.Keys && Remaining(w, p) < Remaining(v, p)
    requires forall q :: q in v.phases && q != p ==> Remaining(w, q) == Remaining(v, q)
    ensures Total(w, bound) + (if p < bound then 1 else 0) <= Total(v, bound)
  {
    hide Remaining;
    if bound > 0 {
      TotalFalls(v, w, p, bound - 1);
    }
  }

  ghost predicate Finishes(v: World, w: World) {
    exists p: Pid, a: Action :: p in v.phases && Finishing(a) && Act(v, p, a) == Some(w)
  }

  /** Without newcomers, aborts or crashes, every run ends within the steps that
      its processes still had to take. With NoDeadlock: they all finish. */
  lemma {:induction false} EverythingEnds(ws: seq<World>, bound: nat)
    requires |ws| > 0 && Sound(ws[0]) && forall k :: 0 < k < |ws| ==> Finishes(ws[k - 1], ws[k])
    requires forall p :: p in ws[0].phases ==> p < bound
    ensures |ws| - 1 + Total(ws[|ws| - 1], bound) <= Total(ws[0], bound)
  {
    if |ws| > 1 {
      assert Finishes(ws[0], ws[1]);
      var p: Pid, a: Action :| p in ws[0].phases && Finishing(a) && Act(ws[0], p, a) == Some(ws[1]);
      FinishingProgress(ws[0], p, a);
      ActSound(ws[0], p, a);
      TotalFalls(ws[0], ws[1], p, bound);
      var rest := ws[1..];
      assert forall k :: 0 < k < |rest| ==> Finishes(rest[k - 1], rest[k]) by {
        forall k | 0 < k < |rest|
          ensures Finishes(rest[k - 1], rest[k])
        {
          assert Finishes(ws[k + 1 - 1], ws[k + 1]);
        }
      }
      EverythingEnds(rest, bound);
    }
  }

  /** Where going on takes a process, and where giving up does. */
  function NextPhase(phase: Phase): Phase {
    match phase
    case WantsIntent => WantsGate case WantsGate => Entered case Entered => Leased case Leased => Runs
    case PollsIntent => HasIntent case HasIntent => Drains case Drains => HasGate case HasGate => Ready
    case Ready => DropsGate case DropsGate => DropsIntent
    case _ => Gone
  }

  predicate Waits(phase: Phase) {
    phase.WantsIntent? || phase.WantsGate? || phase.PollsIntent? || phase.Drains?
  }

  lemma Advances(w: World, p: Pid)
    requires p in w.phases && !w.phases[p].Dying? && !w.phases[p].Gone?
    ensures !Waits(w.phases[p]) ==> Advance(w, p).Some?
    ensures Advance(w, p).Some? ==> Advance(w, p).value.At(p, NextPhase(w.phases[p]))
  {
  }

  lemma GivesUp(w: World, p: Pid)
    requires p in w.phases && Waits(w.phases[p])
    ensures GiveUp(w, p).Some?
    ensures GiveUp(w, p).value.At(p, if w.phases[p].Drains? then DropsIntent else Gone)
  {
  }

  /** What holding a phase means for everybody else at that moment. */
  lemma PhaseExcludes(w: World, p: Pid)
    requires Sound(w)
    ensures w.At(p, Runs) ==> p in w.shared && forall q :: !w.At(q, Ready)
    ensures w.At(p, Ready) ==> forall q :: !w.At(q, Runs) && (w.At(q, Ready) ==> q == p)
    ensures w.At(p, Gone) ==> p !in w.shared && w.exclusive != Some(p) && w.intent != Some(p)
  {
  }

  /** The lock files of one originals library, as the processes share them. */
  class QueueRoot {
    var w: World

    constructor ()
      ensures w == EMPTY && Sound(w)
    {
      w := EMPTY;
    }

    /** One action of `p`, if it can be taken. */
    method Take(p: Pid, a: Action) returns (taken: bool)
      requires Sound(w)
      modifies this
      ensures Sound(w)
      ensures taken == Act(old(w), p, a).Some?
      ensures w == if taken then Act(old(w), p, a).value else old(w)
    {
      var next := Act(w, p, a);
      taken := next.Some?;
      if taken {
        ActSound(w, p, a);
        w := next.value;
      }
    }

    /** The other processes do whatever they can, for as long as they like. */
    method Others(p: Pid)
      requires Sound(w)
      modifies this
      ensures Sound(w)
      ensures p in old(w).phases ==> w.At(p, old(w).phases[p])
    {
      hide Sound, Act;
      var actions: nat := *;
      while actions > 0
        invariant Sound(w)
        invariant p in old(w).phases ==> w.At(p, old(w).phases[p])
      {
        var q: Pid := *;
        var a: Action := *;
        if q != p {
          OthersKeep(w, p, q, a);
          var _ := Take(q, a);
        }
        actions := actions - 1;
      }
    }

    /** Waits for a lock until it is granted, or gives up after `patience` tries. */
    method Await(p: Pid, patience: nat) returns (granted: bool)
      requires Sound(w) && p in w.phases && Waits(w.phases[p])
      modifies this
      ensures Sound(w)
      ensures w.At(p, if granted then NextPhase(old(w).phases[p]) else old(w).phases[p])
    {
      hide Sound, Advance;
      granted := false;
      var tries := 0;
      while tries < patience && !granted
        invariant Sound(w)
        invariant w.At(p, if granted then NextPhase(old(w).phases[p]) else old(w).phases[p])
      {
        Others(p);
        Advances(w, p);
        granted := Take(p, Proceed);
        tries := tries + 1;
      }
    }

    /** The others act, then `p` goes on: nothing can keep it from doing so. */
    method GoOn(p: Pid)
      requires Sound(w) && p in w.phases && !Waits(w.phases[p]) && !w.phases[p].Dying? && !w.phases[p].Gone?
      modifies this
      ensures Sound(w) && w.At(p, NextPhase(old(w).phases[p]))
    {
      hide Sound, Advance;
      Others(p);
      Advances(w, p);
      var _ := Take(p, Proceed);
    }

    method BackOut(p: Pid)
      requires Sound(w) && p in w.phases && Waits(w.phases[p])
      modifies this
      ensures Sound(w) && w.At(p, if old(w).phases[p].Drains? then DropsIntent else Gone)
    {
      hide Sound, GiveUp;
      Others(p);
      GivesUp(w, p);
      var _ := Take(p, Abort);
    }

    /** A queue command: through the intent to a share of the gate, then its body.
        While the body runs, whatever the others do, no cutover is ready; `during`
        is an arbitrary moment of that. */
    method CommandLease(p: Pid, patience: nat) returns (leased: bool, ghost during: World)
      requires Sound(w) && p !in w.phases
      modifies this
      ensures Sound(w)
      ensures leased ==> Sound(during) && during.At(p, Runs) && p in during.shared && forall q :: !during.At(q, Ready)
      ensures w.At(p, Gone) && p !in w.shared && w.exclusive != Some(p) && w.intent != Some(p)
    {
      hide Sound;
      during := w;
      var _ := Take(p, StartCommand);
      leased := Await(p, patience);
      if leased {
        leased := Await(p, patience);
      }
      if leased {
        GoOn(p);
        GoOn(p);
        Others(p);
        PhaseExcludes(w, p);
        during := w;
        GoOn(p);
      } else {
        BackOut(p);
      }
      PhaseExcludes(w, p);
    }

    /** A cutover: while it reports ready, whatever the others do, no command runs
        and no other cutover is ready; `during` is an arbitrary moment of that. */
    method HoldCutover(p: Pid, patience: nat) returns (ready: bool, ghost during: World)
      requires Sound(w) && p !in w.phases
      modifies this
      ensures Sound(w)
      ensures ready ==> Sound(during) && during.At(p, Ready)
                        && forall q :: !during.At(q, Runs) && (during.At(q, Ready) ==> q == p)
      ensures w.At(p, Gone) && p !in w.shared && w.exclusive != Some(p) && w.intent != Some(p)
    {
      hide Sound;
      during := w;
      var _ := Take(p, StartCutover);
      ready := Await(p, patience);
      if ready {
        GoOn(p);
        ready := Await(p, patience);
        if ready {
          GoOn(p);
          Others(p);
          PhaseExcludes(w, p);
          during := w;
          GoOn(p);
          GoOn(p);
        } else {
          BackOut(p);
        }
        GoOn(p);
      } else {
        BackOut(p);
      }
      PhaseExcludes(w, p);
    }
  }

  lemma OthersKeep(w: World, p: Pid, q: Pid, a: Action)
    requires Sound(w) && q != p
    ensures Act(w, q, a).Some? && p in w.phases ==> Act(w, q, a).value.At(p, w.phases[p])
  {
    hide Sound;
  }
}
