/** The caller's CUDA context around scopes, kernel calls and execution batches (cuda_backend.cpp).
    Every driver call may fail; its outcome is part of the step.  A failed cuCtxSetCurrent leaves the
    current context as it was. */
module CudaContext {
  import opened Results

  type Context = nat
  type Stream = nat
  type BatchId = nat

  datatype Batch = Batch(stream: Stream, previous: Context, submitted: bool)

  /** `failed` is the sticky restore flag; `open` holds the active batches; a stream in `locked` has its
      submission mutex held. */
  datatype State = State(current: Context, failed: bool, locked: set<Stream>, open: map<BatchId, Batch>)

  /** Steps with the outcomes of their driver calls. */
  datatype Step =
    | Begin(id: BatchId, stream: Stream, getOk: bool, setOk: bool)
    | Enqueue(id: BatchId, launchOk: bool)
    | Wait(id: BatchId, eventsOk: bool, restoreOk: bool)
    | Drop(id: BatchId, restoreOk: bool)
    | KernelCall(context: Context, getOk: bool, setOk: bool, bodyOk: bool, restoreOk: bool)
    | Scope(context: Context, getOk: bool, ensureOk: bool, setOk: bool, readOk: bool, bodyOk: bool,
            restoreOk: bool, finalOk: bool)

  type Contexts = Stream -> Context

  /** A restore: on failure the flag is set and the context stays. */
  function Restored(s: State, context: Context, ok: bool): State {
    if ok then s.(current := context) else s.(failed := true)
  }

  function Closed(s: State, id: BatchId): State
    requires id in s.open
  {
    s.(open := s.open - {id}, locked := s.locked - {s.open[id].stream})
  }

  /** A mutex cannot be taken twice, and a batch object is created once. */
  predicate Enabled(s: State, step: Step) {
    step.Begin? ==> step.id !in s.open && step.stream !in s.locked
  }

  function Apply(s: State, step: Step, contexts: Contexts): State {
    match step
    case Begin(id, stream, getOk, setOk) =>
      if s.failed || !getOk || !setOk then s
      else s.(open := s.open[id := Batch(stream, s.current, false)], locked := s.locked + {stream},
              current := contexts(stream))
    case Enqueue(id, launchOk) =>
      if id in s.open && launchOk then s.(open := s.open[id := s.open[id].(submitted := true)]) else s
    case Wait(id, eventsOk, restoreOk) =>
      if id !in s.open then s
      else
        var b := s.open[id];
        var restored := Restored(s, b.previous, restoreOk);
        // Without a launch a failed restore leaves the batch active for its destructor.
        if !b.submitted && !restoreOk then restored else Closed(restored, id)
    case Drop(id, restoreOk) =>
      if id !in s.open then s else Closed(Restored(s, s.open[id].previous, restoreOk), id)
    case KernelCall(context, getOk, setOk, bodyOk, restoreOk) =>
      if s.failed || !getOk || !setOk then s else Restored(s.(current := context), s.current, restoreOk)
    case Scope(context, getOk, ensureOk, setOk, readOk, bodyOk, restoreOk, finalOk) =>
      if s.failed || !getOk then s
      else
        var entered := ensureOk && (s.current == context || setOk);
        var inside := if entered then s.(current := context) else s;
        if !entered || !readOk || !bodyOk then Restored(inside, s.current, finalOk)
        else if restoreOk then Restored(inside, s.current, true)
        else Restored(Restored(inside, s.current, false), s.current, finalOk)
  }

  // ----- the backend's methods -----------------------------------------------------------------------

  /** The part of the backend that these calls update. */
  class Backend {
    var current: Context
    var restoreFailed: bool
    var locked: set<Stream>
    var open: map<BatchId, Batch>
    const contexts: Contexts

    constructor (context: Context, contexts: Contexts)
      ensures Now() == State(context, false, {}, map[]) && this.contexts == contexts
    {
      current, restoreFailed, locked, open := context, false, {}, map[];
      this.contexts := contexts;
    }

    function Now(): State
      reads this
    {
      State(current, restoreFailed, locked, open)
    }

    method SetCurrent(context: Context, ok: bool)
      modifies this`current
      ensures current == if ok then context else old(current)
    {
      if ok { current := context; }
    }

    /** `restore_context` and `restore_context_noexcept`; the first also throws when not ok. */
    method Restore(context: Context, ok: bool)
      modifies this`current, this`restoreFailed
      ensures Now() == Restored(old(Now()), context, ok)
    {
      SetCurrent(context, ok);
      if !ok { restoreFailed := true; }
    }

    /** `CudaExecutionBatch::Impl`: the lock is taken first and given back if entry fails. */
    method BeginBatch(id: BatchId, stream: Stream, getOk: bool, setOk: bool) returns (ok: bool)
      requires id !in open && stream !in locked
      modifies this
      ensures Now() == Apply(old(Now()), Begin(id, stream, getOk, setOk), contexts)
      ensures ok <==> id in open
    {
      locked := locked + {stream};
      if restoreFailed || !getOk {
        locked := locked - {stream};
        return false;
      }
      var previous := current;
      SetCurrent(contexts(stream), setOk);
      if !setOk {
        locked := locked - {stream};
        return false;
      }
      open := open[id := Batch(stream, previous, false)];
      return true;
    }

    /** `CudaKernel::enqueue` as far as the batch is concerned. */
    method EnqueueLaunch(id: BatchId, launchOk: bool) returns (ok: bool)
      modifies this`open
      ensures Now() == Apply(old(Now()), Enqueue(id, launchOk), contexts)
    {
      if id !in open || !launchOk { return false; }
      open := open[id := open[id].(submitted := true)];
      return true;
    }

    method Deactivate(id: BatchId)
      requires id in open
      modifies this`open, this`locked
      ensures Now() == Closed(old(Now()), id)
    {
      var stream := open[id].stream;
      open := open - {id};
      locked := locked - {stream};
    }

    /** `abandon`, also the destructor: synchronisation errors are ignored. */
    method Abandon(id: BatchId, restoreOk: bool)
      modifies this
      ensures Now() == Apply(old(Now()), Drop(id, restoreOk), contexts)
    {
      if id !in open { return; }
      Restore(open[id].previous, restoreOk);
      Deactivate(id);
    }

    /** `CudaExecutionBatch::wait`. */
    method WaitBatch(id: BatchId, eventsOk: bool, restoreOk: bool) returns (ok: bool)
      modifies this
      ensures Now() == Apply(old(Now()), Wait(id, eventsOk, restoreOk), contexts)
      ensures ok ==> id in old(open) && restoreOk
    {
      if id !in open { return false; }
      var previous := open[id].previous;
      if !open[id].submitted {
        Restore(previous, restoreOk);
        if !restoreOk { return false; }
        Deactivate(id);
        return true;
      }
      if !eventsOk {
        Abandon(id, restoreOk);
        return false;
      }
      Restore(previous, restoreOk);
      Deactivate(id);
      return restoreOk;
    }

    /** Module loading, kernel launch and synchronise, and unload share this shape. */
    method CallInContext(context: Context, getOk: bool, setOk: bool, bodyOk: bool, restoreOk: bool) returns (ok: bool)
      modifies this
      ensures Now() == Apply(old(Now()), KernelCall(context, getOk, setOk, bodyOk, restoreOk), contexts)
      ensures ok ==> bodyOk && restoreOk
    {
      if restoreFailed || !getOk { return false; }
      var previous := current;
      SetCurrent(context, setOk);
      if !setOk { return false; }
      Restore(previous, restoreOk);
      return bodyOk && restoreOk;
    }

    /** `PrimaryContextScope` around a body: constructor, body, `restore`, destructor. */
    method InPrimaryScope(context: Context, getOk: bool, ensureOk: bool, setOk: bool, readOk: bool, bodyOk: bool,
                          restoreOk: bool, finalOk: bool)
      returns (ok: bool)
      modifies this
      ensures Now() == Apply(old(Now()), Scope(context, getOk, ensureOk, setOk, readOk, bodyOk, restoreOk, finalOk), contexts)
      ensures ok ==> bodyOk && restoreOk
    {
      if restoreFailed || !getOk { return false; }
      var previous := current;
      var entered := ensureOk;
      if ensureOk && current != context {
        SetCurrent(context, setOk);
        entered := setOk;
      }
      if !entered || !readOk || !bodyOk {
        Restore(previous, finalOk);
        return false;
      }
      Restore(previous, restoreOk);
      if !restoreOk {
        Restore(previous, finalOk);
        return false;
      }
      return true;
    }
  }

  // ----- every step ----------------------------------------------------------------------------------

  /** A submission lock is held exactly while a batch on that stream is active, and by one batch. */
  ghost predicate LocksMatch(s: State) { LocksHeld(s.open, s.locked) }

  ghost predicate LocksHeld(open: map<BatchId, Batch>, locked: set<Stream>) {
    && (forall id :: id in open ==> open[id].stream in locked)
    && (forall stream :: stream in locked ==> HasBatch(open, stream))
    && (forall a, b :: a in open && b in open && a != b ==> open[a].stream != open[b].stream)
  }

  ghost predicate HasBatch(open: map<BatchId, Batch>, stream: Stream) {
    exists id :: id in open && open[id].stream == stream
  }

  lemma {:induction false} OpenKeepsLocks(open: map<BatchId, Batch>, locked: set<Stream>, id: BatchId, b: Batch)
    requires LocksHeld(open, locked) && id !in open && b.stream !in locked
    ensures LocksHeld(open[id := b], locked + {b.stream})
  {
    var open1 := open[id := b];
    forall stream | stream in locked + {b.stream} ensures HasBatch(open1, stream) {
      if stream == b.stream {
        assert id in open1 && open1[id].stream == stream;
      } else {
        var old_id :| old_id in open && open[old_id].stream == stream;
        assert old_id in open1 && open1[old_id].stream == stream;
      }
    }
  }

  lemma {:induction false} UpdateKeepsLocks(open: map<BatchId, Batch>, locked: set<Stream>, id: BatchId, b: Batch)
    requires LocksHeld(open, locked) && id in open && b.stream == open[id].stream
    ensures LocksHeld(open[id := b], locked)
  {
    var open1 := open[id := b];
    forall stream | stream in locked ensures HasBatch(open1, stream) {
      var other :| other in open && open[other].stream == stream;
      assert other in open1 && open1[other].stream == stream;
    }
  }

  lemma {:induction false} CloseKeepsLocks(open: map<BatchId, Batch>, locked: set<Stream>, id: BatchId)
    requires LocksHeld(open, locked) && id in open
    ensures LocksHeld(open - {id}, locked - {open[id].stream})
  {
    var open1 := open - {id};
    forall stream | stream in locked - {open[id].stream} ensures HasBatch(open1, stream) {
      var other :| other in open && open[other].stream == stream;
      assert other in open1 && open1[other].stream == stream;
    }
  }

  lemma {:induction false} StepKeepsLocks(s: State, step: Step, contexts: Contexts)
    requires LocksMatch(s) && Enabled(s, step)
    ensures LocksMatch(Apply(s, step, contexts))
  {
    match step
    case Begin(id, stream, _, _) => OpenKeepsLocks(s.open, s.locked, id, Batch(stream, s.current, false));
    case Enqueue(id, _) =>
      if id in s.open { UpdateKeepsLocks(s.open, s.locked, id, s.open[id].(submitted := true)); }
    case Wait(id, _, _) => if id in s.open { CloseKeepsLocks(s.open, s.locked, id); }
    case Drop(id, _) => if id in s.open { CloseKeepsLocks(s.open, s.locked, id); }
    case _ =>
  }

  /** A context call gives the caller's context back or sets the flag; so does every entry that fails. */
  lemma {:induction false} CallRestoresOrFlags(s: State, step: Step, contexts: Contexts)
    requires step.KernelCall? || step.Scope?
    ensures var t := Apply(s, step, contexts); t.current == s.current || t.failed
  {
  }

  /** Closing an active batch, in whatever order batches are closed, gives back the context that was current when it
      was opened or sets the flag; and opening one changes the context only if it succeeds. */
  lemma {:induction false} BatchRestoresOrFlags(s: State, step: Step, contexts: Contexts)
    requires step.Begin? || ((step.Wait? || step.Drop?) && step.id in s.open)
    ensures var t := Apply(s, step, contexts);
      if !step.Begin? then t.failed || (t.current == s.open[step.id].previous && step.id !in t.open)
      else if step.id in t.open && step.id !in s.open
        then t.current == contexts(step.stream) && t.open[step.id].previous == s.current
      else step.id !in s.open ==> t == s
  {
  }

  /** Once set, the flag stays, and no scope, call or batch is entered any more. */
  lemma {:induction false} FlagIsSticky(s: State, step: Step, contexts: Contexts)
    requires s.failed
    ensures Apply(s, step, contexts).failed
    ensures step.Begin? || step.KernelCall? || step.Scope? ==> Apply(s, step, contexts) == s
  {
  }

  // ----- whole runs ------------------------------------------------------------------------------------

  predicate Possible(s: State, steps: seq<Step>, contexts: Contexts)
    decreases |steps|
  {
    steps == [] || (Enabled(s, steps[0]) && Possible(Apply(s, steps[0], contexts), steps[1..], contexts))
  }

  function Run(s: State, steps: seq<Step>, contexts: Contexts): State
    decreases |steps|
  {
    if steps == [] then s else Run(Apply(s, steps[0], contexts), steps[1..], contexts)
  }

  function Initial(context: Context): State { State(context, false, {}, map[]) }

  lemma {:induction false} RunKeepsLocks(s: State, steps: seq<Step>, contexts: Contexts)
    requires LocksMatch(s) && Possible(s, steps, contexts)
    ensures LocksMatch(Run(s, steps, contexts))
    decreases |steps|
  {
    if steps != [] {
      StepKeepsLocks(s, steps[0], contexts);
      RunKeepsLocks(Apply(s, steps[0], contexts), steps[1..], contexts);
    }
  }

  /** The stack of active batches after a step, newest last. */
  function StackAfter(stack: seq<BatchId>, s: State, step: Step, contexts: Contexts): seq<BatchId> {
    if Pushes(s, step, contexts) then stack + [step.id]
    else if Pops(s, step, contexts) && stack != [] then stack[..|stack| - 1]
    else stack
  }

  /** Batches are waited for or dropped newest first. */
  predicate NestedStep(stack: seq<BatchId>, s: State, step: Step) {
    (step.Wait? || step.Drop?) && step.id in s.open ==> stack != [] && stack[|stack| - 1] == step.id
  }

  predicate Nested(stack: seq<BatchId>, s: State, steps: seq<Step>, contexts: Contexts)
    decreases |steps|
  {
    steps == [] ||
    (NestedStep(stack, s, steps[0])
     && Nested(StackAfter(stack, s, steps[0], contexts), Apply(s, steps[0], contexts), steps[1..], contexts))
  }

  /** The context that should be current over a stack of batches. */
  function Top(stack: seq<BatchId>, open: map<BatchId, Batch>, caller: Context, contexts: Contexts): Context {
    if stack == [] || stack[|stack| - 1] !in open then caller else contexts(open[stack[|stack| - 1]].stream)
  }

  /** Each batch saved the context of the one below it; the caller's own lies at the bottom. */
  ghost predicate Linked(stack: seq<BatchId>, open: map<BatchId, Batch>, caller: Context, contexts: Contexts) {
    stack == [] ||
    var n := |stack| - 1;
    && stack[n] in open && stack[n] !in stack[..n]
    && open[stack[n]].previous == Top(stack[..n], open, caller, contexts)
    && Linked(stack[..n], open, caller, contexts)
  }

  ghost predicate Chained(stack: seq<BatchId>, s: State, caller: Context, contexts: Contexts) {
    && (forall id :: id in s.open ==> id in stack)
    && Linked(stack, s.open, caller, contexts)
    && (s.failed || s.current == Top(stack, s.open, caller, contexts))
  }

  /** Linking only looks at the stacked batches' streams and saved contexts. */
  lemma {:induction false} LinkedFrame(stack: seq<BatchId>, open: map<BatchId, Batch>, open1: map<BatchId, Batch>,
                                       caller: Context, contexts: Contexts)
    requires Linked(stack, open, caller, contexts)
    requires forall id :: id in stack && id in open ==>
      id in open1 && open1[id].stream == open[id].stream && open1[id].previous == open[id].previous
    ensures Linked(stack, open1, caller, contexts)
    ensures Top(stack, open1, caller, contexts) == Top(stack, open, caller, contexts)
  {
    if stack != [] {
      var n := |stack| - 1;
      assert stack[n] in stack;
      LinkedFrame(stack[..n], open, open1, caller, contexts);
    }
  }

  predicate Pushes(s: State, step: Step, contexts: Contexts) {
    step.Begin? && step.id in Apply(s, step, contexts).open
  }

  predicate Pops(s: State, step: Step, contexts: Contexts) {
    (step.Wait? || step.Drop?) && step.id in s.open && step.id !in Apply(s, step, contexts).open
  }

  lemma {:induction false} PushKeepsChain(stack: seq<BatchId>, s: State, t: State, id: BatchId, b: Batch, caller: Context, contexts: Contexts)
    requires Chained(stack, s, caller, contexts) && id !in s.open && id !in stack && !s.failed
    requires t == s.(open := s.open[id := b], current := contexts(b.stream), locked := t.locked)
    requires b.previous == s.current
    ensures Chained(stack + [id], t, caller, contexts)
  {
    LinkedFrame(stack, s.open, t.open, caller, contexts);
    assert (stack + [id])[..|stack|] == stack;
  }

  lemma {:induction false} PopKeepsChain(stack: seq<BatchId>, s: State, t: State, id: BatchId, caller: Context, contexts: Contexts)
    requires Chained(stack, s, caller, contexts)
    requires stack != [] && stack[|stack| - 1] == id && id in s.open
    requires t.open == s.open - {id} && (t.failed || t.current == s.open[id].previous)
    ensures Chained(stack[..|stack| - 1], t, caller, contexts)
  {
    LinkedFrame(stack[..|stack| - 1], s.open, t.open, caller, contexts);
    assert stack == stack[..|stack| - 1] + [id];
  }

  lemma {:induction false} SameKeepsChain(stack: seq<BatchId>, s: State, t: State, caller: Context, contexts: Contexts)
    requires Chained(stack, s, caller, contexts)
    requires t.open.Keys == s.open.Keys && (t.failed || (!s.failed && t.current == s.current))
    requires forall id :: id in s.open ==>
      t.open[id].stream == s.open[id].stream && t.open[id].previous == s.open[id].previous
    ensures Chained(stack, t, caller, contexts)
  {
    assert forall id :: id in t.open <==> id in t.open.Keys;
    LinkedFrame(stack, s.open, t.open, caller, contexts);
  }

  lemma {:induction false} LinkedAreOpen(stack: seq<BatchId>, open: map<BatchId, Batch>, id: BatchId,
                                         caller: Context, contexts: Contexts)
    requires Linked(stack, open, caller, contexts) && id in stack
    ensures id in open
  {
    var n := |stack| - 1;
    if id != stack[n] {
      assert stack == stack[..n] + [stack[n]];
      LinkedAreOpen(stack[..n], open, id, caller, contexts);
    }
  }

  lemma {:induction false} StepKeepsChain(stack: seq<BatchId>, s: State, step: Step, caller: Context, contexts: Contexts)
    requires Chained(stack, s, caller, contexts)
    requires Enabled(s, step) && NestedStep(stack, s, step)
    ensures var t, u := Apply(s, step, contexts), StackAfter(stack, s, step, contexts);
      Chained(u, t, caller, contexts)
  {
    if Pushes(s, step, contexts) {
      var b := Batch(step.stream, s.current, false);
      if step.id in stack {
        LinkedAreOpen(stack, s.open, step.id, caller, contexts);
      }
      PushKeepsChain(stack, s, Apply(s, step, contexts), step.id, b, caller, contexts);
    } else if Pops(s, step, contexts) {
      PopKeepsChain(stack, s, Apply(s, step, contexts), step.id, caller, contexts);
    } else {
      SameKeepsChain(stack, s, Apply(s, step, contexts), caller, contexts);
    }
  }

  /** The main theorem on runs: with newest-first closing, however the driver fails, the caller's
      context is current again whenever no batch is active, or the flag is set. */
  lemma {:induction false} NestedRunRestores(stack: seq<BatchId>, s: State, steps: seq<Step>, caller: Context,
                                             contexts: Contexts)
    requires Chained(stack, s, caller, contexts)
    requires Possible(s, steps, contexts) && Nested(stack, s, steps, contexts)
    ensures var t := Run(s, steps, contexts); t.failed || t.open != map[] || t.current == caller
    decreases |steps|
  {
    if steps == [] {
      if stack != [] {
        LinkedAreOpen(stack, s.open, stack[0], caller, contexts);
      }
    } else {
      StepKeepsChain(stack, s, steps[0], caller, contexts);
      NestedRunRestores(StackAfter(stack, s, steps[0], contexts), Apply(s, steps[0], contexts), steps[1..],
                        caller, contexts);
    }
  }

  lemma {:induction false} CallerContextKept(steps: seq<Step>, caller: Context, contexts: Contexts)
    requires Possible(Initial(caller), steps, contexts) && Nested([], Initial(caller), steps, contexts)
    ensures var t := Run(Initial(caller), steps, contexts);
      LocksMatch(t) && (t.failed || t.open != map[] || t.current == caller)
  {
    NestedRunRestores([], Initial(caller), steps, caller, contexts);
    RunKeepsLocks(Initial(caller), steps, contexts);
  }

  // ----- closing in any order ---------------------------------------------------------------------------

  /** What the caller sees: batches opened on a stream, and batches closed. */
  datatype Event = OpenedOn(id: BatchId, stream: Stream) | ClosedAgain(id: BatchId)

  /** The batch was opened and not closed since. */
  predicate IsActive(events: seq<Event>, id: BatchId) {
    events != [] &&
    var n := |events| - 1;
    if events[n].id == id then events[n].OpenedOn? else IsActive(events[..n], id)
  }

  /** A call as the caller sees it, from its arguments and whether it succeeded; closing an inactive batch is no
      event. */
  function LogStep(events: seq<Event>, step: Step): seq<Event> {
    if step.Begin? && step.getOk && step.setOk then events + [OpenedOn(step.id, step.stream)]
    else if (step.Wait? || step.Drop?) && IsActive(events, step.id) then events + [ClosedAgain(step.id)]
    else events
  }

  function Log(events: seq<Event>, steps: seq<Step>): seq<Event>
    decreases |steps|
  {
    if steps == [] then events else Log(LogStep(events, steps[0]), steps[1..])
  }

  /** How many events stand before the batch's latest opening. */
  function BeforeOpening(events: seq<Event>, id: BatchId): (n: nat)
    ensures n <= |events|
  {
    if events == [] then 0
    else
      var n := |events| - 1;
      if events[n].OpenedOn? && events[n].id == id then n else BeforeOpening(events[..n], id)
  }

  /** Whose context the events leave: the stream's for an opening; for a closing, whatever the events before that
      batch's opening left; None is the caller's own. */
  function Origin(events: seq<Event>): Option<Stream>
    decreases |events|
  {
    if events == [] then None
    else
      var n := |events| - 1;
      match events[n]
      case OpenedOn(_, stream) => Some(stream)
      case ClosedAgain(id) => Origin(events[..BeforeOpening(events[..n], id)])
  }

  function OriginContext(events: seq<Event>, caller: Context, contexts: Contexts): Context {
    var origin := Origin(events);
    if origin.None? then caller else contexts(origin.value)
  }

  /** An unflagged state agrees with the events so far. */
  ghost predicate Tracks(s: State, events: seq<Event>, caller: Context, contexts: Contexts) {
    s.failed ||
    (&& s.current == OriginContext(events, caller, contexts)
     && (forall id :: id in s.open <==> IsActive(events, id))
     && (forall id :: id in s.open ==>
           s.open[id].previous == OriginContext(events[..BeforeOpening(events, id)], caller, contexts)))
  }

  /** One more event of another batch, or the closing of this one, leaves its opening where it was. */
  lemma {:induction false} OpeningStays(events: seq<Event>, e: Event, id: BatchId)
    requires e.OpenedOn? ==> e.id != id
    ensures var n := BeforeOpening(events, id);
      BeforeOpening(events + [e], id) == n && (events + [e])[..n] == events[..n]
    ensures e.id != id ==> (IsActive(events + [e], id) <==> IsActive(events, id))
  {
    assert (events + [e])[..|events|] == events;
  }

  lemma {:induction false} OpeningTracks(s: State, events: seq<Event>, id: BatchId, stream: Stream, caller: Context,
                                         contexts: Contexts)
    requires Tracks(s, events, caller, contexts) && Enabled(s, Begin(id, stream, true, true))
    ensures Tracks(Apply(s, Begin(id, stream, true, true), contexts), events + [OpenedOn(id, stream)], caller, contexts)
  {
    if !s.failed {
      var e := OpenedOn(id, stream);
      var after := events + [e];
      var t := Apply(s, Begin(id, stream, true, true), contexts);
      assert after[..|events|] == events;
      forall other ensures other in t.open <==> IsActive(after, other) {
        if other != id { OpeningStays(events, e, other); }
      }
      forall other | other in t.open
        ensures t.open[other].previous == OriginContext(after[..BeforeOpening(after, other)], caller, contexts)
      {
        if other != id { OpeningStays(events, e, other); }
      }
    }
  }

  lemma {:induction false} ClosingTracks(s: State, t: State, events: seq<Event>, id: BatchId, caller: Context,
                                         contexts: Contexts)
    requires Tracks(s, events, caller, contexts) && !s.failed && id in s.open
    requires t.failed || (t.open == s.open - {id} && t.current == s.open[id].previous)
    ensures Tracks(t, events + [ClosedAgain(id)], caller, contexts)
  {
    if !t.failed {
      var e := ClosedAgain(id);
      var after := events + [e];
      assert after[..|events|] == events;
      OpeningStays(events, e, id);
      assert Origin(after) == Origin(events[..BeforeOpening(events, id)]);
      forall other ensures other in t.open <==> IsActive(after, other) {
        OpeningStays(events, e, other);
      }
      forall other | other in t.open
        ensures t.open[other].previous == OriginContext(after[..BeforeOpening(after, other)], caller, contexts)
      {
        OpeningStays(events, e, other);
      }
    }
  }

  lemma {:induction false} StepTracks(s: State, step: Step, events: seq<Event>, caller: Context, contexts: Contexts)
    requires Tracks(s, events, caller, contexts) && Enabled(s, step)
    ensures Tracks(Apply(s, step, contexts), LogStep(events, step), caller, contexts)
  {
    if !s.failed {
      match step
      case Begin(id, stream, getOk, setOk) =>
        if getOk && setOk { OpeningTracks(s, events, id, stream, caller, contexts); }
      case Wait(id, _, _) =>
        if id in s.open { ClosingTracks(s, Apply(s, step, contexts), events, id, caller, contexts); }
      case Drop(id, _) =>
        if id in s.open { ClosingTracks(s, Apply(s, step, contexts), events, id, caller, contexts); }
      case Enqueue(id, _) =>
      case KernelCall(_, _, _, _, _) =>
      case Scope(_, _, _, _, _, _, _, _) =>
    }
  }

  lemma {:induction false} RunTracks(s: State, steps: seq<Step>, events: seq<Event>, caller: Context, contexts: Contexts)
    requires Tracks(s, events, caller, contexts) && Possible(s, steps, contexts)
    ensures Tracks(Run(s, steps, contexts), Log(events, steps), caller, contexts)
    decreases |steps|
  {
    hide Tracks, Apply, LogStep, Enabled;
    if steps != [] {
      StepTracks(s, steps[0], events, caller, contexts);
      RunTracks(Apply(s, steps[0], contexts), steps[1..], LogStep(events, steps[0]), caller, contexts);
    }
  }

  /** The exact condition, for batches closed in any order, however the driver fails: an unflagged run leaves the
      context of the origin of its openings and closings, so the caller's is current exactly if there is no origin,
      or the origin's stream has the caller's context.  The batches still active are those the events leave open. */
  lemma {:induction false} OriginDecides(steps: seq<Step>, caller: Context, contexts: Contexts)
    requires Possible(Initial(caller), steps, contexts) && !Run(Initial(caller), steps, contexts).failed
    ensures var t, origin := Run(Initial(caller), steps, contexts), Origin(Log([], steps));
      && t.current == (if origin.None? then caller else contexts(origin.value))
      && (t.current == caller <==> origin.None? || contexts(origin.value) == caller)
    ensures forall id :: id in Run(Initial(caller), steps, contexts).open <==> IsActive(Log([], steps), id)
  {
    RunTracks(Initial(caller), steps, [], caller, contexts);
  }

  /** Out of order the promise fails.  Two overlapping batches closed oldest first, every driver call
      succeeding, leave the first stream's context, whatever the caller's was. */
  lemma {:induction false} OverlapRestoresWrongContext(caller: Context, first: Stream, second: Stream, contexts: Contexts)
    requires first != second
    ensures var steps := [Begin(0, first, true, true), Begin(1, second, true, true),
                          Wait(0, true, true), Wait(1, true, true)];
      var t := Run(Initial(caller), steps, contexts);
      && Possible(Initial(caller), steps, contexts) && !t.failed && t.open == map[]
      && t.current == contexts(first) && Origin(Log([], steps)) == Some(first)
      && (contexts(first) != caller ==> t.current != caller)
  {
    var steps := [Begin(0, first, true, true), Begin(1, second, true, true), Wait(0, true, true), Wait(1, true, true)];
    var s0 := Initial(caller);
    var s1 := Apply(s0, steps[0], contexts);
    var s2 := Apply(s1, steps[1], contexts);
    var s3 := Apply(s2, steps[2], contexts);
    var s4 := Apply(s3, steps[3], contexts);
    assert s4.open == map[] && s4.current == contexts(first) && !s4.failed;
    assert steps[1..][1..] == steps[2..] && steps[2..][1..] == steps[3..] && steps[3..][1..] == [];
    assert Run(s3, steps[3..], contexts) == s4 && Possible(s3, steps[3..], contexts);
    assert Run(s2, steps[2..], contexts) == s4 && Possible(s2, steps[2..], contexts);
    assert Run(s1, steps[1..], contexts) == s4 && Possible(s1, steps[1..], contexts);
    OverlapOrigin(steps, first, second);
  }

  lemma {:induction false} OverlapOrigin(steps: seq<Step>, first: Stream, second: Stream)
    requires steps == [Begin(0, first, true, true), Begin(1, second, true, true), Wait(0, true, true), Wait(1, true, true)]
    ensures Origin(Log([], steps)) == Some(first)
  {
    var e0, e1, e2, e3 := OpenedOn(0, first), OpenedOn(1, second), ClosedAgain(0), ClosedAgain(1);
    assert [e0, e1][..1] == [e0];
    assert IsActive([e0], 0) && IsActive([e0, e1], 0);
    assert [e0, e1, e2][..2] == [e0, e1];
    assert IsActive([e0, e1], 1) && IsActive([e0, e1, e2], 1);
    assert [] + [e0] == [e0] && [e0] + [e1] == [e0, e1] && [e0, e1] + [e2] == [e0, e1, e2];
    assert steps[1..][1..] == steps[2..] && steps[2..][1..] == steps[3..] && steps[3..][1..] == [];
    var all := [e0, e1, e2] + [e3];
    assert Log([e0, e1, e2], steps[3..]) == all;
    assert Log([e0, e1], steps[2..]) == all;
    assert Log([e0], steps[1..]) == all;
    assert Log([], steps) == all;
    assert BeforeOpening([e0, e1], 1) == 1 && BeforeOpening([e0, e1, e2], 1) == 1;
    assert all[..3] == [e0, e1, e2] && all[..1] == [e0];
  }
}
