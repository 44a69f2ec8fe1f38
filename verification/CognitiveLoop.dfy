/** The kernel's loop: lines in, frames out, and a bounded number of retries in between. */
module CognitiveLoop {
  import opened Common
  import opened Seraph
  import opened Warden

  const MAX_RECOVERY_ATTEMPTS: nat := 2
  const REVISE: string := "SYSTEM ALERT: revise your previous action"
  const WARDEN_FEEDBACK: string := "WARDEN ERROR: grammar or inference failure"

  datatype DispatchOutcome = DispatchOutcome(success: bool, errorMessage: string)

  /** What the loop is wired to. The executor has a state of its own, of any type, and may answer
      anything; one that leaves by an exception takes the loop with it. */
  datatype Wiring<!X> = Wiring(
    brain: Option<Brain>,
    buildPrompt: AgentContext -> string,
    grammar: string,
    execute: (X, InvocationRequest) -> (Outcome, X),
    semanticFeedback: ExecutionError -> string,
    systemCapabilities: Exports,
    promptCapabilities: seq<string>)

  /** What happens in a run. A dispatch without outcome is one that an exception cut short. */
  datatype Event =
    | Read(line: string)
    | Thought(context: AgentContext, result: Result<CognitiveFrame, WardenError>)
    | Dispatched(frame: CognitiveFrame, outcome: Option<DispatchOutcome>)

  datatype Stop = InputClosed | ExitDirective | ExceptionEscaped

  datatype State<X> = State(input: seq<string>, context: AgentContext, generations: nat, nextFrameId: U64, executor: X)

  // ---- One turn of the loop, as a value ----

  function Enforce<X>(w: Wiring<X>, s: State<X>): (Result<CognitiveFrame, WardenError>, State<X>) {
    if w.brain.None? then (Err(InferenceTimeout), s)
    else if s.context.currentStimulus == "" && s.context.lastActionFeedback.None? then (Err(GrammarViolation), s)
    else
      var asked := s.(generations := s.generations + 1);
      match Judge(w.brain.value(s.generations, w.buildPrompt(s.context), w.grammar))
      case Err(e) => (Err(e), asked)
      case Ok(intent) =>
        var next := (s.nextFrameId + 1) % 0x1_0000_0000_0000_0000;
        (Ok(CognitiveFrame(s.nextFrameId, intent)), asked.(nextFrameId := next))
  }

  function RequestOf<X>(w: Wiring<X>, i: Intent): InvocationRequest
    requires i.InvokeSeraph?
  {
    InvocationRequest(i.targetWasmModule, i.targetFunction, i.arguments, w.systemCapabilities)
  }

  /** The outcome of an intent, None when the executor's exception passes through; and the executor's
      state after it. */
  function Dispatch<X>(w: Wiring<X>, x: X, i: Intent): (Option<DispatchOutcome>, X) {
    match i
    case System2Think(_) => (Some(DispatchOutcome(true, "")), x)
    case QueryMerovingian(_, _) => (Some(DispatchOutcome(false, "MEROVINGIAN unavailable")), x)
    case BroadcastSmith(_, _) => (Some(DispatchOutcome(false, "SMITH broadcast unavailable")), x)
    case InvokeSeraph(_, _, _) =>
      var (outcome, after) := w.execute(x, RequestOf(w, i));
      match outcome
      case Threw => (None, after)
      case Unlogged => (None, after)
      case Failed(e) => (Some(DispatchOutcome(false, w.semanticFeedback(e))), after)
      case Returned(_) => (Some(DispatchOutcome(true, "")), after)
  }

  function Cleared(c: AgentContext): AgentContext { c.(lastActionFeedback := None, recoveryAttempts := 0) }

  /** Notes a failure, or gives up and returns to input mode after the second retry. */
  function Retry(c: AgentContext, message: string): AgentContext {
    if c.recoveryAttempts + 1 > MAX_RECOVERY_ATTEMPTS then Cleared(c)
    else c.(lastActionFeedback := Some(message), recoveryAttempts := c.recoveryAttempts + 1)
  }

  datatype Turn<X> = Turn(events: seq<Event>, stop: Option<Stop>, state: State<X>)

  /** From the stimulus on. */
  function Think<X>(w: Wiring<X>, s: State<X>): Turn<X> {
    var (r, after) := Enforce(w, s);
    match r
    case Err(_) => Turn([Thought(s.context, r)], None, after.(context := Retry(s.context, WARDEN_FEEDBACK)))
    case Ok(frame) =>
      var (outcome, x) := Dispatch(w, after.executor, frame.intent);
      var events := [Thought(s.context, r), Dispatched(frame, outcome)];
      var dispatched := after.(executor := x);
      match outcome
      case None => Turn(events, Some(ExceptionEscaped), dispatched)
      case Some(o) =>
        var next := if o.success then Cleared(s.context) else Retry(s.context, o.errorMessage);
        Turn(events, None, dispatched.(context := next))
  }

  function Step<X>(w: Wiring<X>, s: State<X>): Turn<X> {
    if s.context.lastActionFeedback.Some? then
      Think(w, s.(context := s.context.(currentStimulus := REVISE)))
    else if s.input == [] then Turn([], Some(InputClosed), s)
    else
      var line := s.input[0];
      var read := s.(input := s.input[1..], context := s.context.(currentStimulus := line));
      if line == "exit" then Turn([Read(line)], Some(ExitDirective), read)
      else if line == "" then Turn([Read(line)], None, read)
      else
        var t := Think(w, read);
        t.(events := [Read(line)] + t.events)
  }

  /** What holds at every loop head: feedback is pending exactly when attempts have been made, and
      there are never more than two. */
  predicate AtHead<X>(w: Wiring<X>, s: State<X>) {
    && (s.context.lastActionFeedback.Some? <==> s.context.recoveryAttempts > 0)
    && s.context.recoveryAttempts <= MAX_RECOVERY_ATTEMPTS
    && s.context.availableCapabilities == w.promptCapabilities && s.context.memoryPointers == []
  }

  /** A thought either clears the context or notes a failure in it. */
  lemma ThinkContext<X>(w: Wiring<X>, s: State<X>) returns (message: string)
    ensures var t := Think(w, s);
            && t.state.input == s.input
            && (t.stop.None? ==> t.state.context == Cleared(s.context) || t.state.context == Retry(s.context, message))
  {
    hide Judge, Dispatch, Cleared, Retry;
    var (r, after) := Enforce(w, s);
    message := WARDEN_FEEDBACK;
    if r.Ok? {
      var outcome := Dispatch(w, after.executor, r.value.intent).0;
      if outcome.Some? { message := outcome.value.errorMessage; }
    }
  }

  lemma StepKeepsHead<X>(w: Wiring<X>, s: State<X>)
    requires AtHead(w, s)
    ensures Step(w, s).stop.None? ==>
              var t := Step(w, s).state;
              && AtHead(w, t)
              && (|t.input| < |s.input| || (t.input == s.input && Patience(t) < Patience(s)))
  {
    hide Think;
    if s.context.lastActionFeedback.Some? {
      var _ := ThinkContext(w, s.(context := s.context.(currentStimulus := REVISE)));
    } else if s.input != [] {
      var _ := ThinkContext(w, s.(input := s.input[1..], context := s.context.(currentStimulus := s.input[0])));
    }
  }

  /** Turns left before the next line has to be read. */
  function Patience<X>(s: State<X>): nat {
    var attempts := s.context.recoveryAttempts;
    if attempts == 0 || attempts > MAX_RECOVERY_ATTEMPTS then 0 else MAX_RECOVERY_ATTEMPTS + 1 - attempts
  }

  /** A whole run. It ends on every input, whatever the brain and the executor do. */
  function RunFrom<X>(w: Wiring<X>, s: State<X>): Turn<X>
    requires AtHead(w, s)
    decreases |s.input|, Patience(s)
  {
    var t := Step(w, s);
    if t.stop.Some? then t else
      StepKeepsHead(w, s);
      var rest := RunFrom(w, t.state);
      rest.(events := t.events + rest.events)
  }

  lemma StartsAtHead<X>(w: Wiring<X>, s: State<X>)
    requires s.context == AgentContext("", w.promptCapabilities, [], None, 0)
    ensures AtHead(w, s)
  {
  }

  lemma RunStep<X>(w: Wiring<X>, s: State<X>)
    requires AtHead(w, s)
    ensures var t := Step(w, s);
            if t.stop.Some? then RunFrom(w, s) == t else
              && AtHead(w, t.state) && RunFrom(w, s).events == t.events + RunFrom(w, t.state).events
              && RunFrom(w, s).stop == RunFrom(w, t.state).stop && RunFrom(w, s).state == RunFrom(w, t.state).state
  {
    hide Step;
    StepKeepsHead(w, s);
  }

  function Start<X>(w: Wiring<X>, input: seq<string>, generations: nat, nextFrameId: U64, x: X): State<X> {
    State(input, AgentContext("", w.promptCapabilities, [], None, 0), generations, nextFrameId, x)
  }

  // ---- The loop ----

  class Loop<X> {
    const engine: Engine
    const wiring: Wiring<X>
    var input: seq<string>
    var executor: X
    ghost var trace: seq<Event>

    constructor (engine: Engine, wiring: Wiring<X>, input: seq<string>, executor: X)
      ensures this.engine == engine && this.wiring == wiring && this.input == input
      ensures this.executor == executor && trace == []
    {
      this.engine, this.wiring, this.input := engine, wiring, input;
      this.executor, trace := executor, [];
    }

    /** The engine is sound, and is the one the wiring describes. */
    ghost predicate Wired()
      reads engine
    {
      && engine.Valid() && engine.brain == wiring.brain && engine.buildPrompt == wiring.buildPrompt
      && engine.grammar == wiring.grammar
    }

    ghost function StateWith(context: AgentContext): State<X>
      reads this, engine
    {
      State(input, context, engine.generations, engine.nextFrameId, executor)
    }

    method DispatchIntent(frame: CognitiveFrame) returns (outcome: Option<DispatchOutcome>)
      modifies this`executor
      ensures (outcome, executor) == Dispatch(wiring, old(executor), frame.intent)
    {
      match frame.intent
      case System2Think(_) => outcome := Some(DispatchOutcome(true, ""));
      case QueryMerovingian(_, _) => outcome := Some(DispatchOutcome(false, "MEROVINGIAN unavailable"));
      case InvokeSeraph(module_, function_, arguments) =>
        var req := InvocationRequest(module_, function_, arguments, wiring.systemCapabilities);
        var execute := wiring.execute;
        var (result, after) := execute(executor, req);
        executor := after;
        if result.Escapes() { return None; }
        if result.Failed? {
          var feedback := wiring.semanticFeedback;
          return Some(DispatchOutcome(false, feedback(result.error)));
        }
        outcome := Some(DispatchOutcome(true, ""));
      case BroadcastSmith(_, _) => outcome := Some(DispatchOutcome(false, "SMITH broadcast unavailable"));
    }

    /** The rest of a turn once there is a stimulus: think, dispatch, and note the result. */
    method ThinkAndDispatch(stimulated: AgentContext) returns (stop: Option<Stop>, context: AgentContext)
      requires Wired()
      modifies this`executor, this`trace, engine
      ensures Wired()
      ensures var turn := Think(wiring, old(StateWith(stimulated)));
              && stop == turn.stop && trace == old(trace) + turn.events
              && StateWith(context) == turn.state
    {
      hide Judge, Dispatch;
      context := stimulated;
      var frame := engine.EnforceCognition(context);
      trace := trace + [Thought(context, frame)];
      if frame.Err? {
        context := context.(lastActionFeedback := Some(WARDEN_FEEDBACK),
                            recoveryAttempts := context.recoveryAttempts + 1);
        if context.recoveryAttempts > MAX_RECOVERY_ATTEMPTS {
          context := context.(lastActionFeedback := None, recoveryAttempts := 0);
        }
        return None, context;
      }
      var outcome := DispatchIntent(frame.value);
      trace := trace + [Dispatched(frame.value, outcome)];
      if outcome.None? { return Some(ExceptionEscaped), context; }
      if !outcome.value.success {
        context := context.(lastActionFeedback := Some(outcome.value.errorMessage),
                            recoveryAttempts := context.recoveryAttempts + 1);
        if context.recoveryAttempts > MAX_RECOVERY_ATTEMPTS {
          context := context.(lastActionFeedback := None, recoveryAttempts := 0);
        }
        return None, context;
      }
      context := context.(lastActionFeedback := None, recoveryAttempts := 0);
      stop := None;
    }

    /** One turn of the loop, from its head. */
    method TakeTurn(current: AgentContext) returns (stop: Option<Stop>, context: AgentContext)
      requires Wired()
      modifies this`input, this`executor, this`trace, engine
      ensures Wired()
      ensures var turn := Step(wiring, old(StateWith(current)));
              && stop == turn.stop && trace == old(trace) + turn.events && StateWith(context) == turn.state
    {
      hide Think;
      context := current;
      if context.lastActionFeedback.None? {
        if input == [] { return Some(InputClosed), context; }
        var line := input[0];
        input := input[1..];
        context := context.(currentStimulus := line);
        trace := trace + [Read(line)];
        if line == "exit" { return Some(ExitDirective), context; }
        if line == "" { return None, context; }
      } else {
        context := context.(currentStimulus := REVISE);
      }
      stop, context := ThinkAndDispatch(context);
    }

    method Run() returns (stop: Stop)
      requires Wired() && trace == []
      modifies this`input, this`executor, this`trace, engine
      ensures var start := Start(wiring, old(input), old(engine.generations), old(engine.nextFrameId), old(executor));
              var run := RunFrom(wiring, start);
              && run.stop == Some(stop) && trace == run.events
              && input == run.state.input && executor == run.state.executor
              && engine.generations == run.state.generations && engine.nextFrameId == run.state.nextFrameId
    {
      hide Step, RunFrom, Patience, AtHead;
      var context := AgentContext("", wiring.promptCapabilities, [], None, 0);
      StartsAtHead(wiring, StateWith(context));
      ghost var whole := RunFrom(wiring, StateWith(context));
      while true
        invariant Wired() && AtHead(wiring, StateWith(context))
        invariant var rest := RunFrom(wiring, StateWith(context));
                  whole.stop == rest.stop && whole.state == rest.state && whole.events == trace + rest.events
        decreases |input|, Patience(StateWith(context))
      {
        StepKeepsHead(wiring, StateWith(context));
        RunStep(wiring, StateWith(context));
        var ended, next := TakeTurn(context);
        if ended.Some? { return ended.value; }
        context := next;
      }
    }
  }
}
