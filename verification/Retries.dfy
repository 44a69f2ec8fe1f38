/** When the loop tries again, and when it goes back to reading. */
module Retries {
  import opened Common
  import opened Seraph
  import opened Warden
  import opened CognitiveLoop
  import opened LoopRuns

  datatype Attempt = Attempt(feedback: string, recoveries: nat)

  /** The attempt that an event calls for: a failed thought or dispatch in an
      attempt with fewer than two recoveries calls for another attempt, and nothing else does. */
  function CalledFor(events: seq<Event>, i: nat): Option<Attempt>
    requires i < |events|
  {
    match events[i]
    case Read(_) => None
    case Thought(c, r) =>
      if r.Err? && c.recoveryAttempts < 2
      then Some(Attempt("WARDEN ERROR: grammar or inference failure", c.recoveryAttempts + 1)) else None
    case Dispatched(_, o) =>
      if o.Some? && !o.value.success && i > 0 && events[i - 1].Thought? && events[i - 1].context.recoveryAttempts < 2
      then Some(Attempt(o.value.errorMessage, events[i - 1].context.recoveryAttempts + 1)) else None
  }

  /** The event right after an attempt that is called for. */
  predicate Retries(e: Event, call: Attempt) {
    && e.Thought? && e.context.lastActionFeedback == Some(call.feedback)
    && e.context.recoveryAttempts == call.recoveries
    && e.context.currentStimulus == "SYSTEM ALERT: revise your previous action"
  }

  /** What comes right after an event. */
  ghost predicate Continues(events: seq<Event>, stop: Option<Stop>, i: nat)
    requires i < |events|
  {
    var last := i + 1 == |events|;
    match events[i]
    case Read(line) =>
      if line == "exit" then last && stop == Some(ExitDirective)
      else if line == "" then last || events[i + 1].Read?
      else
        && !last && events[i + 1].Thought? && events[i + 1].context.currentStimulus == line
        && events[i + 1].context.lastActionFeedback == None && events[i + 1].context.recoveryAttempts == 0
    case Thought(_, r) =>
      if r.Ok? then !last && events[i + 1].Dispatched? && events[i + 1].frame == r.value
      else if CalledFor(events, i).Some? then !last && Retries(events[i + 1], CalledFor(events, i).value)
      else last || events[i + 1].Read?
    case Dispatched(f, o) =>
      && i > 0 && events[i - 1].Thought? && events[i - 1].result == Ok(f)
      && if o.None? then last && stop == Some(ExceptionEscaped)
         else if CalledFor(events, i).Some? then !last && Retries(events[i + 1], CalledFor(events, i).value)
         else last || events[i + 1].Read?
  }

  // ---- One turn ----

  /** A run begins with the attempt that is pending, or else with a line. */
  lemma RunStarts<X>(w: Wiring<X>, s: State<X>)
    requires AtHead(w, s)
    ensures var events := RunFrom(w, s).events;
            match s.context.lastActionFeedback
            case Some(message) => events != [] && Retries(events[0], Attempt(message, s.context.recoveryAttempts))
            case None => events != [] ==> events[0].Read?
  {
    hide Enforce, Dispatch, RequestOf;
    StepKeepsHead(w, s);
    RunStep(w, s);
  }

  /** What is pending after a turn is what its last event calls for. */
  ghost predicate LeavesPending(events: seq<Event>, context: AgentContext) {
    events != [] ==>
      match CalledFor(events, |events| - 1)
      case Some(call) =>
        context.lastActionFeedback == Some(call.feedback) && context.recoveryAttempts == call.recoveries
      case None => context.lastActionFeedback == None
  }

  /** Inside a turn, and at the end of one that stops, each event is continued. */
  ghost predicate ContinuesInside(events: seq<Event>, stop: Option<Stop>) {
    forall i | 0 <= i < |events| && (i + 1 < |events| || stop.Some?) :: Continues(events, stop, i)
  }

  lemma ThinkContinues<X>(w: Wiring<X>, s: State<X>)
    ensures var t := Think(w, s);
            && 1 <= |t.events| <= 2 && t.events[0].Thought? && t.events[0].context == s.context
            && ContinuesInside(t.events, t.stop)
            && (t.stop.None? ==> LeavesPending(t.events, t.state.context))
            && (|t.events| == 2 ==> t.events[1].Dispatched? && t.events[0].result == Ok(t.events[1].frame))
            && (|t.events| == 1 ==> t.events[0].result.Err?)
  {
    hide Judge, Dispatch, RequestOf;
  }

  lemma TurnContinues<X>(w: Wiring<X>, s: State<X>)
    requires AtHead(w, s)
    ensures var t := Step(w, s);
            && ContinuesInside(t.events, t.stop)
            && (t.stop.None? ==> LeavesPending(t.events, t.state.context))
            && (t.events != [] && t.events[|t.events| - 1].Dispatched? ==>
                  |t.events| >= 2 && t.events[|t.events| - 2].Thought?
                  && t.events[|t.events| - 2].result == Ok(t.events[|t.events| - 1].frame))
            && (t.events != [] && t.events[|t.events| - 1].Thought? ==> t.events[|t.events| - 1].result.Err?)
            && (t.stop.None? && t.events != [] && t.events[|t.events| - 1].Read? ==>
                  t.events[|t.events| - 1].line == "")
            && (t.stop.None? && t.events != [] && t.events[|t.events| - 1].Dispatched? ==>
                  t.events[|t.events| - 1].outcome.Some?)
  {
    hide Think;
    if s.context.lastActionFeedback.Some? {
      ThinkContinues(w, s.(context := s.context.(currentStimulus := REVISE)));
      ThinkOutcome(w, s.(context := s.context.(currentStimulus := REVISE)));
    } else if s.input != [] {
      var line := s.input[0];
      var read := s.(input := s.input[1..], context := s.context.(currentStimulus := line));
      if line != "exit" && line != "" {
        ThinkContinues(w, read);
        ThinkOutcome(w, read);
        Shifted(line, Think(w, read).events, Think(w, read).stop, Think(w, read).state.context);
      }
    }
  }

  lemma ThinkOutcome<X>(w: Wiring<X>, s: State<X>)
    ensures var t := Think(w, s);
            t.stop.None? && |t.events| == 2 ==> t.events[1].outcome.Some?
  {
    hide Judge, Dispatch, RequestOf;
  }

  /** A line in front of a thought about it. */
  lemma Shifted(line: string, events: seq<Event>, stop: Option<Stop>, context: AgentContext)
    requires line != "" && line != "exit" && 1 <= |events| <= 2
    requires events[0].Thought? && events[0].context.currentStimulus == line
    requires events[0].context.lastActionFeedback == None && events[0].context.recoveryAttempts == 0
    requires ContinuesInside(events, stop)
    ensures ContinuesInside([Read(line)] + events, stop)
    ensures LeavesPending(events, context) ==> LeavesPending([Read(line)] + events, context)
  {
    var all := [Read(line)] + events;
    forall i | 0 <= i < |all| && (i + 1 < |all| || stop.Some?) ensures Continues(all, stop, i) {
      if i > 0 { assert Continues(events, stop, i - 1); }
    }
  }

  // ---- Whole runs ----

  /** Every event of every run is continued as Continues says: a failed thought, or a dispatch with a failed
      outcome, in an attempt with fewer than two recoveries is followed at once by another attempt with that
      complaint as feedback, one more recovery and the call for revision; after a success or a third failure
      the loop reads on; an accepted frame is dispatched; an exception ends the run. */
  lemma {:induction false} EveryEventContinues<X>(w: Wiring<X>, s: State<X>, i: nat)
    requires AtHead(w, s) && i < |RunFrom(w, s).events|
    ensures Continues(RunFrom(w, s).events, RunFrom(w, s).stop, i)
    decreases |s.input|, Patience(s)
  {
    hide Step, RunFrom, AtHead, Continues, ContinuesInside;
    StepKeepsHead(w, s);
    RunStep(w, s);
    TurnContinues(w, s);
    var t := Step(w, s);
    if t.stop.Some? {
      InsideAt(t.events, t.stop, i);
    } else {
      var rest := RunFrom(w, t.state);
      if i >= |t.events| {
        EveryEventContinues(w, t.state, i - |t.events|);
        if i > |t.events| || !rest.events[0].Dispatched? {
          ContinuesLater(t.events, rest.events, rest.stop, i);
        } else {
          RunStarts(w, t.state);
        }
      } else if i + 1 < |t.events| {
        InsideAt(t.events, t.stop, i);
        ContinuesEarlier(t.events, rest.events, rest.stop, i);
      } else {
        RunStarts(w, t.state);
        ContinuesAcross(t.events, t.state.context, rest.events, rest.stop);
      }
    }
  }

  lemma InsideAt(events: seq<Event>, stop: Option<Stop>, i: nat)
    requires ContinuesInside(events, stop) && i < |events| && (i + 1 < |events| || stop.Some?)
    ensures Continues(events, stop, i)
  {
  }

  lemma ContinuesLater(a: seq<Event>, b: seq<Event>, stop: Option<Stop>, i: nat)
    requires |a| <= i < |a| + |b| && Continues(b, stop, i - |a|)
    requires i > |a| || !b[0].Dispatched?
    ensures Continues(a + b, stop, i)
  {
  }

  lemma ContinuesEarlier(a: seq<Event>, b: seq<Event>, stop: Option<Stop>, i: nat)
    requires i + 1 < |a| && Continues(a, None, i)
    ensures Continues(a + b, stop, i)
  {
  }

  lemma ContinuesAcross(a: seq<Event>, context: AgentContext, b: seq<Event>, stop: Option<Stop>)
    requires a != [] && LeavesPending(a, context)
    requires match context.lastActionFeedback
             case Some(message) => b != [] && Retries(b[0], Attempt(message, context.recoveryAttempts))
             case None => b != [] ==> b[0].Read?
    requires a[|a| - 1].Read? ==> a[|a| - 1].line == ""
    requires a[|a| - 1].Thought? ==> a[|a| - 1].result.Err?
    requires a[|a| - 1].Dispatched? ==>
               |a| >= 2 && a[|a| - 2].Thought? && a[|a| - 2].result == Ok(a[|a| - 1].frame) && a[|a| - 1].outcome.Some?
    ensures Continues(a + b, stop, |a| - 1)
  {
    assert CalledFor(a + b, |a| - 1) == CalledFor(a, |a| - 1);
  }

  // ---- Exactly three ----

  /** Before the next line is read, some dispatch succeeds or is cut short by an exception. */
  predicate Settled(events: seq<Event>) {
    events != [] && !events[0].Read? && ((events[0].Dispatched? && Complaint(events[0]).None?) || Settled(events[1..]))
  }

  lemma {:induction false} SettledAppend(a: seq<Event>, b: seq<Event>)
    requires forall i | 0 <= i < |a| :: !a[i].Read?
    ensures Settled(a + b) <==> Settled(a) || Settled(b)
  {
    if a == [] {
      assert a + b == b;
    } else {
      assert (a + b)[1..] == a[1..] + b;
      SettledAppend(a[1..], b);
    }
  }

  /** A thought that settles nothing stops nothing, and leaves one attempt fewer. */
  lemma UnsettledThought<X>(w: Wiring<X>, s: State<X>)
    requires s.context.recoveryAttempts <= 2 && !Settled(Think(w, s).events)
    ensures var t := Think(w, s);
            t.stop.None? && Patience(t.state) == 2 - s.context.recoveryAttempts
  {
    hide Judge, Dispatch, RequestOf;
    var e := Think(w, s).events;
    if |e| == 2 { assert e[1..][0] == e[1] && Settled(e[1..]) == Complaint(e[1]).None?; }
  }

  lemma {:induction false} UnsettledTakesAll<X>(w: Wiring<X>, s: State<X>)
    requires AtHead(w, s) && !Settled(RunFrom(w, s).events)
    ensures Leading(RunFrom(w, s).events) == Patience(s)
    decreases Patience(s)
  {
    hide Think, Leading, Settled;
    StepKeepsHead(w, s);
    if Patience(s) == 0 {
      LeadingIsPatience(w, s);
    } else {
      var retry := s.(context := s.context.(currentStimulus := REVISE));
      var t := Think(w, retry);
      assert Step(w, s) == t;
      LeadingOfThink(w, retry);
      var rest := if t.stop.None? then RunFrom(w, t.state).events else [];
      assert RunFrom(w, s).events == t.events + rest;
      SettledAppend(t.events, rest);
      UnsettledThought(w, retry);
      UnsettledTakesAll(w, t.state);
      LeadingAppend(t.events, rest);
    }
  }

  /** A line whose attempts all fail gets exactly three. */
  lemma {:induction false} ThreeAttempts<X>(w: Wiring<X>, s: State<X>, i: nat)
    requires AtHead(w, s) && i < |RunFrom(w, s).events|
    requires RunFrom(w, s).events[i].Read? && RunFrom(w, s).events[i].line !in {"", "exit"}
    requires !Settled(RunFrom(w, s).events[i + 1..])
    ensures Leading(RunFrom(w, s).events[i + 1..]) == 3
    decreases |s.input|, Patience(s)
  {
    hide Think, Leading, Settled, AtHead, RunFrom;
    StepKeepsHead(w, s);
    RunStep(w, s);
    var t := Step(w, s);
    var events := RunFrom(w, s).events;
    if i >= |t.events| {
      assert events[i + 1..] == RunFrom(w, t.state).events[i - |t.events| + 1..];
      ThreeAttempts(w, t.state, i - |t.events|);
    } else {
      StepReadsFirst(w, s, i);
      var line := s.input[0];
      var read := s.(input := s.input[1..], context := s.context.(currentStimulus := line));
      var thought := Think(w, read);
      assert t.events[1..] == thought.events;
      LeadingOfThink(w, read);
      var rest := if t.stop.None? then RunFrom(w, t.state).events else [];
      assert events[1..] == thought.events + rest;
      SettledAppend(thought.events, rest);
      AttemptsAtHead(w, s);
      UnsettledThought(w, read);
      UnsettledTakesAll(w, t.state);
      LeadingAppend(thought.events, rest);
    }
  }

  lemma AttemptsAtHead<X>(w: Wiring<X>, s: State<X>)
    requires AtHead(w, s) && s.context.lastActionFeedback.None?
    ensures s.context.recoveryAttempts == 0
  {
  }

  // ---- What the loop makes of an intent ----

  /** The outcome of a dispatch that does not go to the executor. */
  predicate ShownAs(i: Intent, outcome: Option<DispatchOutcome>) {
    match i
    case System2Think(_) => outcome == Some(DispatchOutcome(true, ""))
    case QueryMerovingian(_, _) => outcome == Some(DispatchOutcome(false, "MEROVINGIAN unavailable"))
    case BroadcastSmith(_, _) => outcome == Some(DispatchOutcome(false, "SMITH broadcast unavailable"))
    case InvokeSeraph(_, _, _) => true
  }

  ghost predicate AllShown(events: seq<Event>) {
    forall i | 0 <= i < |events| && events[i].Dispatched? :: ShownAs(events[i].frame.intent, events[i].outcome)
  }

  lemma StepShows<X>(w: Wiring<X>, s: State<X>)
    ensures AllShown(Step(w, s).events)
  {
    hide Judge, RequestOf;
  }

  /** In every run a thought succeeds, and a query or a broadcast fails as unavailable. */
  lemma {:induction false} OutcomesAreShown<X>(w: Wiring<X>, s: State<X>)
    requires AtHead(w, s)
    ensures AllShown(RunFrom(w, s).events)
    decreases |s.input|, Patience(s)
  {
    hide Step, ShownAs, AtHead, RunFrom;
    StepKeepsHead(w, s);
    RunStep(w, s);
    StepShows(w, s);
    var t := Step(w, s);
    if t.stop.Some? {
    } else {
      OutcomesAreShown(w, t.state);
    }
  }

  /** The request a SERAPH intent becomes: its own module, function and arguments, and the capabilities the
      loop was given. */
  lemma RequestExactly<X>(w: Wiring<X>, module_: string, function_: string, arguments: map<string, string>)
    ensures RequestOf(w, InvokeSeraph(module_, function_, arguments))
         == InvocationRequest(module_, function_, arguments, w.systemCapabilities)
  {
  }
}
