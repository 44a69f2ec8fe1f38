/** What every run of the cognitive loop keeps, for every brain, executor and input. */
module LoopRuns {
  import opened Common
  import opened Seraph
  import opened Warden
  import opened CognitiveLoop

  // ---- One thought ----

  /** The engine is never asked with an empty stimulus, never past the second retry, and sees feedback
      exactly on a retry, when the stimulus is the fixed call for revision. */
  predicate ProperThought<X>(w: Wiring<X>, c: AgentContext) {
    && c.currentStimulus != "" && c.recoveryAttempts <= 2
    && (c.lastActionFeedback.Some? <==> c.recoveryAttempts > 0)
    && (c.lastActionFeedback.Some? ==> c.currentStimulus == "SYSTEM ALERT: revise your previous action")
    && (c.lastActionFeedback.None? ==> c.currentStimulus != "exit")
    && c.availableCapabilities == w.promptCapabilities && c.memoryPointers == []
  }

  ghost predicate ProperThoughts<X>(w: Wiring<X>, events: seq<Event>) {
    forall i | 0 <= i < |events| && events[i].Thought? :: ProperThought(w, events[i].context)
  }

  lemma {:induction false} ThoughtsAreProper<X>(w: Wiring<X>, s: State<X>)
    requires AtHead(w, s)
    ensures ProperThoughts(w, RunFrom(w, s).events)
    decreases |s.input|, Patience(s)
  {
    hide Enforce, Dispatch, RequestOf;
    StepKeepsHead(w, s);
    var t := Step(w, s);
    assert ProperThoughts(w, t.events);
    if t.stop.Some? {
    } else {
      ThoughtsAreProper(w, t.state);
    }
  }

  // ---- At most three attempts for a line ----

  /** Engine calls before the next line is read. */
  function Leading(events: seq<Event>): nat {
    if events == [] || events[0].Read? then 0
    else Leading(events[1..]) + if events[0].Thought? then 1 else 0
  }

  predicate Accepted(line: string) { line != "" && line != "exit" }

  lemma {:induction false} LeadingAppend(a: seq<Event>, b: seq<Event>)
    requires forall i | 0 <= i < |a| :: !a[i].Read?
    ensures Leading(a + b) == Leading(a) + Leading(b)
  {
    if a == [] {
      assert a + b == b;
    } else {
      assert (a + b)[1..] == a[1..] + b;
      LeadingAppend(a[1..], b);
    }
  }

  lemma LeadingOfThink<X>(w: Wiring<X>, s: State<X>)
    ensures var e := Think(w, s).events;
            && Leading(e) == 1 && forall i | 0 <= i < |e| :: !e[i].Read?
  {
    hide Enforce, Dispatch, RequestOf;
    var e := Think(w, s).events;
    assert Leading([]) == 0;
    if |e| == 2 {
      assert e[1..][1..] == [];
    }
  }

  /** A state with retries pending thinks at least once and at most as often as retries remain. */
  lemma {:induction false} LeadingIsPatience<X>(w: Wiring<X>, s: State<X>)
    requires AtHead(w, s)
    ensures Leading(RunFrom(w, s).events) <= Patience(s)
    ensures Patience(s) > 0 ==> Leading(RunFrom(w, s).events) >= 1
    decreases Patience(s)
  {
    hide Enforce, Dispatch, RequestOf;
    StepKeepsHead(w, s);
    if Patience(s) == 0 {
    } else {
      var t := Think(w, s.(context := s.context.(currentStimulus := REVISE)));
      assert Step(w, s) == t;
      LeadingOfThink(w, s.(context := s.context.(currentStimulus := REVISE)));
      if t.stop.None? {
        LeadingIsPatience(w, t.state);
        LeadingAppend(t.events, RunFrom(w, t.state).events);
      }
    }
  }

  /** After every line read: between one and three engine calls if it is a stimulus, none otherwise. */
  lemma {:induction false} AttemptsPerLine<X>(w: Wiring<X>, s: State<X>, i: nat)
    requires AtHead(w, s) && i < |RunFrom(w, s).events| && RunFrom(w, s).events[i].Read?
    ensures var events := RunFrom(w, s).events;
            if Accepted(events[i].line) then 1 <= Leading(events[i + 1..]) <= 3
            else Leading(events[i + 1..]) == 0
    decreases |s.input|, Patience(s)
  {
    hide Step, RunFrom, AtHead, Accepted;
    StepKeepsHead(w, s);
    RunStep(w, s);
    var t := Step(w, s);
    var events := RunFrom(w, s).events;
    if i >= |t.events| {
      AttemptsPerLine(w, t.state, i - |t.events|);
      assert events[i + 1..] == RunFrom(w, t.state).events[i - |t.events| + 1..];
    } else {
      StepReadsFirst(w, s, i);
      var tail := t.events[1..];
      var rest := if t.stop.None? then RunFrom(w, t.state).events else [];
      assert events[1..] == tail + rest;
      if t.stop.None? { LeadingIsPatience(w, t.state); }
      LeadingAppend(tail, rest);
      assert Leading([]) == 0;
    }
  }

  /** Only a turn with no feedback pending reads, and it reads first. */
  lemma StepReadsFirst<X>(w: Wiring<X>, s: State<X>, i: nat)
    requires i < |Step(w, s).events| && Step(w, s).events[i].Read?
    requires AtHead(w, s)
    ensures i == 0 && s.context.lastActionFeedback.None? && s.input != [] && Step(w, s).events[0] == Read(s.input[0])
    ensures var tail := Step(w, s).events[1..];
            && Leading(tail) == (if Accepted(s.input[0]) then 1 else 0)
            && forall k | 0 <= k < |tail| :: !tail[k].Read?
    ensures !Accepted(s.input[0]) ==> Patience(Step(w, s).state) == 0
  {
    hide Think;
    if s.context.lastActionFeedback.Some? {
      LeadingOfThink(w, s.(context := s.context.(currentStimulus := REVISE)));
    } else if s.input != [] {
      var line := s.input[0];
      var read := s.(input := s.input[1..], context := s.context.(currentStimulus := line));
      LeadingOfThink(w, read);
      if Accepted(line) { assert Step(w, s).events[1..] == Think(w, read).events; }
    }
  }

  // ---- Frame numbers ----

  /** The frames the engine accepted, in order. */
  function Frames(events: seq<Event>): seq<CognitiveFrame> {
    if events == [] then []
    else if events[0].Thought? && events[0].result.Ok? then [events[0].result.value] + Frames(events[1..])
    else Frames(events[1..])
  }

  /** The frames that were dispatched, in order. */
  function DispatchedFrames(events: seq<Event>): seq<CognitiveFrame> {
    if events == [] then []
    else if events[0].Dispatched? then [events[0].frame] + DispatchedFrames(events[1..])
    else DispatchedFrames(events[1..])
  }

  function Lines(events: seq<Event>): seq<string> {
    if events == [] then []
    else if events[0].Read? then [events[0].line] + Lines(events[1..])
    else Lines(events[1..])
  }

  // What one event contributes to each list.

  function FrameOf(e: Event): seq<CognitiveFrame> { if e.Thought? && e.result.Ok? then [e.result.value] else [] }
  function DispatchOf(e: Event): seq<CognitiveFrame> { if e.Dispatched? then [e.frame] else [] }
  function LineOf(e: Event): seq<string> { if e.Read? then [e.line] else [] }

  lemma OneEvent(e: Event, rest: seq<Event>)
    ensures Frames([e] + rest) == FrameOf(e) + Frames(rest)
    ensures DispatchedFrames([e] + rest) == DispatchOf(e) + DispatchedFrames(rest)
    ensures Lines([e] + rest) == LineOf(e) + Lines(rest)
  {
    assert ([e] + rest)[1..] == rest;
  }

  /** The lists of a turn's events, of which there are at most three. */
  lemma FewEvents(e: seq<Event>)
    requires |e| <= 3
    ensures |e| == 0 ==> Frames(e) == [] && DispatchedFrames(e) == [] && Lines(e) == []
    ensures |e| == 1 ==>
              Frames(e) == FrameOf(e[0]) && DispatchedFrames(e) == DispatchOf(e[0]) && Lines(e) == LineOf(e[0])
    ensures |e| == 2 ==>
              && Frames(e) == FrameOf(e[0]) + FrameOf(e[1])
              && DispatchedFrames(e) == DispatchOf(e[0]) + DispatchOf(e[1])
              && Lines(e) == LineOf(e[0]) + LineOf(e[1])
    ensures |e| == 3 ==>
              && Frames(e) == FrameOf(e[0]) + (FrameOf(e[1]) + FrameOf(e[2]))
              && DispatchedFrames(e) == DispatchOf(e[0]) + (DispatchOf(e[1]) + DispatchOf(e[2]))
              && Lines(e) == LineOf(e[0]) + (LineOf(e[1]) + LineOf(e[2]))
  {
    if e != [] {
      assert e == [e[0]] + e[1..];
      OneEvent(e[0], e[1..]);
      FewEvents(e[1..]);
    }
  }

  lemma {:induction false} FramesAppend(a: seq<Event>, b: seq<Event>)
    ensures Frames(a + b) == Frames(a) + Frames(b)
    ensures DispatchedFrames(a + b) == DispatchedFrames(a) + DispatchedFrames(b)
  {
    if a == [] {
      assert a + b == b;
    } else {
      assert (a + b)[1..] == a[1..] + b;
      FramesAppend(a[1..], b);
    }
  }

  ghost predicate Numbered(frames: seq<CognitiveFrame>, first: nat) {
    forall k | 0 <= k < |frames| :: frames[k].frameId == (first + k) % 0x1_0000_0000_0000_0000
  }

  /** A thought reads nothing, spends an id exactly when a frame is accepted, and dispatches that frame. */
  lemma ListsOfThink<X>(w: Wiring<X>, s: State<X>)
    ensures var t := Think(w, s);
            var f := Frames(t.events);
            && f == DispatchedFrames(t.events) && |f| <= 1 && Lines(t.events) == [] && t.state.input == s.input
            && t.stop != Some(InputClosed) && t.stop != Some(ExitDirective)
            && t.state.nextFrameId == (s.nextFrameId + |f|) % 0x1_0000_0000_0000_0000
            && (f != [] ==> f[0].frameId == s.nextFrameId)
  {
    hide Judge, Dispatch, RequestOf, Frames, DispatchedFrames, Lines;
    FewEvents(Think(w, s).events);
  }

  lemma ListsOfStep<X>(w: Wiring<X>, s: State<X>)
    ensures var t := Step(w, s);
            var f := Frames(t.events);
            && f == DispatchedFrames(t.events) && |f| <= 1
            && t.state.nextFrameId == (s.nextFrameId + |f|) % 0x1_0000_0000_0000_0000
            && (f != [] ==> f[0].frameId == s.nextFrameId)
            && Lines(t.events) + t.state.input == s.input && |Lines(t.events)| <= 1
            && (t.stop == Some(InputClosed) ==> s.input == [])
            && (t.stop == Some(ExitDirective) <==> Lines(t.events) == ["exit"])
  {
    hide Think, Frames, DispatchedFrames, Lines;
    FewEvents([]);
    if s.context.lastActionFeedback.Some? {
      ListsOfThink(w, s.(context := s.context.(currentStimulus := REVISE)));
    } else if s.input != [] {
      var line := s.input[0];
      var read := s.(input := s.input[1..], context := s.context.(currentStimulus := line));
      FewEvents([Read(line)]);
      if Accepted(line) {
        ListsOfThink(w, read);
        OneEvent(Read(line), Think(w, read).events);
      }
    }
  }

  /** The k-th accepted frame carries the k-th id after the first, wrapping at 2^64; the frames
      dispatched are the frames accepted, in the same order; failed attempts spend no id. */
  lemma {:induction false} FramesAreNumbered<X>(w: Wiring<X>, s: State<X>)
    requires AtHead(w, s)
    ensures var run := RunFrom(w, s);
            && Frames(run.events) == DispatchedFrames(run.events)
            && Numbered(Frames(run.events), s.nextFrameId)
            && run.state.nextFrameId == (s.nextFrameId + |Frames(run.events)|) % 0x1_0000_0000_0000_0000
    decreases |s.input|, Patience(s)
  {
    hide Step, RunFrom, AtHead, Frames, DispatchedFrames, Lines;
    StepKeepsHead(w, s);
    RunStep(w, s);
    ListsOfStep(w, s);
    var t := Step(w, s);
    if t.stop.Some? {
    } else {
      var rest := RunFrom(w, t.state);
      FramesAreNumbered(w, t.state);
      FramesAppend(t.events, rest.events);
      var f, g := Frames(t.events), Frames(rest.events);
      var both: seq<CognitiveFrame> := f + g;
      forall k | 0 <= k < |both| ensures both[k].frameId == (s.nextFrameId + k) % 0x1_0000_0000_0000_0000 {
        if k >= |f| && |f| == 1 { WrapNext(s.nextFrameId, k - 1); }
      }
      if |f| == 1 { WrapNext(s.nextFrameId, |g|); }
    }
  }

  lemma WrapNext(id: U64, k: nat)
    ensures ((id + 1) % 0x1_0000_0000_0000_0000 + k) % 0x1_0000_0000_0000_0000 == (id + k + 1) % 0x1_0000_0000_0000_0000
  {
  }

  // ---- Where feedback comes from, and what is read ----

  /** The message a failed event leaves for the next attempt. */
  function Complaint(e: Event): Option<string> {
    match e
    case Read(_) => None
    case Thought(_, r) => if r.Err? then Some(WARDEN_FEEDBACK) else None
    case Dispatched(_, o) => if o.Some? && !o.value.success then Some(o.value.errorMessage) else None
  }

  /** A retry's feedback is the complaint of the event just before it; a first attempt follows the
      line it is about. */
  ghost predicate Motivated(events: seq<Event>, i: nat)
    requires i < |events|
  {
    events[i].Thought? ==>
      match events[i].context.lastActionFeedback
      case Some(message) => i > 0 && Complaint(events[i - 1]) == Some(message)
      case None => i > 0 && events[i - 1] == Read(events[i].context.currentStimulus)
  }

  lemma StepMotivation<X>(w: Wiring<X>, s: State<X>, i: nat)
    requires AtHead(w, s) && i < |Step(w, s).events|
    ensures i > 0 ==> Motivated(Step(w, s).events, i)
    ensures i == 0 && Step(w, s).events[0].Thought? ==>
              && s.context.lastActionFeedback.Some?
              && Step(w, s).events[0].context.lastActionFeedback == s.context.lastActionFeedback
    ensures var t := Step(w, s);
            t.stop.None? && t.state.context.lastActionFeedback.Some? ==>
              t.events != [] && Complaint(t.events[|t.events| - 1]) == t.state.context.lastActionFeedback
  {
    hide Enforce, Dispatch, RequestOf;
  }

  lemma {:induction false} EveryThoughtIsMotivated<X>(w: Wiring<X>, s: State<X>, i: nat)
    requires AtHead(w, s) && i < |RunFrom(w, s).events|
    ensures i > 0 || s.context.lastActionFeedback.None? ==> Motivated(RunFrom(w, s).events, i)
    ensures i == 0 && s.context.lastActionFeedback.Some? ==>
              var e := RunFrom(w, s).events[0];
              e.Thought? && e.context.lastActionFeedback == s.context.lastActionFeedback
    decreases |s.input|, Patience(s)
  {
    hide Enforce, Dispatch, RequestOf;
    StepKeepsHead(w, s);
    var t := Step(w, s);
    var events := RunFrom(w, s).events;
    if i < |t.events| {
      StepMotivation(w, s, i);
    } else {
      if t.events != [] { StepMotivation(w, s, |t.events| - 1); }
      EveryThoughtIsMotivated(w, t.state, i - |t.events|);
      assert events[i] == RunFrom(w, t.state).events[i - |t.events|];
      if i > |t.events| { assert events[i - 1] == RunFrom(w, t.state).events[i - 1 - |t.events|]; }
    }
  }

  lemma {:induction false} LinesAppend(a: seq<Event>, b: seq<Event>)
    ensures Lines(a + b) == Lines(a) + Lines(b)
  {
    if a == [] {
      assert a + b == b;
    } else {
      assert (a + b)[1..] == a[1..] + b;
      LinesAppend(a[1..], b);
    }
  }

  /** Lines are read once each, in order; a run that ends for want of input has read them all, and
      "exit" is read exactly by a run that it ends, as its last line. */
  lemma {:induction false} LinesReadInOrder<X>(w: Wiring<X>, s: State<X>)
    requires AtHead(w, s)
    ensures var run := RunFrom(w, s);
            var lines := Lines(run.events);
            && lines + run.state.input == s.input
            && (run.stop == Some(InputClosed) ==> lines == s.input)
            && (run.stop == Some(ExitDirective) <==> "exit" in lines)
            && (run.stop == Some(ExitDirective) ==> lines[|lines| - 1] == "exit" && "exit" !in lines[..|lines| - 1])
    decreases |s.input|, Patience(s)
  {
    hide Step, Frames, DispatchedFrames, Lines;
    StepKeepsHead(w, s);
    RunStep(w, s);
    ListsOfStep(w, s);
    var t := Step(w, s);
    if t.stop.Some? {
    } else {
      var rest := RunFrom(w, t.state);
      LinesReadInOrder(w, t.state);
      LinesAppend(t.events, rest.events);
    }
  }
}
