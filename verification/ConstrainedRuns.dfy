/** The loop with a model whose output the grammar constrains. */
module ConstrainedRuns {
  import opened Common
  import opened Warden
  import opened CognitiveLoop
  import opened Grammar
  import opened FrameDerivation
  import opened Printing

  /** Every answer the model gives, when given the grammar, is empty or a text of the grammar. */
  ghost predicate Constrained(brain: Brain, grammar: string) {
    forall n, prompt :: Keeps(brain(n, prompt, grammar))
  }

  ghost predicate Keeps(answer: Option<string>) {
    answer.Some? && answer.value != "" ==> Derivable(answer.value)
  }

  /** A judgement that a constrained model can bring about. */
  predicate Within(r: Result<Intent, WardenError>) {
    match r
    case Ok(i) => Expressible(i)
    case Err(e) => e != UnauthorizedIntent
  }

  lemma JudgedWithin(answer: Option<string>)
    requires Keeps(answer)
    ensures Within(Judge(answer))
  {
    hide Derivable, Deserialize, Expressible;
    if answer.Some? && answer.value != "" {
      var f := DerivableIsJudged(answer.value);
      if Judge(answer).Ok? { ExpressibleExactly(Judge(answer).value); }
    }
  }

  predicate EventWithin(e: Event) {
    match e
    case Read(_) => true
    case Thought(_, r) => Within(match r case Ok(frame) => Ok(frame.intent) case Err(error) => Err(error))
    case Dispatched(frame, _) => Expressible(frame.intent)
  }

  ghost predicate AllWithin(events: seq<Event>) { forall i | 0 <= i < |events| :: EventWithin(events[i]) }

  lemma ThinkWithin<X>(w: Wiring<X>, s: State<X>)
    requires w.brain.Some? ==> Constrained(w.brain.value, w.grammar)
    ensures AllWithin(Think(w, s).events)
  {
    hide Judge, Dispatch, RequestOf, Expressible, Keeps;
    if w.brain.Some? {
      var answer := w.brain.value(s.generations, w.buildPrompt(s.context), w.grammar);
      assert Keeps(answer);
      JudgedWithin(answer);
    }
  }

  lemma StepWithin<X>(w: Wiring<X>, s: State<X>)
    requires w.brain.Some? ==> Constrained(w.brain.value, w.grammar)
    ensures AllWithin(Step(w, s).events)
  {
    hide Think, Expressible, Constrained;
    if s.context.lastActionFeedback.Some? {
      ThinkWithin(w, s.(context := s.context.(currentStimulus := REVISE)));
    } else if s.input != [] {
      ThinkWithin(w, s.(input := s.input[1..], context := s.context.(currentStimulus := s.input[0])));
    }
  }

  /** Over a whole run with a constrained model, the engine never reports UnauthorizedIntent, and
      every intent accepted or dispatched has a text in the grammar. */
  lemma {:induction false} RunStaysWithin<X>(w: Wiring<X>, s: State<X>)
    requires AtHead(w, s) && (w.brain.Some? ==> Constrained(w.brain.value, w.grammar))
    ensures AllWithin(RunFrom(w, s).events)
    decreases |s.input|, Patience(s)
  {
    hide Step, EventWithin, Constrained;
    StepKeepsHead(w, s);
    StepWithin(w, s);
    RunStep(w, s);
    var t := Step(w, s);
    if t.stop.Some? {
    } else {
      RunStaysWithin(w, t.state);
    }
  }
}
