/** The operator: a resumable sequence of tool calls chosen one by one by a planner.

    A call is saved before it runs and its result after, so that an approval wait or a restart continues with
    the very same call. What every run does is written down in `log`; the lemmas say what such logs mean for
    the calls and effects the final answer reports. */
module Operator {
  import opened Grounding
  import opened Ledger
  import opened Options

  const MAX_STEPS := 8
  const ESCALATED_STEPS := 6
  const MAX_REJECTED := 3

  datatype Return = Return(call: Call, result: Result)

  /** What a call changed, with the tool's evidence. */
  datatype Effect = Effect(call: Call, evidence: string)

  datatype Decision = DoCall(call: Call) | Answer(text: string) | Fail | Malformed

  datatype Event =
    | Began                         // an attempt starts from the checkpoint
    | Looped                        // a planning loop starts: with the attempt, and after the escalation
    | Planned(decision: Decision)   // what the planner says
    | Opened(call: Call)            // saved as pending
    | Ran(call: Call, result: Result)
    | Closed                        // saved with its result
    | Escalated                     // the better planner takes over; saved
    | Answered(text: string, effects: seq<Effect>)

  function EffectsOf(results: seq<Return>): seq<Effect> {
    if results == [] then []
    else
      var last := results[|results| - 1];
      EffectsOf(results[..|results| - 1])
      + if last.result.ok && last.result.effect.Some? then [Effect(last.call, last.result.effect.value)] else []
  }

  predicate HasEffect(r: Return) {
    r.result.ok && r.result.effect.Some?
  }

  /** The effects are those of the results at these places: all that worked and changed something, once each
      and in order. */
  ghost predicate Reported(effects: seq<Effect>, results: seq<Return>, places: seq<nat>) {
    && |effects| == |places|
    && (forall k, l | 0 <= k < l < |places| :: places[k] < places[l])
    && (forall k | 0 <= k < |places| ::
          && places[k] < |results| && HasEffect(results[places[k]])
          && effects[k] == Effect(results[places[k]].call, results[places[k]].result.effect.value))
    && (forall i | 0 <= i < |results| && HasEffect(results[i]) :: i in places)
  }

  lemma {:induction false} EffectsAreReported(results: seq<Return>) returns (places: seq<nat>)
    ensures Reported(EffectsOf(results), results, places)
  {
    places := [];
    if results != [] {
      var n := |results| - 1;
      places := EffectsAreReported(results[..n]);
      ReportedStep(EffectsOf(results[..n]), results, places);
      if HasEffect(results[n]) {
        places := places + [n];
      }
      hide Reported;
    }
  }

  lemma {:induction false} ReportedStep(effects: seq<Effect>, results: seq<Return>, places: seq<nat>)
    requires results != [] && Reported(effects, results[..|results| - 1], places)
    ensures var n := |results| - 1;
            if HasEffect(results[n])
            then Reported(effects + [Effect(results[n].call, results[n].result.effect.value)], results, places + [n])
            else Reported(effects + [], results, places)
  {
    var n := |results| - 1;
    hide HasEffect;
    assert effects + [] == effects;
    assert forall i | 0 <= i < n :: results[..n][i] == results[i];
    assert forall i | i in places :: i in places + [n];
    assert n in places + [n];
  }

  // ---------------------------------------------------------------- answers

  /** Every step that is not about an answer is about a call. */
  predicate AboutCall(s: Step) {
    s.Called? || s.InvalidAction? || s.Repeated?
  }

  predicate NoCalls(steps: seq<Step>) {
    forall i | 0 <= i < |steps| :: !AboutCall(steps[i])
  }

  predicate AnyWorked(steps: seq<Step>) {
    exists i | 0 <= i < |steps| :: steps[i].Called? && steps[i].result.ok
  }

  predicate AllDenied(steps: seq<Step>) {
    forall i | 0 <= i < |steps| :: AboutCall(steps[i]) ==> "denied" <= Shows(steps[i])
  }

  /** There is something to answer from, or nothing more to try. */
  predicate Settled(steps: seq<Step>) {
    NoCalls(steps) || AnyWorked(steps) || AllDenied(steps)
  }

  /** The answer is not empty, and all its numbers are known. */
  predicate Supported(text: string, steps: seq<Step>, goal: string) {
    text != "" && Ungrounded(text, steps, goal) == []
  }

  /** Giving up before any call has worked is turned down once in a loop. */
  predicate Accepts(text: string, steps: seq<Step>, rejected: nat, goal: string) {
    Supported(text, steps, goal) && (rejected > 0 || Settled(steps))
  }

  /** Why an answer is turned down. */
  function Objection(text: string, steps: seq<Step>, goal: string): Step {
    if Supported(text, steps, goal) then NothingWorked else Rejected(Ungrounded(text, steps, goal))
  }

  // ------------------------------------------------------------ the monitor

  /** `starting`: a loop is about to start. `plan` is what the planner just said and is still to be done. `steps`
      are the steps in memory and `kept` the saved ones; `rejected` counts the answers this loop turned down.
      `open` is the pending call and `ran` its result in this life; `recorded` are the saved results, and
      `lost` counts the results that a crash kept from being saved. */
  datatype Seen = Seen(
    allowed: bool, starting: bool, plan: Option<Decision>, steps: seq<Step>, kept: seq<Step>, rejected: nat,
    open: Option<Call>, ran: Option<Result>, last: Option<Call>, recorded: seq<Return>, lost: nat, escalated: bool)

  predicate Allowed(m: Seen, e: Event) {
    match e
    case Began => true
    case Looped => m.starting
    case Planned(_) => !m.starting && m.plan.None? && m.open.None? && m.rejected < MAX_REJECTED
    case Opened(call) => m.plan == Some(DoCall(call)) && m.open.None? && m.last != Some(call)
    case Ran(call, _) => !m.starting && m.open == Some(call) && m.ran.None?
    case Closed => m.open.Some? && m.ran.Some?
    case Escalated => !m.starting && !m.escalated && m.open.None? && (m.plan.None? || m.plan.value.Fail?)
    case Answered(text, effects) => m.plan == Some(Answer(text)) && m.open.None? && effects == EffectsOf(m.recorded)
  }

  /** What the planner's decision leads to: a call or an accepted answer stays to be done, anything else is
      a step or the end of the loop. */
  function Heard(m: Seen, d: Decision, goal: string): Seen {
    match d
    case DoCall(call) =>
      if m.last == Some(call) then m.(steps := m.steps + [Repeated]) else m.(plan := Some(d))
    case Answer(text) =>
      if Accepts(text, m.steps, m.rejected, goal) then m.(plan := Some(d))
      else m.(steps := m.steps + [Objection(text, m.steps, goal)], rejected := m.rejected + 1)
    case Fail => m.(plan := Some(d))
    case Malformed => m.(steps := m.steps + [InvalidAction])
  }

  function Then(m: Seen, e: Event, goal: string): Seen {
    match e
    case Began => m.(starting := true, plan := None, steps := m.kept, ran := None, lost := if m.ran.Some? then m.lost + 1 else m.lost)
    case Looped => m.(starting := false, plan := None, rejected := 0, last := m.open)
    case Planned(d) => Heard(m.(plan := None), d, goal)
    case Opened(call) => m.(plan := None, open := Some(call), last := Some(call), kept := m.steps)
    case Ran(_, result) => m.(plan := None, ran := Some(result))
    case Closed =>
      if m.open.None? || m.ran.None? then m
      else
        var steps := m.steps + [Called(m.open.value, m.ran.value)];
        m.(plan := None, open := None, ran := None, steps := steps, kept := steps,
           recorded := m.recorded + [Return(m.open.value, m.ran.value)])
    case Escalated => m.(starting := true, plan := None, kept := m.steps, escalated := true)
    case Answered(_, _) => m.(plan := None)
  }

  function Next(m: Seen, e: Event, goal: string): Seen {
    Then(m, e, goal).(allowed := m.allowed && Allowed(m, e))
  }

  const START := Seen(true, false, None, [], [], 0, None, None, None, [], 0, false)

  function Scan(log: seq<Event>, goal: string): Seen {
    if log == [] then START else Next(Scan(log[..|log| - 1], goal), log[|log| - 1], goal)
  }

  lemma {:induction false} ScanAppend(log: seq<Event>, e: Event, goal: string)
    ensures Scan(log + [e], goal) == Next(Scan(log, goal), e, goal)
  {
    assert (log + [e])[..|log|] == log;
  }

  lemma ScanAt(log: seq<Event>, goal: string, n: nat)
    requires n < |log|
    ensures Scan(log[..n + 1], goal) == Next(Scan(log[..n], goal), log[n], goal)
  {
    assert log[..n + 1][..n] == log[..n];
  }

  lemma {:induction false} NextAllowed(m: Seen, e: Event, goal: string)
    ensures Next(m, e, goal).allowed <==> m.allowed && Allowed(m, e)
    ensures m.allowed && Allowed(m, e) ==> Next(m, e, goal) == Then(m, e, goal)
  {
    hide Allowed;
    ThenKeepsAllowed(m, e, goal);
    hide Then;
  }

  lemma {:induction false} ThenKeepsAllowed(m: Seen, e: Event, goal: string)
    ensures Then(m, e, goal).allowed == m.allowed
  {
    if e.Planned? {
      HeardCalls(m.(plan := None), e.decision, goal);
      hide Heard;
    }
  }

  /** The last step of an allowed log. */
  lemma {:induction false} LastStepOf(log: seq<Event>, goal: string)
    requires log != [] && Scan(log, goal).allowed
    ensures var m, e := Scan(log[..|log| - 1], goal), log[|log| - 1];
            m.allowed && Allowed(m, e) && Scan(log, goal) == Then(m, e, goal)
  {
    var m, e := Scan(log[..|log| - 1], goal), log[|log| - 1];
    NextAllowed(m, e, goal);
    hide Next;
    hide Allowed;
    hide Then;
  }

  lemma {:induction false} AllowedAt(log: seq<Event>, goal: string, k: nat)
    requires Scan(log, goal).allowed && k < |log|
    ensures Scan(log[..k], goal).allowed && Allowed(Scan(log[..k], goal), log[k])
  {
    hide Scan;
    hide Allowed;
    hide Then;
    var n := |log| - 1;
    LastStepOf(log, goal);
    if k < n {
      AllowedAt(log[..n], goal, k);
      assert log[..n][..k] == log[..k];
    }
  }

  lemma {:induction false} StepAt(log: seq<Event>, goal: string, n: nat)
    requires n < |log| && Scan(log[..n + 1], goal).allowed
    ensures var m := Scan(log[..n], goal);
            m.allowed && Allowed(m, log[n]) && Scan(log[..n + 1], goal) == Then(m, log[n], goal)
  {
    assert log[..n + 1][..n] == log[..n];
    LastStepOf(log[..n + 1], goal);
    hide Scan;
    hide Allowed;
    hide Then;
  }

  lemma {:induction false} ScanNothing(log: seq<Event>, goal: string)
    ensures Scan(log[..0], goal) == START
  {
  }

  // ------------------------------------------------- what an allowed log means

  predicate Closing(m: Seen, e: Event) {
    e.Closed? && m.open.Some? && m.ran.Some?
  }

  /** What a step does to the calls. */
  lemma {:induction false} ThenCalls(m: Seen, e: Event, goal: string)
    ensures var n := Then(m, e, goal);
            && n.open == (if e.Opened? then Some(e.call) else if Closing(m, e) then None else m.open)
            && n.ran == (if e.Ran? then Some(e.result) else if Closing(m, e) || e.Began? then None else m.ran)
            && n.recorded == (if Closing(m, e) then m.recorded + [Return(m.open.value, m.ran.value)] else m.recorded)
            && n.lost == (if e.Began? && m.ran.Some? then m.lost + 1 else m.lost)
            && n.last == (if e.Opened? then Some(e.call) else if e.Looped? then m.open else m.last)
            && n.escalated == (m.escalated || e.Escalated?)
  {
    if e.Planned? {
      HeardCalls(m.(plan := None), e.decision, goal);
      hide Heard;
    }
  }

  /** The planner's words alone change no call. */
  lemma {:induction false} HeardCalls(m: Seen, d: Decision, goal: string)
    ensures var n := Heard(m, d, goal);
            && n.open == m.open && n.ran == m.ran && n.recorded == m.recorded && n.lost == m.lost && n.last == m.last
            && n.escalated == m.escalated && n.kept == m.kept && n.starting == m.starting && n.allowed == m.allowed
  {
    hide Accepts;
    hide Objection;
  }

  /** Every result any tool returned, in order. */
  function Returned(log: seq<Event>): seq<Return> {
    if log == [] then []
    else
      var last := log[|log| - 1];
      Returned(log[..|log| - 1]) + if last.Ran? then [Return(last.call, last.result)] else []
  }

  function Unsaved(m: Seen): seq<Return> {
    if m.open.Some? && m.ran.Some? then [Return(m.open.value, m.ran.value)] else []
  }

  /** Nothing that returned is lost, reordered or recorded twice -- apart from the results lost to a crash
      in between, each of which is counted. */
  lemma {:induction false} ReturnsAddUp(log: seq<Event>, goal: string)
    requires Scan(log, goal).allowed
    ensures AddUp(Scan(log, goal), Returned(log))
  {
    if log != [] {
      var before := log[..|log| - 1];
      LastStepOf(log, goal);
      hide Scan;
      ReturnsAddUp(before, goal);
      ReturnStep(Scan(before, goal), log[|log| - 1], goal, Returned(before));
    }
  }

  predicate AddUp(m: Seen, returned: seq<Return>) {
    && |returned| == |m.recorded| + |Unsaved(m)| + m.lost
    && (m.lost == 0 ==> returned == m.recorded + Unsaved(m))
    && (m.ran.Some? ==> m.open.Some?)
  }

  lemma {:induction false} ReturnStep(m: Seen, e: Event, goal: string, returned: seq<Return>)
    requires m.allowed && Allowed(m, e) && AddUp(m, returned)
    ensures AddUp(Then(m, e, goal), returned + if e.Ran? then [Return(e.call, e.result)] else [])
  {
    ThenCalls(m, e, goal);
    hide Then;
    hide EffectsOf;
  }

  /** The answer reports exactly the effects of the calls that returned, once each and in order -- unless
      the service died between a return and its recording. */
  lemma {:induction false} AnswerReportsWhatReturned(log: seq<Event>, goal: string, k: nat)
    requires Scan(log, goal).allowed && k < |log| && log[k].Answered? && Scan(log[..k], goal).lost == 0
    ensures log[k].effects == EffectsOf(Returned(log[..k]))
    ensures exists places :: Reported(log[k].effects, Returned(log[..k]), places)
  {
    hide Scan;
    hide Returned;
    hide EffectsOf;
    hide Reported;
    var places := EffectsAreReported(Returned(log[..k]));
    AllowedAt(log, goal, k);
    ReturnsAddUp(log[..k], goal);
    assert Scan(log[..k], goal).recorded + [] == Scan(log[..k], goal).recorded;
  }

  function Calls(results: seq<Return>): seq<Call> {
    if results == [] then [] else Calls(results[..|results| - 1]) + [results[|results| - 1].call]
  }

  function OpenedCalls(log: seq<Event>): seq<Call> {
    if log == [] then []
    else OpenedCalls(log[..|log| - 1]) + if log[|log| - 1].Opened? then [log[|log| - 1].call] else []
  }

  function Pending(m: Seen): seq<Call> {
    if m.open.Some? then [m.open.value] else []
  }

  /** Each call the planner chose is recorded once, in the order of choosing, whatever happens in between. */
  lemma {:induction false} ChosenOnceRecordedOnce(log: seq<Event>, goal: string)
    requires Scan(log, goal).allowed
    ensures Calls(Scan(log, goal).recorded) + Pending(Scan(log, goal)) == OpenedCalls(log)
  {
    if log != [] {
      var before := log[..|log| - 1];
      LastStepOf(log, goal);
      hide Scan;
      ChosenOnceRecordedOnce(before, goal);
      var m, e := Scan(before, goal), log[|log| - 1];
      var chosen := OpenedCalls(before);
      assert OpenedCalls(log) == chosen + if e.Opened? then [e.call] else [];
      hide OpenedCalls;
      ChosenStep(m, e, goal, chosen);
    }
  }

  lemma {:induction false} ChosenStep(m: Seen, e: Event, goal: string, chosen: seq<Call>)
    requires Allowed(m, e) && Calls(m.recorded) + Pending(m) == chosen
    ensures Calls(Then(m, e, goal).recorded) + Pending(Then(m, e, goal)) == chosen + if e.Opened? then [e.call] else []
  {
    ThenCalls(m, e, goal);
    hide Then;
    if e.Closed? {
      var r := Return(m.open.value, m.ran.value);
      assert (m.recorded + [r])[..|m.recorded|] == m.recorded;
    }
    assert m.recorded + [] == m.recorded;
  }

  /** A call that was interrupted is run again unchanged: whatever runs is the call last chosen, and
      nothing was recorded since. */
  ghost predicate ChosenAt(log: seq<Event>, j: nat, n: nat, call: Call) {
    && j < n <= |log| && log[j] == Opened(call)
    && forall i | j < i < n :: !log[i].Opened? && !log[i].Closed?
  }

  lemma {:induction false} OpenMeans(log: seq<Event>, goal: string, n: nat) returns (j: nat)
    requires n <= |log| && Scan(log[..n], goal).allowed && Scan(log[..n], goal).open.Some?
    ensures ChosenAt(log, j, n, Scan(log[..n], goal).open.value)
  {
    ScanNothing(log, goal);
    hide Scan;
    hide Then;
    StepAt(log, goal, n - 1);
    ThenCalls(Scan(log[..n - 1], goal), log[n - 1], goal);
    hide Allowed;
    if log[n - 1].Opened? {
      j := n - 1;
    } else {
      j := OpenMeans(log, goal, n - 1);
    }
  }

  lemma {:induction false} RunsAreTheChosenCall(log: seq<Event>, goal: string, k: nat) returns (j: nat)
    requires Scan(log, goal).allowed && k < |log| && log[k].Ran?
    ensures ChosenAt(log, j, k, log[k].call)
  {
    hide Scan;
    AllowedAt(log, goal, k);
    j := OpenMeans(log, goal, k);
  }

  /** Within one loop the same call is not chosen twice in a row. */
  lemma {:induction false} LastMeans(log: seq<Event>, goal: string, j: nat, n: nat)
    requires j < n <= |log| && log[j].Opened? && Scan(log[..n], goal).allowed
    requires forall i | j < i < n :: !log[i].Opened? && !log[i].Looped?
    ensures Scan(log[..n], goal).last == Some(log[j].call)
  {
    hide Scan;
    hide Then;
    StepAt(log, goal, n - 1);
    ThenCalls(Scan(log[..n - 1], goal), log[n - 1], goal);
    hide Allowed;
    if j < n - 1 {
      LastMeans(log, goal, j, n - 1);
    }
  }

  lemma {:induction false} NoCallTwiceInARow(log: seq<Event>, goal: string, j: nat, k: nat)
    requires Scan(log, goal).allowed && j < k < |log| && log[j].Opened? && log[k].Opened?
    requires forall i | j < i < k :: !log[i].Opened? && !log[i].Looped?
    ensures log[j].call != log[k].call
  {
    hide Scan;
    AllowedAt(log, goal, k);
    LastMeans(log, goal, j, k);
  }

  // ------------------------------------------------------ what the steps hold

  function ReturnsOf(steps: seq<Step>): seq<Return> {
    if steps == [] then []
    else
      var last := steps[|steps| - 1];
      ReturnsOf(steps[..|steps| - 1]) + if last.Called? then [Return(last.call, last.result)] else []
  }

  lemma {:induction false} ReturnsOfAppend(steps: seq<Step>, s: Step)
    ensures ReturnsOf(steps + [s]) == ReturnsOf(steps) + if s.Called? then [Return(s.call, s.result)] else []
  {
    assert (steps + [s])[..|steps|] == steps;
  }

  /** The step that e adds to those in memory, if any. */
  function Added(m: Seen, e: Event, goal: string): Option<Step> {
    match e
    case Planned(DoCall(call)) => if m.last == Some(call) then Some(Repeated) else None
    case Planned(Answer(text)) => if Accepts(text, m.steps, m.rejected, goal) then None else Some(Objection(text, m.steps, goal))
    case Planned(Malformed) => Some(InvalidAction)
    case Closed => if m.open.Some? && m.ran.Some? then Some(Called(m.open.value, m.ran.value)) else None
    case _ => None
  }

  /** What a step does to the steps. */
  lemma {:induction false} ThenSteps(m: Seen, e: Event, goal: string)
    ensures var n, s := Then(m, e, goal), Added(m, e, goal);
            && n.steps == (if e.Began? then m.kept else if s.Some? then m.steps + [s.value] else m.steps)
            && n.kept == (if e.Opened? || Closing(m, e) || e.Escalated? then n.steps else m.kept)
            && (s.Some? && s.value.Called? <==> Closing(m, e))
  {
    if e.Planned? {
      HeardSteps(m, e.decision, goal);
      hide Heard;
      hide Added;
    }
  }

  lemma {:induction false} HeardSteps(m: Seen, d: Decision, goal: string)
    ensures var n, s := Heard(m.(plan := None), d, goal), Added(m, Planned(d), goal);
            && n.steps == (if s.Some? then m.steps + [s.value] else m.steps)
            && n.kept == m.kept && (s.Some? ==> !s.value.Called?)
  {
    hide Accepts;
    hide Supported;
  }

  /** The steps tell of exactly the recorded calls, in memory and saved; while a call is pending both are the
      same. */
  ghost predicate Telling(m: Seen) {
    && ReturnsOf(m.steps) == m.recorded && ReturnsOf(m.kept) == m.recorded
    && (m.open.Some? ==> m.steps == m.kept) && (m.ran.Some? ==> m.open.Some?)
  }

  lemma {:induction false} TellingStep(m: Seen, e: Event, goal: string)
    requires Allowed(m, e) && Telling(m)
    ensures Telling(Then(m, e, goal))
  {
    ThenCalls(m, e, goal);
    ThenSteps(m, e, goal);
    var s := Added(m, e, goal);
    if s.Some? {
      ReturnsOfAppend(m.steps, s.value);
    }
    hide Then;
    hide ReturnsOf;
    hide EffectsOf;
    assert m.recorded + [] == m.recorded;
    assert s.Some? && s.value.Called? ==> s.value == Called(m.open.value, m.ran.value);
    assert s.Some? && m.open.Some? ==> Closing(m, e);
    hide Added;
  }

  lemma {:induction false} StepsTell(log: seq<Event>, goal: string)
    requires Scan(log, goal).allowed
    ensures Telling(Scan(log, goal))
  {
    if log != [] {
      LastStepOf(log, goal);
      hide Scan;
      StepsTell(log[..|log| - 1], goal);
      hide Telling;
      TellingStep(Scan(log[..|log| - 1], goal), log[|log| - 1], goal);
    }
  }

  // ------------------------------------------------------------ the answer

  /** Planned at j was an answer that is held against these numbers. */
  ghost predicate TurnedDown(log: seq<Event>, goal: string, j: nat, missing: seq<string>) {
    && j < |log| && log[j].Planned? && log[j].decision.Answer?
    && missing == Ungrounded(log[j].decision.text, Scan(log[..j], goal).steps, goal)
  }

  /** Every rejection among the steps is that of an answer given before. */
  ghost predicate Traced(log: seq<Event>, goal: string, steps: seq<Step>) {
    forall i | 0 <= i < |steps| :: steps[i].Rejected? ==> exists j :: TurnedDown(log, goal, j, steps[i].missing)
  }

  lemma {:induction false} TurnedDownStays(log: seq<Event>, goal: string, j: nat, missing: seq<string>)
    requires log != [] && TurnedDown(log[..|log| - 1], goal, j, missing)
    ensures TurnedDown(log, goal, j, missing)
  {
    assert log[..|log| - 1][..j] == log[..j];
  }

  lemma {:induction false} TracedStays(log: seq<Event>, goal: string, steps: seq<Step>)
    requires log != [] && Traced(log[..|log| - 1], goal, steps)
    ensures Traced(log, goal, steps)
  {
    hide TurnedDown;
    forall i | 0 <= i < |steps| && steps[i].Rejected? ensures exists j :: TurnedDown(log, goal, j, steps[i].missing) {
      var j :| TurnedDown(log[..|log| - 1], goal, j, steps[i].missing);
      TurnedDownStays(log, goal, j, steps[i].missing);
    }
  }

  lemma {:induction false} AddedIsTraced(log: seq<Event>, goal: string, s: Step)
    requires log != [] && Added(Scan(log[..|log| - 1], goal), log[|log| - 1], goal) == Some(s) && s.Rejected?
    ensures TurnedDown(log, goal, |log| - 1, s.missing)
  {
    hide Scan;
    hide Supported;
    hide Accepts;
  }

  lemma {:induction false} RejectionsAreTraced(log: seq<Event>, goal: string)
    requires Scan(log, goal).allowed
    ensures Traced(log, goal, Scan(log, goal).steps) && Traced(log, goal, Scan(log, goal).kept)
  {
    if log != [] {
      var before := log[..|log| - 1];
      LastStepOf(log, goal);
      hide Scan;
      var m, e := Scan(before, goal), log[|log| - 1];
      RejectionsAreTraced(before, goal);
      TracedStays(log, goal, m.steps);
      TracedStays(log, goal, m.kept);
      ThenSteps(m, e, goal);
      hide Then;
      var s := Added(m, e, goal);
      if s.Some? && s.value.Rejected? {
        AddedIsTraced(log, goal, s.value);
      }
      hide Added;
      hide TurnedDown;
    }
  }

  lemma {:induction false} TracedIsWellFormed(log: seq<Event>, goal: string, steps: seq<Step>)
    requires Traced(log, goal, steps)
    ensures WellFormed(steps)
  {
    forall i | 0 <= i < |steps| && steps[i].Rejected? ensures AllCanonical(steps[i].missing) {
      var j: nat :| TurnedDown(log, goal, j, steps[i].missing);
      MissingIsCanonical(log[j].decision.text, Scan(log[..j], goal).steps, goal);
    }
  }

  /** A recorded call's result shows the number. */
  ghost predicate ToldBy(recorded: seq<Return>, n: string) {
    exists i | 0 <= i < |recorded| :: n in Numbers(recorded[i].result.text)
  }

  /** The longest list any recorded call returned. */
  function MostOf(recorded: seq<Return>): nat {
    if recorded == [] then 0
    else
      var most, items := MostOf(recorded[..|recorded| - 1]), recorded[|recorded| - 1].result.items;
      if items > most then items else most
  }

  lemma {:induction false} MostIs(steps: seq<Step>)
    ensures Most(steps) == MostOf(ReturnsOf(steps))
  {
    if steps != [] {
      var before, last := steps[..|steps| - 1], steps[|steps| - 1];
      MostIs(before);
      if last.Called? {
        var r := Return(last.call, last.result);
        assert (ReturnsOf(before) + [r])[..|ReturnsOf(before)|] == ReturnsOf(before);
      } else {
        assert ReturnsOf(before) + [] == ReturnsOf(before);
      }
    }
  }

  lemma {:induction false} ToldIs(steps: seq<Step>, n: string)
    requires Told(steps, n)
    ensures ToldBy(ReturnsOf(steps), n)
  {
    hide Numbers;
    var i :| 0 <= i < |steps| && FromTool(steps[i], n);
    var before, last := steps[..|steps| - 1], steps[|steps| - 1];
    var all := ReturnsOf(steps);
    if i < |before| {
      assert FromTool(before[i], n);
      ToldIs(before, n);
      var k :| 0 <= k < |ReturnsOf(before)| && n in Numbers(ReturnsOf(before)[k].result.text);
      assert all[k] == ReturnsOf(before)[k];
    } else {
      assert all[|all| - 1] == Return(last.call, last.result);
    }
  }

  /** An answer given before k was turned down for the number. */
  ghost predicate ObjectedBefore(log: seq<Event>, goal: string, k: nat, n: string)
    requires k <= |log|
  {
    exists j, missing :: TurnedDown(log[..k], goal, j, missing) && n in missing
  }

  /** Where a number of an answer at k may come from. */
  ghost predicate Sourced(log: seq<Event>, goal: string, k: nat, n: string)
    requires k <= |log|
  {
    var recorded := Scan(log[..k], goal).recorded;
    n in Numbers(goal) || ToldBy(recorded, n) || Counts(n, MostOf(recorded)) || ObjectedBefore(log, goal, k, n)
  }

  /** Only an answer that the planner just gave and that is accepted is ever reported. */
  lemma {:induction false} AnswerWasAccepted(log: seq<Event>, goal: string, k: nat)
    requires Scan(log, goal).allowed && k < |log| && log[k].Answered?
    ensures k > 0 && log[k - 1] == Planned(Answer(log[k].text))
    ensures var m := Scan(log[..k - 1], goal);
            Accepts(log[k].text, m.steps, m.rejected, goal) && Scan(log[..k], goal).steps == m.steps
  {
    ScanNothing(log, goal);
    hide Scan;
    hide Then;
    AllowedAt(log, goal, k);
    StepAt(log, goal, k - 1);
    PlannedIsHeard(Scan(log[..k - 1], goal), log[k - 1], goal);
    hide Accepts;
  }

  lemma {:induction false} PlannedIsHeard(m: Seen, e: Event, goal: string)
    requires Then(m, e, goal).plan.Some? && Allowed(m, e)
    ensures e.Planned? && Then(m, e, goal).plan == Some(e.decision)
    ensures e.decision.Answer? ==> Accepts(e.decision.text, m.steps, m.rejected, goal) && Then(m, e, goal).steps == m.steps
  {
    hide Accepts;
    hide Objection;
  }

  /** Each number of a reported answer stands in the goal or in the result of a recorded call, counts a list
      such a call returned, or belongs to an answer of this task that was turned down for it. */
  lemma {:induction false} AnswerIsSourced(log: seq<Event>, goal: string, k: nat, n: string)
    requires Scan(log, goal).allowed && k < |log| && log[k].Answered? && n in Numbers(log[k].text)
    ensures Sourced(log, goal, k, n)
  {
    AnswerWasAccepted(log, goal, k);
    AllowedAt(log, goal, k);
    var m := Scan(log[..k], goal);
    hide Scan;
    hide Numbers;
    hide Settled;
    hide Ungrounded;
    hide Counts;
    StepsTell(log[..k], goal);
    RejectionsAreTraced(log[..k], goal);
    TracedIsWellFormed(log[..k], goal, m.steps);
    AcceptedExactly(log[k].text, m.steps, goal);
    MostIs(m.steps);
    hide ToldBy;
    hide TurnedDown;
    if Told(m.steps, n) {
      ToldIs(m.steps, n);
    }
    hide Told;
    if Objected(m.steps, n) {
      var i :| 0 <= i < |m.steps| && FromRejection(m.steps[i], n);
      var j :| TurnedDown(log[..k], goal, j, m.steps[i].missing);
    }
    hide Objected;
    var i :| 0 <= i < |Numbers(log[k].text)| && Numbers(log[k].text)[i] == n;
  }

  /** What follows an answer of the planner -- unless the attempt ends there -- is the report exactly when the
      answer is accepted. */
  lemma {:induction false} AnsweredExactly(log: seq<Event>, goal: string, j: nat)
    requires Scan(log, goal).allowed && j + 1 < |log| && log[j].Planned? && log[j].decision.Answer? && !log[j + 1].Began?
    ensures var m := Scan(log[..j], goal);
            (log[j + 1].Answered? <==> Accepts(log[j].decision.text, m.steps, m.rejected, goal))
  {
    hide Scan;
    hide Then;
    hide Accepts;
    hide EffectsOf;
    AllowedAt(log, goal, j + 1);
    StepAt(log, goal, j);
    AnswerIsHeard(Scan(log[..j], goal), log[j].decision.text, goal);
  }

  lemma {:induction false} AnswerIsHeard(m: Seen, text: string, goal: string)
    ensures var n := Then(m, Planned(Answer(text)), goal);
            && n.plan == (if Accepts(text, m.steps, m.rejected, goal) then Some(Answer(text)) else None)
            && n.starting == m.starting && n.open == m.open
  {
    hide Accepts;
    hide Objection;
  }

  // ------------------------------------------------------------- the operator

  datatype Checkpoint = Checkpoint(steps: seq<Step>, pending: Option<Call>, escalated: bool)

  datatype Outcome = Interrupted | Stuck | Blocked | Done(answer: string, effects: seq<Effect>)

  /** Calls chosen so far: the recorded ones and the pending one. */
  function Chosen(m: Seen): nat {
    |m.recorded| + if m.open.Some? then 1 else 0
  }

  class OperatorTask {
    const gate: Gate<Call>
    const goal: string
    /** Only the quick planner may hand over to the better one. */
    const quick: bool
    const ledgered: Call -> bool
    var saved: Checkpoint
    ghost var log: seq<Event>
    ghost var seen: Seen

    /** Whatever the ledger knows to be done is recorded, or is the call that will be run again; and so
        long as no result was lost, it is recorded as a success. */
    ghost predicate Remembered()
      reads this, gate
    {
      forall call | call in gate.entries && gate.entries[call].Done? ::
        && (seen.open == Some(call) || Recorded(seen.recorded, call))
        && (seen.lost == 0 ==>
              RecordedOk(seen.recorded, call) || (seen.open == Some(call) && seen.ran.Some? && seen.ran.value.ok))
    }

    /** The checkpoint is what the monitor says was saved. */
    ghost predicate Valid()
      reads this, gate
    {
      && seen == Scan(log, goal) && seen.allowed && Remembered()
      && saved == Checkpoint(seen.kept, seen.open, seen.escalated)
    }

    constructor (goal: string, quick: bool, ledgered: Call -> bool)
      ensures Valid() && fresh(gate) && log == [] && saved == Checkpoint([], None, false)
    {
      gate := new Gate<Call>();
      this.goal, this.quick, this.ledgered := goal, quick, ledgered;
      saved := Checkpoint([], None, false);
      log, seen := [], START;
    }

    ghost method Note(e: Event)
      requires seen == Scan(log, goal) && seen.allowed && Allowed(seen, e)
      modifies this`log, this`seen
      ensures log == old(log) + [e] && seen == Scan(log, goal) && seen.allowed && seen == Then(old(seen), e, goal)
    {
      ScanAppend(log, e, goal);
      NextAllowed(seen, e, goal);
      log := log + [e];
      seen := Next(seen, e, goal);
    }

    /** The planner is asked; it may fail, or the attempt be stopped. */
    method Plan() returns (planned: bool, decision: Decision)
      requires Valid() && !seen.starting && seen.plan.None? && seen.open.None? && seen.rejected < MAX_REJECTED
      modifies this`log, this`seen
      ensures Valid()
      ensures if planned then log == old(log) + [Planned(decision)] && seen == Then(old(seen), Planned(decision), goal)
              else log == old(log) && seen == old(seen)
    {
      hide Scan;
      hide Accepts;
      hide Objection;
      planned, decision := *, *;
      if planned {
        ThenCalls(seen, Planned(decision), goal);
        ThenSteps(seen, Planned(decision), goal);
        hide Added;
        hide Then;
        Note(Planned(decision));
      }
    }

    /** One call through the gate. Refusals are results too; anything else stops the attempt. */
    method Invoke(call: Call) returns (alive: bool, result: Result)
      requires Valid() && !seen.starting && seen.open == Some(call) && seen.ran.None?
      modifies this`log, this`seen, gate
      ensures Valid() && old(log) <= log && seen.open == Some(call)
      ensures if alive then log == old(log) + [Event.Ran(call, result)] && seen == Then(old(seen), Event.Ran(call, result), goal)
              else log == old(log) && seen == old(seen)
    {
      hide Scan;
      result := *;
      if ledgered(call) {
        var reply, fate := gate.Invoke(call, true);
        assert forall c | c in gate.entries && c != call :: c in old(gate.entries) && gate.entries[c] == old(gate.entries)[c];
        // a tool may refuse after its entry was opened: a result too, and the entry stays open
        var refuses: bool, parked: bool := *, *;
        if (reply.Died? && !refuses) || reply.InDoubt? || (reply.Stopped? && parked) {
          return false, result;
        }
        var ok := reply.Replayed? || (reply.Ran? && reply.ok);
        result := result.(ok := ok, effect := if ok then result.effect else None);
      } else {
        var stopped: bool := *;
        if stopped {
          return false, result;
        }
        result := result.(effect := if result.ok then result.effect else None);
      }
      Note(Event.Ran(call, result));
      alive := true;
    }

    /** The planning loop: at most `budget` turns, from the steps it is handed. */
    method Loop(before: seq<Step>, resumed: Option<Call>, budget: nat) returns (outcome: Outcome, steps: seq<Step>)
      requires Valid() && seen.starting && before == seen.steps && resumed == seen.open && seen.ran.None? && budget > 0
      modifies this, gate
      ensures Valid() && old(log) + [Looped] <= log && !outcome.Blocked?
      ensures saved.escalated == old(saved).escalated
      ensures outcome.Stuck? ==> steps == seen.steps && MayEscalate()
      ensures outcome.Done? ==> Reports(outcome)
      ensures Chosen(seen) <= Chosen(old(seen)) + budget
    {
      hide Scan;
      hide EffectsOf;
      hide Remembered;
      Start();
      hide Then;
      steps := before;
      var pending := resumed;
      var rejected := 0;
      var last: Option<Call> := None;
      var n := 0;
      while n < budget && rejected < MAX_REJECTED
        invariant Valid() && old(log) + [Looped] <= log && steps == seen.steps && saved.escalated == old(saved).escalated
        invariant n <= budget && Chosen(seen) <= Chosen(old(seen)) + n
        invariant Planning() && seen.rejected == rejected <= MAX_REJECTED && seen.ran.None?
        invariant pending == seen.open && if n == 0 then rejected == 0 else pending.None?
        invariant if pending.Some? then last.None? && seen.last == pending else last == seen.last
      {
        n := n + 1;
        var goes: bool := *;
        if !goes { return Interrupted, steps; }
        if pending.Some? {
          var alive;
          alive, steps := CallOnce(steps, pending.value);
          last, pending := pending, None;
          if !alive { return Interrupted, steps; }
        } else {
          var end;
          end, steps, last, rejected := Turn(steps, last, rejected);
          if end.Some? { return end.value, steps; }
        }
      }
      outcome := Stuck;
    }

    /** One turn: the planner's word, and what comes of it. */
    method Turn(before: seq<Step>, previous: Option<Call>, objections: nat)
      returns (end: Option<Outcome>, steps: seq<Step>, last: Option<Call>, rejected: nat)
      requires Valid() && Planning() && seen.open.None? && seen.ran.None? && before == seen.steps
      requires previous == seen.last && objections == seen.rejected < MAX_REJECTED
      modifies this, gate
      ensures Valid() && old(log) <= log && saved.escalated == old(saved).escalated
      ensures end.Some? ==> end.value.Interrupted? || end.value.Stuck? || end.value.Done?
      ensures end.None? ==> Planning() && seen.open.None? && seen.ran.None? && steps == seen.steps
      ensures end.None? ==> last == seen.last && rejected == seen.rejected <= MAX_REJECTED
      ensures end == Some(Stuck) ==> steps == seen.steps && MayEscalate()
      ensures end.Some? && end.value.Done? ==> Reports(end.value)
      ensures Chosen(seen) <= Chosen(old(seen)) + 1
    {
      hide Scan;
      hide EffectsOf;
      hide Remembered;
      hide Accepts;
      hide Objection;
      steps, last, rejected := before, previous, objections;
      var planned, decision := Plan();
      if !planned { return Some(Interrupted), steps, last, rejected; }
      match decision {
        case Answer(text) =>
          var accepted;
          accepted, steps := Consider(steps, text, rejected);
          if accepted {
            var effects := Report(steps, text);
            return Some(Outcome.Done(text, effects)), steps, last, rejected;
          }
          rejected := rejected + 1;
        case Fail =>
          return Some(Stuck), steps, last, rejected;
        case Malformed =>
          steps := steps + [InvalidAction];
        case DoCall(call) =>
          if last == Some(call) {
            steps := steps + [Repeated];
          } else {
            last := Some(call);
            Open(steps, call);
            var alive;
            alive, steps := CallOnce(steps, call);
            if !alive { return Some(Interrupted), steps, last, rejected; }
          }
      }
      end := None;
    }

    /** The loop runs, and nothing is left to be done. */
    ghost predicate Planning()
      reads this
    {
      !seen.starting && seen.plan.None?
    }

    ghost predicate MayEscalate()
      reads this
    {
      !seen.starting && seen.open.None? && seen.ran.None? && (seen.plan.None? || seen.plan.value.Fail?)
    }

    /** What a finished answer reports: it was just accepted, with the effects of all recorded calls. */
    ghost predicate Reports(outcome: Outcome)
      requires outcome.Done?
      reads this
    {
      && log != [] && log[|log| - 1] == Answered(outcome.answer, outcome.effects)
      && seen.open.None? && outcome.effects == EffectsOf(seen.recorded)
    }

    /** An answer is accepted, or turned down with a step that says why. */
    method Consider(before: seq<Step>, text: string, rejected: nat) returns (accepted: bool, steps: seq<Step>)
      ensures accepted <==>
                && text != "" && Ungrounded(text, before, goal) == []
                && (rejected > 0 || NoCalls(before) || AnyWorked(before) || AllDenied(before))
      ensures accepted <==> Accepts(text, before, rejected, goal)
      ensures steps == if accepted then before else before + [Objection(text, before, goal)]
    {
      hide NoCalls;
      hide AnyWorked;
      hide AllDenied;
      var missing := Ungrounded(text, before, goal);
      hide Ungrounded;
      if text != "" && missing == [] && !NoCalls(before) && rejected == 0 && !AnyWorked(before) && !AllDenied(before) {
        return false, before + [NothingWorked];
      }
      if text != "" && missing == [] {
        return true, before;
      }
      return false, before + [Rejected(missing)];
    }

    /** The accepted answer goes out with the effects of the steps. */
    method Report(steps: seq<Step>, text: string) returns (effects: seq<Effect>)
      requires Valid() && steps == seen.steps && seen.plan == Some(Answer(text)) && seen.open.None?
      modifies this`log, this`seen
      ensures Valid() && log == old(log) + [Answered(text, effects)] && effects == EffectsOf(seen.recorded)
      ensures seen.open.None? && Chosen(seen) == Chosen(old(seen))
    {
      StepsTell(log, goal);
      hide Scan;
      hide ReturnsOf;
      hide EffectsOf;
      effects := EffectsOf(ReturnsOf(steps));
      Note(Answered(text, effects));
    }

    /** The call is saved before it runs. */
    method Open(steps: seq<Step>, call: Call)
      requires Valid() && steps == seen.steps && seen.plan == Some(DoCall(call)) && !seen.starting
      requires seen.open.None? && seen.ran.None? && seen.last != Some(call)
      modifies this`saved, this`log, this`seen
      ensures Valid() && log == old(log) + [Opened(call)] && seen == Then(old(seen), Opened(call), goal)
    {
      hide Scan;
      hide Recorded;
      hide RecordedOk;
      saved := Checkpoint(steps, Some(call), saved.escalated);
      Note(Opened(call));
    }

    /** Run the saved call, save its result. */
    method CallOnce(before: seq<Step>, call: Call) returns (alive: bool, steps: seq<Step>)
      requires Valid() && before == seen.steps && seen.open == Some(call) && seen.ran.None? && Planning()
      modifies this, gate
      ensures Valid() && old(log) <= log && saved.escalated == old(saved).escalated
      ensures alive ==> steps == seen.steps && seen.open.None? && seen.ran.None? && Planning()
      ensures alive ==> seen.last == old(seen).last && seen.rejected == old(seen).rejected
      ensures alive ==> exists result ::
                log == old(log) + [Event.Ran(call, result), Closed] && steps == before + [Called(call, result)]
      ensures Chosen(seen) <= Chosen(old(seen))
    {
      hide Scan;
      hide Remembered;
      steps := before;
      var result;
      alive, result := Invoke(call);
      if !alive { return; }
      var dies: bool := *;
      if dies { return false, steps; }
      steps := Record(steps, call, result);
      assert log == old(log) + [Event.Ran(call, result), Closed];
    }

    method Record(before: seq<Step>, call: Call, result: Result) returns (steps: seq<Step>)
      requires Valid() && before == seen.steps && seen.open == Some(call) && seen.ran == Some(result)
      modifies this`saved, this`log, this`seen
      ensures Valid() && log == old(log) + [Closed] && steps == before + [Called(call, result)] && steps == seen.steps
      ensures seen == Then(old(seen), Closed, goal)
    {
      hide Scan;
      RecordMore(seen.recorded, Return(call, result));
      hide Recorded;
      hide RecordedOk;
      steps := before + [Called(call, result)];
      saved := Checkpoint(steps, None, saved.escalated);
      Note(Closed);
    }

    /** One attempt: the planner, and the better planner, from the same steps, when the quick one is stuck. */
    method Attempt() returns (outcome: Outcome)
      requires Valid()
      modifies this, gate
      ensures Valid() && old(log) + [Began, Looped] <= log && !outcome.Stuck?
      ensures outcome.Done? ==> Reports(outcome)
      ensures old(saved).escalated ==> saved.escalated
      ensures outcome.Blocked? && quick ==> saved.escalated
      ensures Chosen(seen) <= Chosen(old(seen)) + MAX_STEPS + ESCALATED_STEPS
    {
      hide Scan;
      hide EffectsOf;
      Begin();
      hide Remembered;
      var steps := saved.steps;
      var pending := saved.pending;
      if !saved.escalated {
        outcome, steps := Loop(steps, pending, MAX_STEPS);
        if !outcome.Stuck? { return; }
        if !quick { return Blocked; }
        pending := None;
        Escalate(steps);
      }
      outcome, steps := Loop(steps, pending, ESCALATED_STEPS);
      if outcome.Stuck? {
        outcome := Blocked;
      }
    }

    /** An attempt starts from the checkpoint. */
    method Begin()
      requires Valid()
      modifies this`log, this`seen
      ensures Valid() && log == old(log) + [Began] && seen == Then(old(seen), Began, goal)
    {
      hide Scan;
      hide Recorded;
      hide RecordedOk;
      Note(Began);
    }

    method Start()
      requires Valid() && seen.starting
      modifies this`log, this`seen
      ensures Valid() && log == old(log) + [Looped] && seen == Then(old(seen), Looped, goal)
    {
      hide Scan;
      hide Recorded;
      hide RecordedOk;
      Note(Looped);
    }

    /** The quick planner is stuck: the better one takes over, and that is saved. */
    method Escalate(steps: seq<Step>)
      requires Valid() && steps == seen.steps && MayEscalate() && !saved.escalated
      modifies this`saved, this`log, this`seen
      ensures Valid() && log == old(log) + [Escalated] && seen == Then(old(seen), Escalated, goal)
    {
      hide Scan;
      hide Recorded;
      hide RecordedOk;
      saved := Checkpoint(steps, None, true);
      Note(Escalated);
    }

    /** Any number of attempts, up to an answer. Each number of the answer is accounted for, and every call the
        ledger knows to be done is recorded, as a success if no result was lost. */
    method Lives(attempts: nat) returns (outcome: Outcome)
      requires Valid()
      modifies this, gate
      ensures Valid() && old(log) <= log
      ensures outcome.Done? ==> Reports(outcome)
      ensures outcome.Done? ==> forall n | n in Numbers(outcome.answer) :: Sourced(log, goal, |log| - 1, n)
      ensures outcome.Done? ==> forall call | call in gate.entries && gate.entries[call].Done? ::
                                  Recorded(seen.recorded, call) && (seen.lost == 0 ==> RecordedOk(seen.recorded, call))
    {
      hide Scan;
      hide EffectsOf;
      hide Sourced;
      hide Numbers;
      outcome := Interrupted;
      for i := 0 to attempts
        invariant Valid() && old(log) <= log && !outcome.Done?
      {
        outcome := Attempt();
        if outcome.Done? {
          forall n | n in Numbers(outcome.answer) ensures Sourced(log, goal, |log| - 1, n) {
            AnswerIsSourced(log, goal, |log| - 1, n);
          }
          return;
        }
      }
    }
  }

  ghost predicate RecordedOk(recorded: seq<Return>, call: Call) {
    exists i | 0 <= i < |recorded| :: recorded[i].call == call && recorded[i].result.ok
  }

  ghost predicate Recorded(recorded: seq<Return>, call: Call) {
    exists i | 0 <= i < |recorded| :: recorded[i].call == call
  }

  lemma RecordMore(recorded: seq<Return>, r: Return)
    ensures forall call | RecordedOk(recorded, call) :: RecordedOk(recorded + [r], call)
    ensures forall call | Recorded(recorded, call) :: Recorded(recorded + [r], call)
    ensures Recorded(recorded + [r], r.call) && (r.result.ok ==> RecordedOk(recorded + [r], r.call))
  {
    assert forall i | 0 <= i < |recorded| :: (recorded + [r])[i] == recorded[i];
    assert (recorded + [r])[|recorded|] == r;
  }
}
