/** The notification engine: batched progress messages with a growing cap, error messages with a cooldown,
    and one live message per task whose edits are folded.

    Each kind has a step function for one key; the class keeps one such state per key, and the lemmas
    speak about whole runs of updates. Times are readings of a clock that does not go back. */
module Notifier {
  import opened Options
  import opened Strings

  const LONG_TASK_BONUS_EVERY_SECONDS := 1800.0
  const LIVE_EDIT_SECONDS := 1.5

  datatype Policy = Policy(interval: real, base: nat, cooldown: real, batch: bool)

  datatype Update = Update(at: real, text: string)

  ghost predicate InTime(updates: seq<Update>) {
    forall i, j | 0 <= i < j < |updates| :: updates[i].at <= updates[j].at
  }

  function Texts(updates: seq<Update>): (texts: seq<string>)
    ensures |texts| == |updates|
  {
    if updates == [] then [] else Texts(updates[..|updates| - 1]) + [updates[|updates| - 1].text]
  }

  function Last<T>(s: seq<T>): T
    requires s != []
  {
    s[|s| - 1]
  }

  // ------------------------------------------------------------- progress

  datatype TaskProgress = TaskProgress(firstAt: real, lastSentAt: Option<real>, sent: nat, pending: seq<string>)

  /** A message that went out: when, and the updates whose texts it joins. */
  datatype Emission = Emission(at: real, texts: seq<string>)

  /** The allowance grows by one for every half hour the task has run. */
  function Cap(policy: Policy, p: TaskProgress, now: real): int {
    policy.base + ((now - p.firstAt) / LONG_TASK_BONUS_EVERY_SECONDS).Floor
  }

  function ProgressStep(policy: Policy, known: Option<TaskProgress>, u: Update): (TaskProgress, Option<Emission>) {
    var p := if known.Some? then known.value else TaskProgress(u.at, None, 0, []);
    var intervalOk := p.lastSentAt.None? || u.at - p.lastSentAt.value >= policy.interval;
    if !intervalOk || p.sent >= Cap(policy, p, u.at) then
      (p.(pending := if policy.batch then p.pending + [u.text] else p.pending), None)
    else
      (TaskProgress(p.firstAt, Some(u.at), p.sent + 1, []), Some(Emission(u.at, p.pending + [u.text])))
  }

  function ProgressRun(policy: Policy, updates: seq<Update>): (Option<TaskProgress>, seq<Emission>) {
    if updates == [] then (None, [])
    else
      var (p, out) := ProgressRun(policy, updates[..|updates| - 1]);
      var (p', e) := ProgressStep(policy, p, Last(updates));
      (Some(p'), if e.Some? then out + [e.value] else out)
  }

  function Said(out: seq<Emission>): seq<string> {
    if out == [] then [] else Said(out[..|out| - 1]) + Last(out).texts
  }

  /** Emissions keep their distance, and the i-th stays within the allowance of its time. */
  ghost predicate Throttled(policy: Policy, firstAt: real, out: seq<Emission>) {
    && (forall i | 0 < i < |out| :: out[i].at - out[i - 1].at >= policy.interval)
    && (forall i | 0 <= i < |out| ::
          i + 1 <= policy.base + ((out[i].at - firstAt) / LONG_TASK_BONUS_EVERY_SECONDS).Floor)
  }

  /** Over every run: nothing is lost or reordered while batching, and the throttle holds. */
  lemma {:induction false} ProgressKept(policy: Policy, updates: seq<Update>)
    requires updates != []
    ensures var (p, out) := ProgressRun(policy, updates);
            p.Some? && Agrees(p.value, updates[0].at, out) && Throttled(policy, updates[0].at, out)
  {
    var before := updates[..|updates| - 1];
    var (p, out) := ProgressRun(policy, before);
    if before != [] {
      ProgressKept(policy, before);
      assert before[0] == updates[0];
    }
    hide Throttled;
    ProgressStarts(policy, updates[0].at);
    ProgressAdds(policy, updates[0].at, p, out, Last(updates));
  }

  lemma {:induction false} ProgressStarts(policy: Policy, firstAt: real)
    ensures Throttled(policy, firstAt, [])
  {
  }

  /** While batching, no text is lost, repeated or reordered. */
  lemma {:induction false} NothingIsLost(policy: Policy, updates: seq<Update>)
    requires policy.batch
    ensures var (p, out) := ProgressRun(policy, updates);
            Said(out) + (if p.Some? then p.value.pending else []) == Texts(updates)
  {
    if updates != [] {
      var before := updates[..|updates| - 1];
      var (p, out) := ProgressRun(policy, before);
      NothingIsLost(policy, before);
      hide Said;
      ProgressSays(policy, p, out, Last(updates), Texts(before));
    }
  }

  /** The bookkeeping of a task agrees with what was sent. */
  ghost predicate Agrees(p: TaskProgress, firstAt: real, out: seq<Emission>) {
    p.firstAt == firstAt && p.sent == |out| && p.lastSentAt == (if out == [] then None else Some(Last(out).at))
  }

  lemma {:induction false} ThrottledAppend(policy: Policy, firstAt: real, out: seq<Emission>, e: Emission)
    requires Throttled(policy, firstAt, out)
    requires out != [] ==> e.at - Last(out).at >= policy.interval
    requires |out| + 1 <= policy.base + ((e.at - firstAt) / LONG_TASK_BONUS_EVERY_SECONDS).Floor
    ensures Throttled(policy, firstAt, out + [e])
  {
  }

  lemma {:induction false} SaidAppend(out: seq<Emission>, e: Emission)
    ensures Said(out + [e]) == Said(out) + e.texts
  {
    assert (out + [e])[..|out|] == out;
  }

  lemma {:induction false} ProgressAdds(policy: Policy, firstAt: real, p: Option<TaskProgress>, out: seq<Emission>, u: Update)
    requires p.None? ==> out == [] && firstAt == u.at
    requires p.Some? ==> Agrees(p.value, firstAt, out)
    requires Throttled(policy, firstAt, out)
    ensures var (p', e) := ProgressStep(policy, p, u);
            var out' := if e.Some? then out + [e.value] else out;
            Agrees(p', firstAt, out') && Throttled(policy, firstAt, out')
  {
    hide Throttled;
    var (p', e) := ProgressStep(policy, p, u);
    if e.Some? {
      ThrottledAppend(policy, firstAt, out, e.value);
    }
  }

  lemma {:induction false} ProgressSays(policy: Policy, p: Option<TaskProgress>, out: seq<Emission>, u: Update, texts: seq<string>)
    requires policy.batch && Said(out) + (if p.Some? then p.value.pending else []) == texts
    ensures var (p', e) := ProgressStep(policy, p, u);
            Said(if e.Some? then out + [e.value] else out) + p'.pending == texts + [u.text]
  {
    hide Said;
    var (p', e) := ProgressStep(policy, p, u);
    var pending := if p.Some? then p.value.pending else [];
    assert Said(out) + (pending + [u.text]) == texts + [u.text];
    if e.Some? {
      SaidAppend(out, e.value);
    }
  }

  /** A message goes out with an update exactly when the last one is an interval ago and the allowance of the time
      is not used up; it ends with that update. */
  lemma {:induction false} SaidWhenAllowed(policy: Policy, updates: seq<Update>)
    requires updates != []
    ensures var out, more, u := ProgressRun(policy, updates[..|updates| - 1]).1, ProgressRun(policy, updates).1, Last(updates);
            && out <= more
            && (more != out <==>
                  && (out == [] || u.at - Last(out).at >= policy.interval)
                  && |out| < policy.base + ((u.at - updates[0].at) / LONG_TASK_BONUS_EVERY_SECONDS).Floor)
            && (more != out ==>
                  |more| == |out| + 1 && Last(more).at == u.at && Last(more).texts != [] && Last(Last(more).texts) == u.text)
  {
    var before := updates[..|updates| - 1];
    if before != [] {
      ProgressKept(policy, before);
      assert before[0] == updates[0];
    }
    hide Throttled;
  }

  /** Messages are few: within any stretch of time, one more than the intervals that fit into it. */
  lemma {:induction false} FewMessages(policy: Policy, firstAt: real, out: seq<Emission>, i: nat, j: nat)
    requires Throttled(policy, firstAt, out) && i <= j < |out|
    ensures out[j].at - out[i].at >= policy.interval * (j - i) as real
  {
    if i < j {
      FewMessages(policy, firstAt, out, i, j - 1);
      assert policy.interval * (j - i) as real == policy.interval * (j - 1 - i) as real + policy.interval;
    }
  }

  // --------------------------------------------------------------- errors

  datatype Alert = Alert(at: real, severity: int)

  function ErrorStep(policy: Policy, last: Option<Alert>, now: Alert): bool {
    last.None? || now.at - last.value.at >= policy.cooldown || now.severity > last.value.severity
  }

  /** The alerts of one key that are sent. */
  function ErrorRun(policy: Policy, alerts: seq<Alert>): seq<Alert> {
    if alerts == [] then []
    else
      var out := ErrorRun(policy, alerts[..|alerts| - 1]);
      if ErrorStep(policy, if out == [] then None else Some(Last(out)), Last(alerts)) then out + [Last(alerts)] else out
  }

  /** A repeat is a cooldown later or more severe than the one before it. */
  ghost predicate SpacedOrWorse(policy: Policy, out: seq<Alert>) {
    forall i | 0 < i < |out| :: out[i].at - out[i - 1].at >= policy.cooldown || out[i].severity > out[i - 1].severity
  }

  ghost predicate AlertsInTime(alerts: seq<Alert>) {
    forall i, j | 0 <= i < j < |alerts| :: alerts[i].at <= alerts[j].at
  }

  lemma {:induction false} SpacedAppend(policy: Policy, out: seq<Alert>, now: Alert)
    requires SpacedOrWorse(policy, out) && AlertsInTime(out)
    requires forall i | 0 <= i < |out| :: out[i].at <= now.at
    ensures ErrorStep(policy, if out == [] then None else Some(Last(out)), now)
            ==> SpacedOrWorse(policy, out + [now]) && AlertsInTime(out + [now])
  {
  }

  lemma {:induction false} ErrorsSpacedOrWorse(policy: Policy, alerts: seq<Alert>)
    requires AlertsInTime(alerts)
    ensures SpacedOrWorse(policy, ErrorRun(policy, alerts)) && AlertsInTime(ErrorRun(policy, alerts))
    ensures forall i | 0 <= i < |ErrorRun(policy, alerts)| :: alerts != [] && ErrorRun(policy, alerts)[i].at <= Last(alerts).at
  {
    if alerts != [] {
      var before := alerts[..|alerts| - 1];
      ErrorsSpacedOrWorse(policy, before);
      var out := ErrorRun(policy, before);
      assert before != [] ==> Last(before).at <= Last(alerts).at;
      assert forall i | 0 <= i < |out| :: out[i].at <= Last(alerts).at;
      hide ErrorRun;
      SpacedAppend(policy, out, Last(alerts));
    }
  }

  /** The owner was told: of this alert, or within the cooldown before it of one at least as severe. */
  ghost predicate Told(policy: Policy, out: seq<Alert>, now: Alert) {
    exists k | 0 <= k < |out| ::
      && out[k].severity >= now.severity && out[k].at <= now.at
      && (out[k] == now || now.at - out[k].at < policy.cooldown)
  }

  /** No alert is swallowed unless the owner was told. */
  lemma {:induction false} ErrorsAreTold(policy: Policy, alerts: seq<Alert>, i: nat)
    requires AlertsInTime(alerts) && i < |alerts|
    ensures Told(policy, ErrorRun(policy, alerts), alerts[i])
  {
    var before := alerts[..|alerts| - 1];
    var out := ErrorRun(policy, before);
    ErrorsSpacedOrWorse(policy, before);
    if i < |before| {
      ErrorsAreTold(policy, before, i);
      TellMore(policy, out, Last(alerts), alerts[i]);
    } else {
      assert (out + [Last(alerts)])[|out|] == alerts[i];
      if out != [] {
        assert Last(out).at <= Last(before).at <= Last(alerts).at;
      }
    }
  }

  lemma {:induction false} TellMore(policy: Policy, out: seq<Alert>, more: Alert, now: Alert)
    requires Told(policy, out, now)
    ensures Told(policy, out + [more], now)
  {
    var k :| 0 <= k < |out| && out[k].severity >= now.severity && out[k].at <= now.at
             && (out[k] == now || now.at - out[k].at < policy.cooldown);
    assert (out + [more])[k] == out[k];
  }

  /** Inside any window shorter than the cooldown, the alerts of a key get worse and worse. */
  lemma {:induction false} BurstsEscalate(policy: Policy, out: seq<Alert>, i: nat, j: nat)
    requires SpacedOrWorse(policy, out) && AlertsInTime(out)
    requires i < j < |out| && out[j].at - out[i].at < policy.cooldown
    ensures out[j].severity >= out[i].severity + (j - i)
  {
    assert out[j - 1].at <= out[j].at && out[i].at <= out[j].at;
    if i < j - 1 {
      BurstsEscalate(policy, out, i, j - 1);
    }
  }

  // ------------------------------------------------------ the live message

  /** One task's live message. `jobs` are the due times of the flush jobs still to run. */
  datatype Live = Live(at: Option<real>, pending: Option<string>, jobs: seq<real>, sent: seq<Update>)

  const QUIET := Live(None, None, [], [])

  function LiveUpdate(s: Live, u: Update): Live {
    if s.at.Some? && u.at - s.at.value < LIVE_EDIT_SECONDS then
      Live(s.at, Some(u.text), if s.pending.None? then s.jobs + [u.at + (LIVE_EDIT_SECONDS - (u.at - s.at.value))] else s.jobs, s.sent)
    else
      Live(Some(u.at), s.pending, s.jobs, s.sent + [u])
  }

  /** The oldest flush job wakes up. */
  function LiveFlush(s: Live, now: real): Live {
    if s.jobs == [] then s
    else if s.pending.None? then s.(jobs := s.jobs[1..])
    else Live(Some(now), None, s.jobs[1..], s.sent + [Update(now, s.pending.value)])
  }

  datatype LiveEvent = Show(u: Update) | Flush(now: real) {
    function Time(): real { if Show? then u.at else now }
  }

  function LiveStep(s: Live, e: LiveEvent): Live {
    if e.Show? then LiveUpdate(s, e.u) else LiveFlush(s, e.now)
  }

  function LiveRun(events: seq<LiveEvent>): Live {
    if events == [] then QUIET else LiveStep(LiveRun(events[..|events| - 1]), Last(events))
  }

  /** A flush runs when it is due, never earlier. */
  predicate CanHappen(s: Live, e: LiveEvent) {
    e.Flush? ==> s.jobs != [] && s.jobs[0] <= e.now
  }

  /** The premise of the ordering: no update is sent past a flush that is due. */
  predicate FlushFirst(s: Live, e: LiveEvent) {
    e.Show? ==> s.jobs == [] || s.jobs[0] > e.u.at
  }

  predicate Possible(events: seq<LiveEvent>) {
    forall i | 0 <= i < |events| :: CanHappen(LiveRun(events[..i]), events[i])
  }

  predicate FlushesFirst(events: seq<LiveEvent>) {
    forall i | 0 <= i < |events| :: FlushFirst(LiveRun(events[..i]), events[i])
  }

  function Shown(events: seq<LiveEvent>): seq<string> {
    if events == [] then []
    else Shown(events[..|events| - 1]) + (if Last(events).Show? then [Last(events).u.text] else [])
  }

  lemma {:induction false} PrefixPossible(events: seq<LiveEvent>)
    requires events != []
    ensures Possible(events) ==> Possible(events[..|events| - 1]) && CanHappen(LiveRun(events[..|events| - 1]), Last(events))
    ensures FlushesFirst(events) ==> FlushesFirst(events[..|events| - 1]) && FlushFirst(LiveRun(events[..|events| - 1]), Last(events))
  {
    hide LiveRun;
    hide CanHappen;
    hide FlushFirst;
    var before := events[..|events| - 1];
    forall i | 0 <= i < |before| ensures events[..i] == before[..i] && events[i] == before[i] {}
  }

  /** A text waits exactly when one flush job is under way — in every run. */
  lemma {:induction false} OneJobPerPending(events: seq<LiveEvent>)
    ensures |LiveRun(events).jobs| == if LiveRun(events).pending.Some? then 1 else 0
    ensures LiveRun(events).pending.Some? ==> LiveRun(events).at.Some?
  {
    if events != [] {
      OneJobPerPending(events[..|events| - 1]);
    }
  }

  /** The texts sent are, in order, some of those shown; `marks` says which. */
  ghost predicate InOrder(sent: seq<Update>, shown: seq<string>, marks: seq<nat>) {
    && |marks| == |sent|
    && (forall i | 0 <= i < |marks| :: marks[i] < |shown| && sent[i].text == shown[marks[i]])
    && (forall i, j | 0 <= i < j < |marks| :: marks[i] < marks[j])
  }

  ghost predicate Apart(sent: seq<Update>) {
    forall i | 0 < i < |sent| :: sent[i].at - sent[i - 1].at >= LIVE_EDIT_SECONDS
  }

  /** What a well-behaved run has come to. */
  ghost predicate Current(s: Live, shown: seq<string>, marks: seq<nat>) {
    && Apart(s.sent) && InOrder(s.sent, shown, marks)
    && s.at == (if s.sent == [] then None else Some(Last(s.sent).at))
    && (shown == [] <==> s.sent == [])
    && (s.pending.None? ==> s.jobs == [] && (shown != [] ==> Last(marks) == |shown| - 1))
    && (s.pending.Some? ==>
          && s.sent != [] && s.jobs == [Last(s.sent).at + LIVE_EDIT_SECONDS]
          && s.pending.value == Last(shown) && Last(marks) < |shown| - 1)
  }

  lemma {:induction false} SendShown(t: Live, u: Update, shown: seq<string>, marks: seq<nat>)
    requires Current(t, shown, marks) && t.jobs == []
    requires t.sent != [] ==> u.at - Last(t.sent).at >= LIVE_EDIT_SECONDS
    ensures Current(Live(Some(u.at), t.pending, [], t.sent + [u]), shown + [u.text], marks + [|shown|])
  {
  }

  lemma {:induction false} SendPending(t: Live, now: real, shown: seq<string>, marks: seq<nat>)
    requires Current(t, shown, marks) && t.pending.Some? && t.jobs[0] <= now
    ensures Current(Live(Some(now), None, [], t.sent + [Update(now, t.pending.value)]), shown, marks + [|shown| - 1])
  {
    assert Last(marks) < |shown| - 1;
  }

  lemma {:induction false} KeepPending(t: Live, u: Update, shown: seq<string>, marks: seq<nat>)
    requires Current(t, shown, marks) && t.at.Some?
    ensures Current(Live(t.at, Some(u.text), [Last(t.sent).at + LIVE_EDIT_SECONDS], t.sent), shown + [u.text], marks)
  {
    assert Last(marks) < |shown|;
  }

  lemma CurrentStep(t: Live, e: LiveEvent, shown: seq<string>, marks: seq<nat>) returns (marks': seq<nat>)
    requires Current(t, shown, marks) && CanHappen(t, e) && FlushFirst(t, e)
    ensures Current(LiveStep(t, e), if e.Show? then shown + [e.u.text] else shown, marks')
  {
    CurrentFacts(t, shown, marks);
    hide Current;
    if e.Flush? {
      SendPending(t, e.now, shown, marks);
      marks' := marks + [|shown| - 1];
    } else if t.at.Some? && e.u.at - t.at.value < LIVE_EDIT_SECONDS {
      KeepPending(t, e.u, shown, marks);
      marks' := marks;
    } else {
      SendShown(t, e.u, shown, marks);
      marks' := marks + [|shown|];
    }
  }

  lemma {:induction false} CurrentFacts(t: Live, shown: seq<string>, marks: seq<nat>)
    requires Current(t, shown, marks)
    ensures t.at == (if t.sent == [] then None else Some(Last(t.sent).at))
    ensures t.pending.None? ==> t.jobs == []
    ensures t.pending.Some? ==> t.sent != [] && t.jobs == [Last(t.sent).at + LIVE_EDIT_SECONDS] && shown != []
  {
  }

  lemma {:induction false} LiveStaysCurrent(events: seq<LiveEvent>) returns (marks: seq<nat>)
    requires Possible(events) && FlushesFirst(events)
    ensures Current(LiveRun(events), Shown(events), marks)
  {
    if events == [] {
      marks := [];
    } else {
      var before := events[..|events| - 1];
      PrefixPossible(events);
      marks := LiveStaysCurrent(before);
      hide Current;
      hide LiveStep;
      marks := CurrentStep(LiveRun(before), Last(events), Shown(before), marks);
    }
  }

  lemma {:induction false} CurrentMeans(s: Live, shown: seq<string>, marks: seq<nat>)
    requires Current(s, shown, marks)
    ensures Apart(s.sent) && InOrder(s.sent, shown, marks)
    ensures s.pending.None? && shown != [] ==> s.sent != [] && Last(s.sent).text == Last(shown)
  {
  }

  /** While due flushes run first: sends keep their distance, texts keep their order, and once nothing
      waits the last text sent is the last text shown. */
  lemma {:induction false} LiveMessageIsCurrent(events: seq<LiveEvent>)
    requires Possible(events) && FlushesFirst(events)
    ensures var s := LiveRun(events);
            && Apart(s.sent) && (exists marks :: InOrder(s.sent, Shown(events), marks))
            && (s.pending.None? && Shown(events) != [] ==> s.sent != [] && Last(s.sent).text == Last(Shown(events)))
  {
    var marks := LiveStaysCurrent(events);
    hide LiveRun;
    hide Shown;
    hide Possible;
    hide FlushesFirst;
    CurrentMeans(LiveRun(events), Shown(events), marks);
  }

  /** An update that is sent at once while another text waits. */
  predicate GoesPast(s: Live, u: Update) {
    s.pending.Some? && !(s.at.Some? && u.at - s.at.value < LIVE_EDIT_SECONDS)
  }

  /** What the owner will be left with: the last update shown -- or, if that went past a waiting text, the
      text it went past. */
  function LeftWith(events: seq<LiveEvent>): Option<string> {
    if events == [] then None
    else
      var before, last := events[..|events| - 1], Last(events);
      if last.Flush? then LeftWith(before)
      else if GoesPast(LiveRun(before), last.u) then LiveRun(before).pending
      else Some(last.u.text)
  }

  /** The last update shown did not go past a different text. */
  predicate NothingOvertaken(events: seq<LiveEvent>) {
    if events == [] then true
    else
      var before, last := events[..|events| - 1], Last(events);
      if last.Flush? then NothingOvertaken(before)
      else GoesPast(LiveRun(before), last.u) ==> LiveRun(before).pending == Some(last.u.text)
  }

  /** What was sent last, with what waits after it. */
  function Coming(s: Live): Option<string> {
    if s.pending.Some? then s.pending else if s.sent == [] then None else Some(Last(s.sent).text)
  }

  lemma {:induction false} ComingStep(s: Live, e: LiveEvent)
    requires s.jobs == [] ==> s.pending.None?
    ensures Coming(LiveStep(s, e)) == if e.Flush? then Coming(s) else if GoesPast(s, e.u) then s.pending else Some(e.u.text)
  {
  }

  lemma {:induction false} WhatIsLeft(events: seq<LiveEvent>)
    ensures Coming(LiveRun(events)) == LeftWith(events)
  {
    if events != [] {
      var before := events[..|events| - 1];
      WhatIsLeft(before);
      OneJobPerPending(before);
      ComingStep(LiveRun(before), Last(events));
      hide Coming;
      hide LiveStep;
    }
  }

  lemma {:induction false} LastShown(events: seq<LiveEvent>)
    requires Shown(events) != []
    ensures LeftWith(events).Some?
    ensures LeftWith(events) == Some(Last(Shown(events))) <==> NothingOvertaken(events)
  {
    var before, last := events[..|events| - 1], Last(events);
    if last.Flush? {
      assert Shown(events) == Shown(before) + [];
      LastShown(before);
    }
  }

  /** A quiet message shows the last text submitted exactly when that did not go past a different text
      still waiting -- in every run, whatever the order of its flushes and updates. */
  lemma {:induction false} QuietMessageIsCurrentExactly(events: seq<LiveEvent>)
    requires LiveRun(events).pending.None? && Shown(events) != []
    ensures LiveRun(events).sent != []
    ensures Last(LiveRun(events).sent).text == Last(Shown(events)) <==> NothingOvertaken(events)
  {
    WhatIsLeft(events);
    LastShown(events);
    hide LiveRun;
    hide LeftWith;
    hide NothingOvertaken;
    hide Shown;
  }

  /** Without that, an update can overtake a due flush, and the message ends on an older text. */
  lemma OvertakenFlush()
    ensures exists events :: Possible(events) && LiveRun(events).pending.None? && LiveRun(events).sent != []
                          && Shown(events) != [] && Last(LiveRun(events).sent).text != Last(Shown(events))
  {
    var e := [Show(Update(0.0, "a")), Show(Update(1.0, "b")), Show(Update(2.0, "c")), Flush(2.1)];
    assert e[..4] == e && e[..4][..3] == e[..3] && e[..3][..2] == e[..2] && e[..2][..1] == e[..1] && e[..1][..0] == e[..0] == [];
    assert LiveRun(e[..1]) == LiveStep(QUIET, e[0]);
    assert LiveRun(e[..2]) == LiveStep(LiveRun(e[..1]), e[1]);
    assert LiveRun(e[..3]) == LiveStep(LiveRun(e[..2]), e[2]);
    assert LiveRun(e) == LiveStep(LiveRun(e[..3]), e[3]);
    assert Shown(e) == Shown(e[..3]) + [];
    assert Shown(e[..3]) == Shown(e[..2]) + ["c"];
    assert LiveRun(e).sent == [Update(0.0, "a"), Update(2.0, "c"), Update(2.1, "b")];
  }

  // ------------------------------------------------------------ the engine

  class Notifier {
    const policy: Policy
    var progress: map<int, TaskProgress>
    var errors: map<string, Alert>
    var live: map<string, Live>
    /** What was handed to the sender. */
    var out: seq<string>

    constructor (policy: Policy)
      ensures this.policy == policy && progress == map[] && errors == map[] && live == map[] && out == []
    {
      this.policy := policy;
      progress, errors, live, out := map[], map[], map[], [];
    }

    function Progress(task: int): Option<TaskProgress>
      reads this
    {
      if task in progress then Some(progress[task]) else None
    }

    function LiveOf(key: string): Live
      reads this
    {
      if key in live then live[key] else QUIET
    }

    method ProgressUpdate(task: int, u: Update) returns (sent: bool)
      modifies this`progress, this`out
      ensures Progress(task) == Some(ProgressStep(policy, old(Progress(task)), u).0)
      ensures forall other | other != task :: Progress(other) == old(Progress(other))
      ensures var e := ProgressStep(policy, old(Progress(task)), u).1;
              sent == e.Some? && out == if sent then old(out) + [JoinLines(e.value.texts)] else old(out)
    {
      if task !in progress {
        progress := progress[task := TaskProgress(u.at, None, 0, [])];
      }
      var p := progress[task];
      var intervalOk := p.lastSentAt.None? || u.at - p.lastSentAt.value >= policy.interval;
      if !intervalOk || p.sent >= Cap(policy, p, u.at) {
        if policy.batch {
          progress := progress[task := p.(pending := p.pending + [u.text])];
        }
        return false;
      }
      var body := JoinLines(p.pending + [u.text]);
      p := p.(pending := []);
      p := p.(lastSentAt := Some(u.at), sent := p.sent + 1);
      progress := progress[task := p];
      out := out + [body];
      sent := true;
    }

    /** A final message goes out at once and closes the task's progress. */
    method Finish(task: int, text: string)
      modifies this`progress, this`out
      ensures Progress(task) == None && out == old(out) + [text]
      ensures forall other | other != task :: Progress(other) == old(Progress(other))
    {
      progress := progress - {task};
      out := out + [text];
    }

    method Error(key: string, text: string, now: Alert) returns (sent: bool)
      modifies this`errors, this`out
      ensures sent == ErrorStep(policy, if key in old(errors) then Some(old(errors)[key]) else None, now)
      ensures errors == if sent then old(errors)[key := now] else old(errors)
      ensures out == if sent then old(out) + [text] else old(out)
    {
      if key in errors {
        var last := errors[key];
        if now.at - last.at < policy.cooldown && now.severity <= last.severity {
          return false;
        }
      }
      errors := errors[key := now];
      out := out + [text];
      sent := true;
    }

    method ShowLive(key: string, u: Update) returns (sent: bool)
      modifies this`live, this`out
      ensures LiveOf(key) == LiveUpdate(old(LiveOf(key)), u)
      ensures forall other | other != key :: LiveOf(other) == old(LiveOf(other))
      ensures out == if sent then old(out) + [u.text] else old(out)
      ensures sent == (|LiveOf(key).sent| > |old(LiveOf(key)).sent|)
    {
      var s := if key in live then live[key] else QUIET;
      if s.at.Some? && u.at - s.at.value < LIVE_EDIT_SECONDS {
        var pending := s.pending;
        s := s.(pending := Some(u.text));
        if pending == None {
          s := s.(jobs := s.jobs + [u.at + (LIVE_EDIT_SECONDS - (u.at - s.at.value))]);
        }
        live := live[key := s];
        return false;
      }
      live := live[key := s.(at := Some(u.at), sent := s.sent + [u])];
      out := out + [u.text];
      sent := true;
    }

    method FlushLive(key: string, now: real)
      requires LiveOf(key).jobs != []
      modifies this`live, this`out
      ensures LiveOf(key) == LiveFlush(old(LiveOf(key)), now)
      ensures forall other | other != key :: LiveOf(other) == old(LiveOf(other))
      ensures out == old(out) + if old(LiveOf(key)).pending.Some? then [old(LiveOf(key)).pending.value] else []
    {
      var s := live[key];
      var pending := s.pending;
      s := s.(pending := None, jobs := s.jobs[1..]);
      if pending.Some? {
        s := s.(at := Some(now), sent := s.sent + [Update(now, pending.value)]);
        out := out + [pending.value];
      }
      live := live[key := s];
    }
  }

  lemma {:induction false} SplitFirst(line: string, rest: string)
    requires '\n' !in line
    ensures Split(line + "\n" + rest) == [line] + Split(rest)
    ensures Split(line) == [line]
  {
    var all := line + "\n" + rest;
    if line == "" {
      assert all[1..] == rest;
    } else {
      assert all[1..] == line[1..] + "\n" + rest;
      SplitFirst(line[1..], rest);
      assert [line[0]] + line[1..] == line;
    }
  }

  /** A message is its updates, a line each. */
  lemma {:induction false} JoinedLinesSplit(texts: seq<string>)
    requires texts != [] && forall i | 0 <= i < |texts| :: '\n' !in texts[i]
    ensures Split(JoinLines(texts)) == texts
  {
    if |texts| > 1 {
      JoinedLinesSplit(texts[1..]);
      SplitFirst(texts[0], JoinLines(texts[1..]));
      assert [texts[0]] + texts[1..] == texts;
    } else {
      SplitFirst(texts[0], "");
    }
  }

  function JoinLines(texts: seq<string>): string {
    if texts == [] then "" else if |texts| == 1 then texts[0] else texts[0] + "\n" + JoinLines(texts[1..])
  }
}
