/** What a run of the coding workflow writes down, the monitor that reads along, and what a log means whose
    every step was allowed. */
module CodingLog {
  import opened Options

  datatype Verdict = Green | Red | NoCommand

  datatype Opinion = Approve | Blocking | Unavailable | Unusable

  datatype Round = First | Retry | Fix

  datatype Event =
    | Pulled
    | Began(base: string)                          // HEAD as this attempt takes it
    | Edited(round: Round, ok: bool, head: string) // the provider ran; HEAD afterwards
    | Checked(verdict: Verdict)                    // build and tests
    | Reviewed(opinion: Opinion)
    | SavedVerified
    | CommitInvoked
    | CommitDone                                   // it happened, reported or not
    | SavedCommitted
    | PushInvoked
    | PushMade                                     // it happened
    | PushDone                                     // and was reported

  // ------------------------------------------------------------ the monitor

  /** A blocking verdict is open until a successful edit, and met once that edit also passed the tests. */
  datatype Standing = Clear | Open | Answered

  /** The last opinion of this attempt, and whether no edit came after it. */
  datatype Review = NoReview | Given(opinion: Opinion, current: bool)

  /** `prev` is the event before, but for its HEAD, and `calls` counts the provider calls of this attempt. `home` is
      HEAD as the first attempt found it, None before it began. */
  datatype Seen = Seen(
    allowed: bool, prev: Option<Event>, home: Option<string>, edited: bool, calls: nat, review: Review, check: Option<Verdict>, standing: Standing,
    base: string, strayed: bool, fixes: nat, verified: bool, recorded: bool, commits: nat, made: nat, pushes: nat)

  predicate Passing(check: Option<Verdict>) {
    check.Some? && check.value != Red
  }

  predicate Ready(m: Seen) {
    && Passing(m.check) && m.standing == Clear && !m.strayed && m.calls > 0
    && (m.review.Given? ==> m.review.current && m.review.opinion != Blocking)
  }

  /** A commit is tried, or happens. */
  predicate Commits(e: Event) {
    e.CommitInvoked? || e.CommitDone?
  }

  /** A push is tried, happens, or is reported. */
  predicate Pushes(e: Event) {
    e.PushInvoked? || e.PushMade? || e.PushDone?
  }

  /** The last build/test run is the last thing that happened, and did not fail. */
  predicate JustPassed(m: Seen) {
    m.prev.Some? && m.prev.value.Checked? && m.prev.value.verdict != Red
  }

  predicate JustReviewed(m: Seen) {
    m.prev.Some? && m.prev.value.Reviewed?
  }

  /** Between saving "verified" and saving the commit. */
  predicate AtCommit(m: Seen) {
    m.prev.Some? && (m.prev.value.SavedVerified? || Commits(m.prev.value))
  }

  /** From saving the commit on. */
  predicate AtPush(m: Seen) {
    m.prev.Some? && (m.prev.value.SavedCommitted? || Pushes(m.prev.value))
  }

  predicate MayEdit(m: Seen, round: Round) {
    match round
    case First => m.prev.Some? && m.prev.value.Began?
    case Retry => m.prev.Some? && m.prev.value.Checked? && m.prev.value.verdict == Red && m.calls == 1
    case Fix => m.prev.Some? && m.prev.value.Reviewed? && m.prev.value.opinion == Blocking
  }

  predicate MayCommit(m: Seen, ownerDirty: bool) {
    m.verified && Ready(m) && !ownerDirty
  }

  predicate MayPush(m: Seen, ownerDirty: bool) {
    m.recorded && !ownerDirty
  }

  /** What may happen next: the steps of an attempt in their order, of which any may be the last. */
  predicate Allowed(m: Seen, e: Event, ownerDirty: bool) {
    match e
    case Pulled => !m.edited && !ownerDirty && (m.prev.None? || m.prev.value.Pulled?)
    case Began(base) => !m.verified && (m.home.Some? && m.home.value != "" ==> base == m.home.value)
    case Edited(round, _, _) => !m.verified && m.home.Some? && MayEdit(m, round)
    case Checked(_) => m.prev.Some? && m.prev.value.Edited? && m.prev.value.ok
    case Reviewed(_) => !m.verified && JustPassed(m) && (m.review.Given? ==> !m.review.current)
    case SavedVerified => Ready(m) && (JustPassed(m) || JustReviewed(m))
    case CommitInvoked => MayCommit(m, ownerDirty) && AtCommit(m)
    case CommitDone => MayCommit(m, ownerDirty) && m.prev.Some? && m.prev.value.CommitInvoked? && m.commits == 0
    case SavedCommitted => m.commits == 1 && m.prev.Some? && Commits(m.prev.value)
    case PushInvoked => MayPush(m, ownerDirty) && AtPush(m)
    case PushMade => MayPush(m, ownerDirty) && m.prev.Some? && m.prev.value.PushInvoked?
    case PushDone => MayPush(m, ownerDirty) && m.prev.Some? && m.prev.value.PushMade? && m.pushes == 0
  }

  function Next(m: Seen, e: Event, ownerDirty: bool): Seen {
    Then(m, e).(allowed := m.allowed && Allowed(m, e, ownerDirty))
  }

  lemma {:induction false} MayCheck(m: Seen, ownerDirty: bool)
    requires m.prev.Some? && m.prev.value.Edited? && m.prev.value.ok
    ensures forall v ::
              var n := Then(m, Checked(v));
              && Allowed(m, Checked(v), ownerDirty)
              && n.verified == m.verified && n.recorded == m.recorded && n.edited == m.edited && n.home == m.home && n.base == m.base
              && n.commits == m.commits && n.made == m.made && n.pushes == m.pushes
  {
  }

  function Then(m: Seen, e: Event): Seen {
    Taken(m, e).(prev := Some(Plain(e)))
  }

  /** The event, but for where it left HEAD. */
  function Plain(e: Event): Event {
    if e.Edited? then e.(head := "") else e
  }

  function Taken(m: Seen, e: Event): Seen {
    match e
    case Began(base) => m.(home := if m.home.None? then Some(base) else m.home, base := base, calls := 0, review := NoReview)
    case Edited(round, ok, head) =>
      m.(edited := true, calls := m.calls + 1, check := None,
         review := if m.review.Given? then m.review.(current := false) else NoReview,
         standing := if ok && m.standing == Open then Answered else m.standing,
         strayed := if round == Fix then m.strayed else m.base != "" && head != m.base,
         fixes := if round == Fix then m.fixes + 1 else m.fixes)
    case Checked(v) =>
      m.(check := Some(v), standing := if v != Red && m.standing == Answered then Clear else m.standing)
    case Reviewed(o) => m.(review := Given(o, true), standing := if o == Blocking then Open else m.standing)
    case SavedVerified => m.(verified := true)
    case CommitDone => m.(commits := m.commits + 1)
    case SavedCommitted => m.(recorded := true)
    case PushMade => m.(made := m.made + 1)
    case PushDone => m.(pushes := m.pushes + 1)
    case _ => m
  }

  const START := Seen(true, None, None, false, 0, NoReview, None, Clear, "", false, 0, false, false, 0, 0, 0)

  function Scan(log: seq<Event>, ownerDirty: bool): Seen {
    if log == [] then START else Next(Scan(log[..|log| - 1], ownerDirty), log[|log| - 1], ownerDirty)
  }

  lemma {:induction false} ScanAppend(log: seq<Event>, e: Event, ownerDirty: bool)
    ensures Scan(log + [e], ownerDirty) == Next(Scan(log, ownerDirty), e, ownerDirty)
  {
    assert (log + [e])[..|log|] == log;
  }

  // ------------------------------------------------- what an allowed log means

  lemma {:induction false} ScanLast(log: seq<Event>, ownerDirty: bool)
    requires log != []
    ensures Scan(log, ownerDirty) == Next(Scan(log[..|log| - 1], ownerDirty), log[|log| - 1], ownerDirty)
  {
  }

  lemma {:induction false} NextAllowed(m: Seen, e: Event, ownerDirty: bool)
    ensures Next(m, e, ownerDirty).allowed <==> m.allowed && Allowed(m, e, ownerDirty)
  {
    hide Allowed;
    hide Taken;
  }

  lemma ScanAt(log: seq<Event>, ownerDirty: bool, n: nat)
    requires n < |log|
    ensures Scan(log[..n + 1], ownerDirty) == Next(Scan(log[..n], ownerDirty), log[n], ownerDirty)
  {
    assert log[..n + 1][..n] == log[..n];
  }

  /** The last step of an allowed log. */
  lemma {:induction false} LastStepOf(log: seq<Event>, ownerDirty: bool)
    requires log != [] && Scan(log, ownerDirty).allowed
    ensures var m, e := Scan(log[..|log| - 1], ownerDirty), log[|log| - 1]; m.allowed && Allowed(m, e, ownerDirty)
  {
    ScanLast(log, ownerDirty);
    hide Scan;
    NextAllowed(Scan(log[..|log| - 1], ownerDirty), log[|log| - 1], ownerDirty);
    hide Allowed;
    hide Next;
  }

  lemma {:induction false} AllowedAt(log: seq<Event>, ownerDirty: bool, k: nat)
    requires Scan(log, ownerDirty).allowed && k < |log|
    ensures Scan(log[..k], ownerDirty).allowed && Allowed(Scan(log[..k], ownerDirty), log[k], ownerDirty)
  {
    hide Scan;
    hide Allowed;
    var n := |log| - 1;
    LastStepOf(log, ownerDirty);
    if k < n {
      AllowedAt(log[..n], ownerDirty, k);
      assert log[..n][..k] == log[..k];
    }
  }

  /** The last build/test run did not fail, and no edit came after it. */
  ghost predicate CheckedSince(log: seq<Event>, j: nat) {
    && j < |log| && log[j].Checked? && log[j].verdict != Red
    && forall i | j < i < |log| :: !log[i].Edited? && !log[i].Checked?
  }

  lemma {:induction false} CheckedSinceAppend(log: seq<Event>, j: nat)
    requires log != [] && CheckedSince(log[..|log| - 1], j)
    requires !log[|log| - 1].Edited? && !log[|log| - 1].Checked?
    ensures CheckedSince(log, j)
  {
    var before := log[..|log| - 1];
    assert forall i | 0 <= i < |before| :: before[i] == log[i];
  }

  lemma {:induction false} CheckStep(m: Seen, e: Event, ownerDirty: bool)
    requires Passing(Next(m, e, ownerDirty).check)
    ensures if e.Checked? then e.verdict != Red else !e.Edited? && Passing(m.check)
  {
  }

  lemma {:induction false} CheckMeans(log: seq<Event>, ownerDirty: bool) returns (j: nat)
    requires Passing(Scan(log, ownerDirty).check)
    ensures CheckedSince(log, j)
  {
    var n := |log| - 1;
    assert log != [];
    ScanLast(log, ownerDirty);
    hide Scan;
    CheckStep(Scan(log[..n], ownerDirty), log[n], ownerDirty);
    hide Next;
    if log[n].Checked? {
      j := n;
    } else {
      j := CheckMeans(log[..n], ownerDirty);
      CheckedSinceAppend(log, j);
    }
  }

  /** Whenever a commit is invoked or happens, the last build/test run is later than every edit and did not fail. */
  lemma CommitsAreChecked(log: seq<Event>, ownerDirty: bool, k: nat)
    requires Scan(log, ownerDirty).allowed && k < |log| && Commits(log[k])
    ensures exists j :: CheckedSince(log[..k], j)
  {
    AllowedAt(log, ownerDirty, k);
    var j := CheckMeans(log[..k], ownerDirty);
  }

  /** A successful edit after the objection at i, and a run after it that did not fail. */
  ghost predicate Met(log: seq<Event>, i: nat, e: nat, j: nat) {
    i < e < j < |log| && log[e].Edited? && log[e].ok && log[j].Checked? && log[j].verdict != Red
  }

  ghost predicate Answer(log: seq<Event>, i: nat, e: nat) {
    i < e < |log| && log[e].Edited? && log[e].ok
  }

  ghost predicate IsMet(log: seq<Event>, i: nat) {
    exists e, j :: Met(log, i, e, j)
  }

  ghost predicate IsAnswered(log: seq<Event>, i: nat) {
    exists e :: Answer(log, i, e)
  }

  lemma {:induction false} StandingMeans(log: seq<Event>, ownerDirty: bool, i: nat)
    requires i < |log| && log[i] == Reviewed(Blocking)
    ensures Scan(log, ownerDirty).standing == Clear ==> IsMet(log, i)
    ensures Scan(log, ownerDirty).standing == Answered ==> IsAnswered(log, i)
    decreases |log|
  {
    hide Next;
    hide IsMet;
    hide IsAnswered;
    ScanLast(log, ownerDirty);
    hide Scan;
    var n := |log| - 1;
    var m := Scan(log[..n], ownerDirty);
    if i < n {
      StandingMeans(log[..n], ownerDirty, i);
      StandingStep(m, log[n], ownerDirty);
      Stays(log, i);
    } else {
      BlockingOpens(m, ownerDirty);
    }
  }

  lemma {:induction false} BlockingOpens(m: Seen, ownerDirty: bool)
    ensures Next(m, Reviewed(Blocking), ownerDirty).standing == Open
  {
  }

  lemma {:induction false} StandingStep(m: Seen, e: Event, ownerDirty: bool)
    ensures var standing := Next(m, e, ownerDirty).standing;
            && (standing == Clear ==> m.standing == Clear || (m.standing == Answered && e.Checked? && e.verdict != Red))
            && (standing == Answered ==> m.standing == Answered || (e.Edited? && e.ok))
  {
  }

  lemma Stays(log: seq<Event>, i: nat)
    requires i + 1 < |log|
    ensures var last := log[|log| - 1];
            && (IsMet(log[..|log| - 1], i) ==> IsMet(log, i))
            && (IsAnswered(log[..|log| - 1], i) || (last.Edited? && last.ok) ==> IsAnswered(log, i))
            && (IsAnswered(log[..|log| - 1], i) && last.Checked? && last.verdict != Red ==> IsMet(log, i))
  {
    var n := |log| - 1;
    var last := log[n];
    if IsMet(log[..n], i) {
      var e, j :| Met(log[..n], i, e, j);
      assert Met(log, i, e, j);
    }
    if IsAnswered(log[..n], i) {
      var e :| Answer(log[..n], i, e);
      assert Answer(log, i, e);
      if last.Checked? && last.verdict != Red {
        assert Met(log, i, e, n);
      }
    }
    if last.Edited? && last.ok {
      assert Answer(log, i, n);
    }
  }

  /** Whenever a commit is invoked or happens, every blocking objection before it was met. */
  lemma ObjectionsAreMet(log: seq<Event>, ownerDirty: bool, i: nat, k: nat)
    requires Scan(log, ownerDirty).allowed && i < k < |log|
    requires log[i] == Reviewed(Blocking) && Commits(log[k])
    ensures IsMet(log[..k], i)
  {
    AllowedAt(log, ownerDirty, k);
    hide Scan;
    StandingMeans(log[..k], ownerDirty, i);
  }

  datatype Mark = EditMark | VerifiedMark | RecordedMark | CommitMark | PushMark

  predicate Bears(e: Event, mark: Mark) {
    match mark
    case EditMark => e.Edited?
    case VerifiedMark => e.SavedVerified?
    case RecordedMark => e.SavedCommitted?
    case CommitMark => e.CommitDone?
    case PushMark => e.PushDone?
  }

  predicate Noticed(m: Seen, mark: Mark) {
    match mark
    case EditMark => m.edited
    case VerifiedMark => m.verified
    case RecordedMark => m.recorded
    case CommitMark => m.commits > 0
    case PushMark => m.pushes > 0
  }

  ghost predicate Has(log: seq<Event>, mark: Mark) {
    exists i :: 0 <= i < |log| && Bears(log[i], mark)
  }

  lemma {:induction false} HasLast(log: seq<Event>, mark: Mark)
    requires log != []
    ensures Has(log, mark) <==> Has(log[..|log| - 1], mark) || Bears(log[|log| - 1], mark)
  {
    hide Bears;
    var before := log[..|log| - 1];
    if Has(before, mark) {
      var i :| 0 <= i < |before| && Bears(before[i], mark);
      assert Bears(log[i], mark);
    }
    if Has(log, mark) {
      var i :| 0 <= i < |log| && Bears(log[i], mark);
      if i < |before| {
        assert Bears(before[i], mark);
      }
    }
  }

  lemma {:induction false} NoticeStep(m: Seen, e: Event, ownerDirty: bool, mark: Mark)
    ensures Noticed(Next(m, e, ownerDirty), mark) <==> Noticed(m, mark) || Bears(e, mark)
  {
  }

  lemma {:induction false} MarksAreNoticed(log: seq<Event>, ownerDirty: bool, mark: Mark)
    ensures Noticed(Scan(log, ownerDirty), mark) <==> Has(log, mark)
  {
    if log != [] {
      var n := |log| - 1;
      MarksAreNoticed(log[..n], ownerDirty, mark);
      ScanLast(log, ownerDirty);
      hide Scan;
      HasLast(log, mark);
      hide Has;
      NoticeStep(Scan(log[..n], ownerDirty), log[n], ownerDirty, mark);
    }
  }

  lemma NoticedBefore(log: seq<Event>, ownerDirty: bool, i: nat, k: nat, mark: Mark)
    requires i < k <= |log| && Bears(log[i], mark)
    ensures Noticed(Scan(log[..k], ownerDirty), mark)
  {
    hide Scan;
    MarksAreNoticed(log[..k], ownerDirty, mark);
    assert Bears(log[..k][i], mark);
  }

  lemma WhereNoticed(log: seq<Event>, ownerDirty: bool, k: nat, mark: Mark) returns (i: nat)
    requires k <= |log| && Noticed(Scan(log[..k], ownerDirty), mark)
    ensures i < k && Bears(log[i], mark)
  {
    hide Scan;
    MarksAreNoticed(log[..k], ownerDirty, mark);
    hide Bears;
    i :| i < k && Bears(log[..k][i], mark);
    assert Bears(log[i], mark);
  }

  /** Once the phase "verified" is saved the provider is never called again. */
  lemma NoEditOnceVerified(log: seq<Event>, ownerDirty: bool, i: nat, k: nat)
    requires Scan(log, ownerDirty).allowed && i < k < |log| && log[i].SavedVerified?
    ensures !log[k].Edited?
  {
    hide Scan;
    AllowedAt(log, ownerDirty, k);
    NoticedBefore(log, ownerDirty, i, k, VerifiedMark);
  }

  /** Nothing is pulled over the provider's edits. */
  lemma NoPullOnceEdited(log: seq<Event>, ownerDirty: bool, i: nat, k: nat)
    requires Scan(log, ownerDirty).allowed && i < k < |log| && log[i].Edited?
    ensures !log[k].Pulled?
  {
    hide Scan;
    AllowedAt(log, ownerDirty, k);
    NoticedBefore(log, ownerDirty, i, k, EditMark);
  }

  /** At most one commit succeeds, and at most one push is reported as done. */
  lemma OneCommitOnePush(log: seq<Event>, ownerDirty: bool, i: nat, k: nat)
    requires Scan(log, ownerDirty).allowed && i < k < |log|
    ensures !(log[i].CommitDone? && log[k].CommitDone?)
    ensures !(log[i].PushDone? && log[k].PushDone?)
  {
    hide Scan;
    AllowedAt(log, ownerDirty, k);
    if log[i].CommitDone? {
      NoticedBefore(log, ownerDirty, i, k, CommitMark);
    }
    if log[i].PushDone? {
      NoticedBefore(log, ownerDirty, i, k, PushMark);
    }
  }

  /** What happens in the world was invoked right before, and so was what is reported as pushed. */
  lemma {:induction false} DoneWasInvoked(log: seq<Event>, ownerDirty: bool, k: nat)
    requires Scan(log, ownerDirty).allowed && k < |log|
    ensures log[k].CommitDone? ==> k > 0 && log[k - 1].CommitInvoked?
    ensures log[k].PushMade? ==> k > 0 && log[k - 1].PushInvoked?
    ensures log[k].PushDone? ==> k > 1 && log[k - 1].PushMade? && log[k - 2].PushInvoked?
  {
    hide Scan;
    if log[k].CommitDone? || log[k].PushMade? || log[k].PushDone? {
      JustBefore(log, ownerDirty, k);
    }
    if log[k].PushDone? {
      JustBefore(log, ownerDirty, k - 1);
    }
  }

  lemma {:induction false} JustBefore(log: seq<Event>, ownerDirty: bool, k: nat)
    requires Scan(log, ownerDirty).allowed && k < |log| && (log[k].CommitDone? || log[k].PushMade? || log[k].PushDone?)
    ensures k > 0 && log[k - 1] == if log[k].CommitDone? then CommitInvoked else if log[k].PushMade? then PushInvoked else PushMade
  {
    hide Scan;
    hide Ready;
    AllowedAt(log, ownerDirty, k);
    PrevIs(log, ownerDirty, k);
  }

  lemma {:induction false} PrevIs(log: seq<Event>, ownerDirty: bool, k: nat)
    requires k <= |log|
    ensures Scan(log[..k], ownerDirty).prev == if k == 0 then None else Some(Plain(log[k - 1]))
  {
    if k > 0 {
      ScanAt(log, ownerDirty, k - 1);
      hide Scan;
      hide Allowed;
      hide Taken;
    } else {
      assert log[..k] == [];
    }
  }

  /** A push follows a commit that succeeded and was then recorded. */
  lemma PushFollowsCommit(log: seq<Event>, ownerDirty: bool, k: nat) returns (i: nat, j: nat)
    requires Scan(log, ownerDirty).allowed && k < |log| && Pushes(log[k])
    ensures i < j < k && log[i].CommitDone? && log[j].SavedCommitted?
  {
    hide Scan;
    AllowedAt(log, ownerDirty, k);
    j := WhereNoticed(log, ownerDirty, k, RecordedMark);
    AllowedAt(log, ownerDirty, j);
    i := WhereNoticed(log, ownerDirty, j, CommitMark);
  }

  /** The owner's own uncommitted work: nothing is pulled over it, committed or pushed. */
  lemma {:induction false} OwnersWorkIsLeftAlone(log: seq<Event>, k: nat)
    requires Scan(log, true).allowed && k < |log|
    ensures !log[k].Pulled? && !Commits(log[k]) && !Pushes(log[k])
  {
    AllowedAt(log, true, k);
  }

  /** From b on, up to n, no further attempt began. */
  ghost predicate LastBegan(log: seq<Event>, b: nat, n: nat) {
    && b < n <= |log| && log[b].Began?
    && forall i | b < i < n :: !log[i].Began?
  }

  /** From e on, the provider was called for fixes only. */
  ghost predicate LastOwnEdit(log: seq<Event>, e: nat, n: nat) {
    && e < n <= |log| && log[e].Edited? && log[e].round != Fix
    && forall i | e < i < n :: !(log[i].Edited? && log[i].round != Fix)
  }

  lemma {:induction false} HeadStep(m: Seen, e: Event, ownerDirty: bool)
    ensures var n := Next(m, e, ownerDirty);
            && n.base == (if e.Began? then e.base else m.base)
            && n.strayed == (if e.Edited? && e.round != Fix then m.base != "" && e.head != m.base else m.strayed)
  {
  }

  lemma {:induction false} BaseIs(log: seq<Event>, ownerDirty: bool, b: nat, n: nat)
    requires LastBegan(log, b, n)
    ensures Scan(log[..n], ownerDirty).base == log[b].base
    decreases n
  {
    hide Scan;
    hide Next;
    ScanAt(log, ownerDirty, n - 1);
    HeadStep(Scan(log[..n - 1], ownerDirty), log[n - 1], ownerDirty);
    if b < n - 1 {
      BaseIs(log, ownerDirty, b, n - 1);
    }
  }

  lemma {:induction false} StrayedIs(log: seq<Event>, ownerDirty: bool, b: nat, e: nat, n: nat)
    requires LastBegan(log, b, e) && LastOwnEdit(log, e, n)
    ensures Scan(log[..n], ownerDirty).strayed <==> log[b].base != "" && log[e].head != log[b].base
    decreases n
  {
    hide Scan;
    hide Next;
    ScanAt(log, ownerDirty, n - 1);
    HeadStep(Scan(log[..n - 1], ownerDirty), log[n - 1], ownerDirty);
    if e < n - 1 {
      StrayedIs(log, ownerDirty, b, e, n - 1);
    } else {
      BaseIs(log, ownerDirty, b, e);
    }
  }

  /** Whenever a commit is invoked or happens, the provider's last edit outside the fix rounds had left HEAD where
      its attempt found it: the provider did not commit on its own. */
  lemma CommitsOnOwnHead(log: seq<Event>, ownerDirty: bool, b: nat, e: nat, k: nat)
    requires Scan(log, ownerDirty).allowed && k < |log| && Commits(log[k])
    requires LastBegan(log, b, e) && LastOwnEdit(log, e, k)
    ensures log[b].base == "" || log[e].head == log[b].base
  {
    hide Scan;
    AllowedAt(log, ownerDirty, k);
    StrayedIs(log, ownerDirty, b, e, k);
  }

  lemma {:induction false} ScanNothing(log: seq<Event>, ownerDirty: bool)
    ensures Scan(log[..0], ownerDirty) == START
  {
  }

  lemma {:induction false} HomeStep(m: Seen, e: Event, ownerDirty: bool)
    ensures Next(m, e, ownerDirty).home == if e.Began? && m.home.None? then Some(e.base) else m.home
  {
  }

  lemma {:induction false} FindBegan(log: seq<Event>, ownerDirty: bool, n: nat) returns (b: nat)
    requires n <= |log| && Scan(log[..n], ownerDirty).home.Some?
    ensures LastBegan(log, b, n)
  {
    hide Scan;
    hide Next;
    ScanNothing(log, ownerDirty);
    ScanAt(log, ownerDirty, n - 1);
    HomeStep(Scan(log[..n - 1], ownerDirty), log[n - 1], ownerDirty);
    if log[n - 1].Began? {
      b := n - 1;
    } else {
      b := FindBegan(log, ownerDirty, n - 1);
    }
  }

  /** The task begins at f. */
  ghost predicate FirstBegan(log: seq<Event>, f: nat) {
    f < |log| && log[f].Began? && forall i | 0 <= i < f :: !log[i].Began?
  }

  lemma {:induction false} HomeIs(log: seq<Event>, ownerDirty: bool, f: nat, n: nat)
    requires FirstBegan(log, f) && n <= |log|
    ensures Scan(log[..n], ownerDirty).home == if n <= f then None else Some(log[f].base)
  {
    hide Scan;
    hide Next;
    ScanNothing(log, ownerDirty);
    if n > 0 {
      HomeIs(log, ownerDirty, f, n - 1);
      ScanAt(log, ownerDirty, n - 1);
      HomeStep(Scan(log[..n - 1], ownerDirty), log[n - 1], ownerDirty);
    }
  }

  /** Over all attempts: whenever a commit is invoked or happens, the provider's last edit outside the fix rounds
      had left HEAD where the task's first attempt found it, however often it was interrupted. */
  lemma {:induction false} CommitsOnFirstHead(log: seq<Event>, ownerDirty: bool, f: nat, e: nat, k: nat)
    requires Scan(log, ownerDirty).allowed && k < |log| && Commits(log[k])
    requires FirstBegan(log, f) && log[f].base != "" && LastOwnEdit(log, e, k)
    ensures log[e].head == log[f].base
  {
    hide Scan;
    AllowedAt(log, ownerDirty, e);
    var b := FindBegan(log, ownerDirty, e);
    CommitsOnOwnHead(log, ownerDirty, b, e, k);
    AllowedAt(log, ownerDirty, b);
    HomeIs(log, ownerDirty, f, b);
  }

  /** The logs differ at most in where the call at e left HEAD. */
  ghost predicate ButForHead(log: seq<Event>, other: seq<Event>, e: nat) {
    && e < |log| == |other| && log[e].Edited? && other[e].Edited? && log[e].round == other[e].round && log[e].ok == other[e].ok
    && forall i | 0 <= i < |log| && i != e :: other[i] == log[i]
  }

  /** Nothing looks at where a fix leaves HEAD. */
  lemma {:induction false} FixHeadIsUnseen(log: seq<Event>, other: seq<Event>, ownerDirty: bool, e: nat)
    requires ButForHead(log, other, e) && log[e].round == Fix
    ensures Scan(other, ownerDirty) == Scan(log, ownerDirty)
  {
    hide Scan;
    FixHeadIsUnseenUpTo(log, other, ownerDirty, e, |log|);
    assert log[..|log|] == log && other[..|log|] == other;
  }

  lemma {:induction false} FixHeadIsUnseenUpTo(log: seq<Event>, other: seq<Event>, ownerDirty: bool, e: nat, n: nat)
    requires ButForHead(log, other, e) && n <= |log| && log[e].round == Fix
    ensures Scan(other[..n], ownerDirty) == Scan(log[..n], ownerDirty)
  {
    hide Next;
    hide Scan;
    if n > 0 {
      FixHeadIsUnseenUpTo(log, other, ownerDirty, e, n - 1);
      ScanAt(log, ownerDirty, n - 1);
      ScanAt(other, ownerDirty, n - 1);
      if n - 1 == e {
        FixHeadIsUnused(Scan(log[..e], ownerDirty), log[e], ownerDirty, other[e].head);
      }
    } else {
      assert other[..0] == log[..0];
    }
  }

  lemma {:induction false} FixHeadIsUnused(m: Seen, e: Event, ownerDirty: bool, h: string)
    requires e.Edited? && e.round == Fix
    ensures Next(m, e.(head := h), ownerDirty) == Next(m, e, ownerDirty)
  {
    hide MayEdit;
  }

  ghost predicate MovedAt(log: seq<Event>, other: seq<Event>, e: nat, base: string) {
    ButForHead(log, other, e) && other[e].head != base
  }

  /** At a commit, HEAD is sure to be where the attempt found it exactly when the provider's last call was not
      a fix: after any other call a HEAD elsewhere is never allowed, after a fix it is. */
  lemma {:induction false} HeadAtCommitExactly(log: seq<Event>, ownerDirty: bool, b: nat, e: nat, k: nat)
    requires Scan(log, ownerDirty).allowed && e < k < |log| && Commits(log[k])
    requires LastBegan(log, b, e) && log[b].base != ""
    requires log[e].Edited? && forall i | e < i < k :: !log[i].Edited?
    ensures (exists other :: MovedAt(log, other, e, log[b].base) && Scan(other, ownerDirty).allowed) <==> log[e].round == Fix
  {
    hide Scan;
    if log[e].round == Fix {
      var other := log[e := log[e].(head := "")];
      FixHeadIsUnseen(log, other, ownerDirty, e);
      assert MovedAt(log, other, e, log[b].base);
    } else {
      forall other | MovedAt(log, other, e, log[b].base) ensures !Scan(other, ownerDirty).allowed {
        if Scan(other, ownerDirty).allowed {
          CommitsOnOwnHead(other, ownerDirty, b, e, k);
          assert false;
        }
      }
    }
  }
}
