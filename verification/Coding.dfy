/** The coding workflow: pull, AI edit, build and test, review and fix rounds, commit, push -- resumed from
    a saved phase after any interruption.

    The working tree, the AI provider, the reviewer, the permission gates and the moment the service dies
    are arbitrary. What every run does is written down in `log`, and the monitor of `CodingLog` reads along:
    the state of the task always agrees with a log whose every step was allowed. */
module Coding {
  import opened CodingLog
  import opened Ledger
  import opened Options

  datatype Action = Commit(message: string) | Push

  /** The task's checkpoint. */
  datatype Saved =
    | Nothing
    | Working(head: string, ownerChanges: bool)
    | Verified(ownerChanges: bool, message: string)
    | Committed(ownerChanges: bool, message: string, asked: bool)

  datatype Outcome =
    | Going
    | Parked            // a gate waits for the owner, a pause, a cancel, a restart or a crash
    | ProviderDown
    | HeadMoved
    | TestsFail
    | ReviewBlocks
    | ReportOnly        // nothing to commit, or no git skill
    | LeftUncommitted   // the owner's own work was in the tree
    | OutcomeUnknown    // the ledger holds an action whose result was never recorded
    | CommitFailed
    | NoRemote
    | PushFailed
    | Pushed

  /** The world holds exactly the logged commits and pushes. The ledger knows of the commit exactly when it
      happened -- or does not know how it ended, or was told that it failed; then the tree is clean, and there
      is nothing left to commit. */
  predicate Booked(b: Books<Action>, message: string, dirty: bool, commits: nat, made: nat, pushes: nat) {
    && b.entries.Keys <= {Commit(message), Push}
    && Times(b, Commit(message)) == commits && Times(b, Push) == made && |b.world| == commits + made
    && (commits > 0 ==> Commit(message) in b.entries && (b.entries[Commit(message)] == Failed ==> !dirty))
    && (Commit(message) in b.entries && b.entries[Commit(message)].Done? ==> commits == 1)
    && (Push in b.entries && b.entries[Push].Done? <==> pushes > 0)
  }

  /** Nothing was ever asked of the ledger. */
  predicate Unused(b: Books<Action>) {
    b == Books(map[], [])
  }

  lemma {:induction false} UnusedIsBooked(b: Books<Action>, message: string, dirty: bool)
    requires Unused(b)
    ensures Booked(b, message, dirty, 0, 0, 0)
  {
  }

  lemma {:induction false} StillBooked(b: Books<Action>, message: string, dirty: bool, commits: nat, made: nat, pushes: nat)
    requires Booked(b, message, dirty, commits, made, pushes) && Commit(message) in b.entries && b.entries[Commit(message)].Done?
    ensures forall left :: Booked(b, message, left, commits, made, pushes)
  {
  }

  lemma {:induction false} WorldGrows(b: Books<Action>, key: Action, fate: Fate)
    ensures var done := if May(b, key) && Effective(fate) then 1 else 0;
            |Call(b, key, fate).0.world| == |b.world| + done
  {
  }

  lemma {:induction false} CommitIsBooked(b: Books<Action>, message: string, dirty: bool, commits: nat, made: nat, pushes: nat, fate: Fate)
    requires Booked(b, message, dirty, commits, made, pushes) && commits <= 1
    requires Effective(fate) ==> dirty
    ensures var (after, reply) := Call(b, Commit(message), fate);
            var done := if May(b, Commit(message)) && Effective(fate) then 1 else 0;
            && Booked(after, message, dirty && done == 0, commits + done, made, pushes) && commits + done <= 1
            && (reply in {Replayed, Ran(true)} ==> commits + done == 1)
            && (reply == Ran(false) && commits + done == 1 ==> !dirty || done == 1)
            && (commits == 1 && May(b, Commit(message)) ==> reply !in {Replayed, Ran(true)} && done == 0)
            && (May(b, Commit(message)) && reply in {Ran(false), Stopped} ==> May(after, Commit(message)))
  {
    CallCounts(b, Commit(message), fate, Commit(message));
    CallCounts(b, Commit(message), fate, Push);
    WorldGrows(b, Commit(message), fate);
    hide Times;
  }

  lemma {:induction false} PushIsBooked(b: Books<Action>, message: string, dirty: bool, commits: nat, made: nat, pushes: nat, fate: Fate)
    requires Booked(b, message, dirty, commits, made, pushes) && pushes <= 1
    ensures var (after, reply) := Call(b, Push, fate);
            var done := if May(b, Push) && Effective(fate) then 1 else 0;
            && Booked(after, message, dirty, commits, made + done, if reply == Ran(true) then pushes + 1 else pushes)
            && (reply == Ran(true) ==> pushes == 0 && done == 1) && (reply == Replayed ==> pushes > 0)
  {
    CallCounts(b, Push, fate, Commit(message));
    CallCounts(b, Push, fate, Push);
    WorldGrows(b, Push, fate);
    hide Times;
  }

  /** One run of the project's build or test command. */
  datatype Command = Built(ok: bool) | Tested(ok: bool)

  /** The verdict on these runs: a failed build is a failure without tests, and no test command is no failure. */
  predicate Judged(runs: seq<Command>, hasBuild: bool, hasTests: bool, passed: Verdict) {
    if hasBuild && runs != [] && runs[0] == Built(false) then |runs| == 1 && passed == Red
    else
      && (hasBuild ==> runs != [] && runs[0] == Built(true))
      && var tests := if hasBuild then runs[1..] else runs;
         if hasTests then |tests| == 1 && tests[0].Tested? && passed == (if tests[0].ok then Green else Red)
         else tests == [] && passed == NoCommand
  }

  class CodingTask {
    const gate: Gate<Action>
    const hasGit: bool
    const hasBuild: bool
    const hasTests: bool
    const maxFixRounds: nat
    ghost const ownerDirty: bool

    /** The working tree. */
    var dirty: bool
    var head: string

    var saved: Saved
    ghost var log: seq<Event>
    ghost var seen: Seen
    /** What the build and test commands came to. */
    ghost var runs: seq<Command>

    ghost predicate Valid()
      reads this, gate
    {
      && seen == Scan(log, ownerDirty) && seen.allowed && seen.commits <= 1 && seen.pushes <= 1
      && (ownerDirty ==> seen.commits == 0)
      && (saved.Nothing? ==> dirty == ownerDirty && !seen.edited && (seen.prev.None? || seen.prev.value.Pulled?))
      && (!saved.Nothing? ==> saved.ownerChanges == ownerDirty)
      && (saved.Nothing? <==> seen.home.None?)
      && (saved.Working? && seen.home.value != "" ==> saved.head == seen.home.value && seen.base == seen.home.value)
      && (saved.Nothing? || saved.Working? ==>
            !seen.verified && !seen.recorded && seen.commits == 0 && seen.made == 0 && seen.pushes == 0 && Unused(gate.State()))
      && (saved.Verified? ==>
            && seen.verified && Ready(seen) && seen.made == 0 && seen.pushes == 0
            && AtCommit(seen))
      && (saved.Committed? ==>
            && seen.verified && seen.recorded && seen.commits == 1 && !ownerDirty
            && AtPush(seen))
      && (saved.Verified? || saved.Committed? ==> InBooks())
    }

    ghost predicate InBooks()
      requires saved.Verified? || saved.Committed?
      reads this, gate
    {
      Booked(gate.State(), saved.message, dirty, seen.commits, seen.made, seen.pushes)
    }

    /** A task whose tree nobody but this task touches. */
    constructor (dirty: bool, head: string, hasGit: bool, hasBuild: bool, hasTests: bool, maxFixRounds: nat)
      ensures Valid() && fresh(gate) && log == [] && ownerDirty == dirty
    {
      gate := new Gate<Action>();
      this.dirty, this.head, this.ownerDirty := dirty, head, dirty;
      this.hasGit, this.hasBuild, this.hasTests, this.maxFixRounds := hasGit, hasBuild, hasTests, maxFixRounds;
      saved := Nothing;
      log, seen, runs := [], START, [];
    }

    ghost method Note(e: Event)
      requires seen == Scan(log, ownerDirty) && seen.allowed && Allowed(seen, e, ownerDirty)
      modifies this`log, this`seen
      ensures log == old(log) + [e] && seen == Scan(log, ownerDirty) && seen.allowed && seen == Then(old(seen), e)
    {
      ScanAppend(log, e, ownerDirty);
      log := log + [e];
      seen := Next(seen, e, ownerDirty);
    }

    ghost predicate InWork()
      reads this, gate
    {
      Valid() && saved.Working?
    }

    /** What each way to end means. */
    ghost predicate Ended(outcome: Outcome)
      reads this, gate
    {
      match outcome
      case ProviderDown => saved.Working? && seen.check == None
      case HeadMoved => saved.Working? && seen.strayed
      case TestsFail => saved.Working? && dirty && !Passing(seen.check)
      case ReviewBlocks => saved.Working? && seen.standing != Clear
      case ReportOnly => saved.Working? && (!hasGit || !dirty)
      case LeftUncommitted => ownerDirty
      case CommitFailed => saved.Verified? && (seen.commits == 0 || !dirty)
      case NoRemote => saved.Committed? && seen.commits == 1
      case PushFailed => saved.Committed? && seen.commits == 1
      case Pushed => saved.Committed? && seen.commits == 1 && seen.pushes == 1
      case _ => true
    }

    /** Since `from`, the provider was given another try. */
    static ghost predicate SecondTry(log: seq<Event>, from: nat) {
      exists i | from <= i < |log| :: log[i].Edited? && log[i].round != First
    }

    /** One provider call, failovers included; each failover saves the state again. */
    method Provide(round: Round, base: string) returns (alive: bool, ok: bool)
      requires InWork() && MayEdit(seen, round) && base == seen.base
      modifies this
      ensures InWork() && log == old(log) + [Edited(round, ok, head)]
      ensures seen == Then(old(seen), Edited(round, ok, head))
    {
      hide Scan;
      var dead: bool, works: bool, newHead: string, changed: bool, failover: bool := *, *, *, *, *;
      if failover {
        saved := Working(base, saved.ownerChanges);
      }
      dirty, head, ok := changed, newHead, works;
      Note(Edited(round, ok, head));
      alive := !dead;
    }

    /** Build, then tests; the verdict is what they came to. */
    method Check() returns (alive: bool, passed: Verdict)
      requires InWork() && seen.prev.Some? && seen.prev.value.Edited? && seen.prev.value.ok
      modifies this
      ensures InWork() && old(log) <= log && head == old(head) && saved == old(saved)
      ensures seen == if alive then Then(old(seen), Checked(passed)) else old(seen)
      ensures old(runs) <= runs && (alive ==> Judged(runs[|old(runs)|..], hasBuild, hasTests, passed))
      ensures alive && passed == NoCommand ==> !hasTests
    {
      hide Scan;
      hide Booked;
      hide Ready;
      MayCheck(seen, ownerDirty);
      hide Allowed;
      hide Then;
      alive, passed := BuildAndTest();
      if alive {
        Note(Checked(passed));
      }
    }

    method BuildAndTest() returns (alive: bool, passed: Verdict)
      requires InWork()
      modifies this`dirty, this`runs
      ensures InWork()
      ensures old(runs) <= runs && (alive ==> Judged(runs[|old(runs)|..], hasBuild, hasTests, passed))
      ensures alive && passed == NoCommand ==> !hasTests
    {
      hide Scan;
      hide Booked;
      hide Ready;
      var ok: bool;
      alive, passed := true, NoCommand;
      if hasBuild {
        alive, ok := Command(false);
        if !alive { return; }
        if !ok {
          return true, Red;
        }
      }
      if hasTests {
        alive, ok := Command(true);
        passed := if ok then Green else Red;
      }
    }

    /** One command runs, unless the service dies or a gate parks the task; it may leave the tree as it likes. */
    method Command(tests: bool) returns (alive: bool, ok: bool)
      modifies this`dirty, this`runs
      ensures runs == old(runs) + if alive then [if tests then Tested(ok) else Built(ok)] else []
    {
      alive, ok, dirty := *, *, *;
      if alive {
        runs := runs + [if tests then Tested(ok) else Built(ok)];
      }
    }

    /** Another provider reads the diff; it has no tools and cannot edit. */
    method Review() returns (alive: bool, opinion: Opinion)
      requires InWork() && JustPassed(seen) && (seen.review.Given? ==> !seen.review.current)
      modifies this`log, this`seen
      ensures InWork() && old(log) <= log
      ensures seen == if alive then Then(old(seen), Reviewed(opinion)) else old(seen)
    {
      hide Scan;
      alive, opinion := *, *;
      if alive {
        Note(Reviewed(opinion));
      }
    }

    /** Edit and check, one retry when the check fails, and no commit by the provider itself. */
    method Implement(base: string) returns (stop: Outcome, passed: Verdict)
      requires InWork() && seen.base == base && seen.prev == Some(Began(base)) && seen.review.NoReview? && seen.calls == 0
      modifies this
      ensures InWork() && old(log) <= log && seen.base == base && seen.review.NoReview?
      ensures stop in {Going, Parked, ProviderDown, HeadMoved}
      ensures stop == ProviderDown ==> seen.check == None
      ensures stop == HeadMoved ==> seen.strayed
      ensures stop == Going ==> !seen.strayed
      ensures stop == Going && passed != Red ==> Ready(seen) && seen.check == Some(passed) && JustPassed(seen)
      ensures stop == Going && passed == Red ==> !Passing(seen.check)
      ensures stop == Going && passed == Red && dirty ==> SecondTry(log, |old(log)|)
    {
      hide Scan;
      hide Booked;
      hide Judged;
      var alive, ok := Provide(First, base);
      if !alive { return Parked, Red; }
      if !ok {
        saved := Working(base, saved.ownerChanges);
        return ProviderDown, Red;
      }
      assert seen.standing != Open;
      alive, passed := Check();
      if !alive { return Parked, Red; }
      if passed == Red && dirty {
        alive, passed := TryAgain(base);
        if !alive { return Parked, Red; }
      }
      if base != "" && head != base {
        return HeadMoved, passed;
      }
      stop := Going;
    }

    /** The first edit fails its check: the provider is shown the output and tries once more. */
    method TryAgain(base: string) returns (alive: bool, passed: Verdict)
      requires InWork() && seen.base == base && MayEdit(seen, Retry) && seen.review.NoReview? && seen.standing != Open
      modifies this
      ensures InWork() && old(log) <= log && seen.base == base && seen.review.NoReview? && SecondTry(log, |old(log)|)
      ensures alive ==> (seen.strayed <==> base != "" && head != base) && seen.calls > 0 && seen.standing != Open
      ensures alive && passed != Red ==> JustPassed(seen) && seen.check == Some(passed) && seen.standing == Clear
      ensures alive && passed == Red ==> !Passing(seen.check)
    {
      hide Scan;
      hide Booked;
      hide Judged;
      hide Ready;
      ghost var n := |log|;
      var ok;
      alive, ok := Provide(Retry, base);
      assert log[n].Edited? && log[n].round == Retry;
      passed := Red;
      if alive && ok {
        alive, passed := Check();
      }
    }

    /** Fix rounds while the reviewer objects; a fix that fails or breaks the tests ends them. */
    method CrossReview(base: string, before: Verdict) returns (alive: bool, passed: Verdict, opinion: Opinion)
      requires InWork() && seen.base == base && Ready(seen) && JustPassed(seen) && seen.review.NoReview? && before != Red && seen.check == Some(before)
      modifies this
      ensures InWork() && old(log) <= log && !seen.strayed
      ensures alive && opinion == Blocking ==> seen.standing != Clear
      ensures alive && opinion != Blocking ==> passed != Red && Ready(seen) && JustReviewed(seen)
      ensures alive && passed == Red ==> !Passing(seen.check) && SecondTry(log, |old(log)|)
      ensures old(seen).fixes <= seen.fixes <= old(seen).fixes + maxFixRounds
      ensures alive && opinion == Blocking ==>
                seen.fixes == old(seen).fixes + maxFixRounds || seen.check == None || seen.check == Some(Red)
    {
      hide Scan;
      hide Booked;
      passed := before;
      alive, opinion := Review();
      if !alive { return; }
      var rounds := 0;
      while opinion == Blocking && rounds < maxFixRounds
        invariant InWork() && old(log) <= log && !seen.strayed && passed != Red && alive
        invariant seen.check == Some(passed) && seen.base == base
        invariant seen.review == Given(opinion, true) && seen.calls > 0 && seen.prev == Some(Reviewed(opinion))
        invariant seen.standing == if opinion == Blocking then Open else Clear
        invariant rounds <= maxFixRounds && seen.fixes == old(seen).fixes + rounds
      {
        ghost var n := |log|;
        rounds := rounds + 1;
        var ok;
        alive, ok := Provide(Fix, base);
        assert log[n].Edited? && log[n].round == Fix;
        if !alive { return; }
        if !ok { break; }
        alive, passed := Check();
        if !alive { return; }
        if passed == Red { break; }
        alive, opinion := Review();
        if !alive { return; }
      }
    }

    /** Commit, then push -- each through the ledger, each phase saved before the next. */
    method Deliver() returns (outcome: Outcome)
      requires Valid() && hasGit && (saved.Verified? || saved.Committed?)
      modifies this, gate
      ensures Valid() && old(log) <= log && (saved.Verified? || saved.Committed?)
      ensures old(saved).Committed? ==> saved.Committed?
      ensures outcome in {Parked, LeftUncommitted, OutcomeUnknown, CommitFailed, NoRemote, PushFailed, Pushed}
      ensures outcome == LeftUncommitted <==> ownerDirty
      ensures old(Overlooked()) ==> saved == old(saved) && outcome in {Parked, OutcomeUnknown, CommitFailed}
      ensures Ended(outcome)
      ensures old(seen).pushes <= seen.pushes
    {
      hide Scan;
      hide Booked;
      hide Passing;
      hide May;
      hide AtPush;
      hide AtCommit;
      if saved.ownerChanges {
        return LeftUncommitted;
      }
      if saved.Verified? {
        outcome := CommitWork();
        if outcome != Going { return; }
      }
      var remote: bool, dies: bool := *, *;
      if !remote {
        return NoRemote;
      }
      if dies { return Parked; }
      if !saved.asked {
        saved := saved.(asked := true);
      }
      outcome := PushWork();
    }

    method CommitWork() returns (outcome: Outcome)
      requires Valid() && saved.Verified? && !ownerDirty
      modifies this, gate
      ensures Valid() && old(log) <= log && !ownerDirty
      ensures outcome in {Going, Parked, OutcomeUnknown, CommitFailed}
      ensures if outcome == Going then saved.Committed? && seen.commits == 1 else saved == old(saved)
      ensures outcome == CommitFailed ==> seen.commits == 0 || !dirty
      ensures old(Overlooked()) ==> outcome != Going
      ensures old(seen).pushes == seen.pushes
    {
      hide Scan;
      hide Passing;
      hide May;
      hide Times;
      var reply := InvokeCommit();
      match reply {
        case Stopped => return Parked;
        case Died => return Parked;
        case InDoubt => return OutcomeUnknown;
        case Ran(ok) => if !ok { return CommitFailed; }
        case Replayed =>
      }
      var dies: bool := *;
      if dies { return Parked; }
      StillBooked(gate.State(), saved.message, dirty, seen.commits, seen.made, seen.pushes);
      hide Booked;
      dirty, head := *, *;
      saved := Committed(saved.ownerChanges, saved.message, false);
      Note(SavedCommitted);
      outcome := Going;
    }

    /** A commit that happened while its tool reported a failure. */
    ghost predicate Overlooked()
      reads this, gate
    {
      saved.Verified? && seen.commits == 1 && May(gate.State(), Commit(saved.message))
    }

    /** The tool commits what is uncommitted; on a clean tree it refuses. */
    method InvokeCommit() returns (reply: Reply)
      requires Valid() && saved.Verified? && !ownerDirty
      modifies this`dirty, this`log, this`seen, gate
      ensures Valid() && (log == old(log) + [CommitInvoked] || log == old(log) + [CommitInvoked, CommitDone])
      ensures seen.prev.Some? && Commits(seen.prev.value)
      ensures reply in {Replayed, Ran(true)} ==>
                seen.commits == 1 && Commit(saved.message) in gate.entries && gate.entries[Commit(saved.message)].Done?
      ensures reply == Ran(false) ==> seen.commits == 0 || !dirty
      ensures old(Overlooked()) ==> reply !in {Replayed, Ran(true)} && saved == old(saved)
      ensures old(Overlooked()) && (reply == Ran(false) || reply == Stopped) ==> Overlooked()
      ensures old(seen).pushes == seen.pushes
    {
      hide Scan;
      hide Times;
      Note(CommitInvoked);
      ghost var before := gate.State();
      var key := Commit(saved.message);
      var mayRun := key !in gate.entries || gate.entries[key] == Failed;
      var fate;
      reply, fate := gate.Invoke(key, dirty);
      CommitIsBooked(before, saved.message, dirty, seen.commits, seen.made, seen.pushes, fate);
      hide Passing;
      hide Booked;
      if mayRun && Effective(fate) {
        dirty := false;
        Note(CommitDone);
      }
    }

    method PushWork() returns (outcome: Outcome)
      requires Valid() && saved.Committed?
      modifies this`log, this`seen, gate
      ensures Valid() && old(log) + [PushInvoked] <= log
      ensures outcome in {Parked, OutcomeUnknown, PushFailed, Pushed}
      ensures outcome == Pushed ==> seen.pushes == 1
      ensures old(seen).pushes <= seen.pushes
    {
      hide Scan;
      hide Ready;
      hide Passing;
      hide AtCommit;
      hide Unused;
      hide JustPassed;
      hide Times;
      Note(PushInvoked);
      ghost var before := gate.State();
      var reply, fate := gate.Invoke(Push, true);
      PushIsBooked(before, saved.message, dirty, seen.commits, seen.made, seen.pushes, fate);
      ghost var happened := May(before, Push) && Effective(fate);
      hide Booked;
      if happened {
        Note(PushMade);
      }
      hide Call;
      match reply {
        case Stopped => return Parked;
        case Died => return Parked;
        case InDoubt => return OutcomeUnknown;
        case Ran(ok) =>
          if !ok { return PushFailed; }
          Note(PushDone);
        case Replayed =>
      }
      outcome := Pushed;
    }

    /** A pull moves HEAD, or fails. */
    method Pull()
      requires Valid() && saved.Nothing? && !ownerDirty
      modifies this`head, this`log, this`seen
      ensures Valid() && if log == old(log) then head == old(head) && seen == old(seen) else log == old(log) + [Pulled]
    {
      hide Scan;
      var pulled: bool, pulledHead: string := *, *;
      if pulled {
        head := pulledHead;
        Note(Pulled);
      }
    }

    /** One attempt at the task, from wherever the last one left it. */
    method Attempt() returns (outcome: Outcome)
      requires Valid() && (saved.Verified? || saved.Committed? ==> hasGit)
      modifies this, gate
      ensures Valid() && (saved.Verified? || saved.Committed? ==> hasGit)
      ensures old(log) <= log && outcome != Going
      ensures !old(saved).Nothing? ==> !saved.Nothing?
      ensures old(saved).Committed? ==> saved.Committed?
      ensures old(saved).Verified? || old(saved).Committed? ==> saved.Verified? || saved.Committed?
      ensures Ended(outcome)
      ensures outcome == TestsFail ==> SecondTry(log, |old(log)|)
      ensures old(seen).pushes <= seen.pushes
    {
      hide Scan;
      hide Booked;
      hide Passing;
      if saved.Verified? || saved.Committed? {
        outcome := Deliver();
        return;
      }
      var earlier := saved;
      var ownerChanges := if earlier.Working? then earlier.ownerChanges else dirty;
      if earlier.Nothing? && hasGit && !dirty {
        // a pull over uncommitted work is refused, and the refusal is swallowed
        Pull();
      }
      var permitted: bool := *;
      if !permitted { return Parked; }
      var base := if earlier.Working? && earlier.head != "" then earlier.head else head;
      if earlier.Nothing? {
        saved := Working(base, ownerChanges);
      }
      Note(Began(base));
      outcome := Work(base);
    }

    method Work(base: string) returns (outcome: Outcome)
      requires InWork() && seen.base == base && seen.prev == Some(Began(base)) && seen.review.NoReview? && seen.calls == 0
      modifies this, gate
      ensures Valid() && (saved.Verified? || saved.Committed? ==> hasGit)
      ensures old(log) <= log && outcome != Going && !saved.Nothing?
      ensures Ended(outcome)
      ensures outcome == TestsFail ==> SecondTry(log, |old(log)|)
      ensures old(seen).pushes <= seen.pushes
    {
      hide Scan;
      var passed, opinion := Red, Approve;
      outcome, passed := Implement(base);
      if outcome != Going { return; }
      if passed != Red && dirty {
        var important: bool := *;
        if important {
          var alive;
          alive, passed, opinion := CrossReview(base, passed);
          if !alive { return Parked; }
        }
      }
      outcome := Conclude(passed, opinion);
    }

    /** The report decides: failing tests and open objections stop the task, a change is delivered. */
    method Conclude(passed: Verdict, opinion: Opinion) returns (outcome: Outcome)
      requires InWork()
      requires opinion == Blocking ==> seen.standing != Clear
      requires if passed == Red then !Passing(seen.check)
               else opinion != Blocking && dirty ==> Ready(seen) && (JustPassed(seen) || JustReviewed(seen))
      modifies this, gate
      ensures Valid() && (saved.Verified? || saved.Committed? ==> hasGit)
      ensures old(log) <= log && outcome !in {Going, ProviderDown, HeadMoved} && !saved.Nothing?
      ensures Ended(outcome)
      ensures outcome == TestsFail ==> log == old(log) && passed == Red && old(dirty)
      ensures old(seen).pushes <= seen.pushes
    {
      hide Scan;
      if dirty && passed == Red {
        return TestsFail;
      }
      if opinion == Blocking {
        return ReviewBlocks;
      }
      if !hasGit || !dirty {
        return ReportOnly;
      }
      var message: string := *;
      UnusedIsBooked(gate.State(), message, dirty);
      hide Booked;
      saved := Verified(saved.ownerChanges, message);
      Note(SavedVerified);
      outcome := Deliver();
    }

    /** Any number of attempts: after approvals, retries and restarts. */
    method Lives(attempts: nat) returns (pushed: bool)
      requires Valid() && saved.Nothing?
      modifies this, gate
      ensures Valid() && Scan(log, ownerDirty).allowed
      ensures pushed ==> seen.pushes == 1 && seen.commits == 1 && !ownerDirty
    {
      hide Scan;
      hide Booked;
      pushed := false;
      for i := 0 to attempts
        invariant Valid() && (saved.Verified? || saved.Committed? ==> hasGit)
        invariant pushed ==> saved.Committed? && seen.pushes == 1
      {
        var outcome := Attempt();
        pushed := pushed || outcome == Pushed;
      }
    }
  }
}
