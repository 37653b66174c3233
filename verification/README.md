# Nova: verification models

Nova is an agent that carries out real side effects — edits, commits, clicks, messages — for one owner,
under approvals, restarts and unreliable AI planners. This project models the parts of it whose correctness
is hardest to see, and proves what they keep over every run.

The environment is hostile throughout: planner answers, observations, tool results, network failures,
cancelled calls and the moment the process dies are arbitrary. In the classes they are havocked local
variables (`var x: bool := *`); in the step functions they are inputs. Code that changes fields step by step
is a class whose methods are proved against a specification function or a monitor; the lemmas then speak
about whole runs.

| File | Models |
|---|---|
| `Ledger.dfy` | the idempotency ledger and the gate in front of every tool call |
| `Coding.dfy`, `CodingLog.dfy`, `Approval.dfy` | the coding workflow: pull, AI edit, build and test, review and fix rounds, commit, push, resume; what its log means; which commits were approved |
| `Operator.dfy`, `Grounding.dfy`, `Replay.dfy` | the resumable call sequence, which numbers an answer may contain, recipe replay |
| `Computer.dfy`, `Guards.dfy`, `Screen.dfy` | the computer-use loop with its repeat guard; the press and typing guards; what a look at a window proves |
| `Telegram.dfy` | the long-polling offset protocol against a server queue |
| `Notifier.dfy`, `Alerts.dfy` | progress throttle, error cooldown, live-message folding; memory alerts and down/back notices |
| `Redaction.dfy`, `Luhn.dfy` | secret masking; the card-number check |
| `Chunking.dfy`, `Phonetic.dfy`, `Resolver.dfy` | message chunkers, the sound key, app matching and the "which one?" question |
| `Memory.dfy` | project memory: unique names, roll-off, budgeted context |
| `Timeline.dfy` | edit plan, placed fades, quality-control windows, exported timeline, subtitles |
| `QualityControl.dfy` | what the fades do to the picture, what is measured as black, which plans the black check is fair to |
| `Text.dfy`, `Strings.dfy`, `Options.dfy` | the string operations and the option type underneath |

`dafny verify dfyconfig.toml` checks everything.

## How to read the two monitored workflows

`Coding.CodingTask` and `Operator.OperatorTask` append an event to a ghost log at every step that matters.
A monitor (`Scan`) folds over the log and says of each event whether it was allowed. The class invariant is
that the monitor agrees with the checkpoint and every event so far was allowed, at every point where the
process can stop. What an allowed log *means* is stated separately, on logs alone and with no reference to
the monitor's state, by the lemmas in the table (`CommitsAreChecked`, `ObjectionsAreMet`,
`AnswerReportsWhatReturned`, …).

The coding monitor allows each step only after the one the code takes before it, and the ledger's world holds
exactly the logged commits and pushes. The operator's monitor computes the steps in memory and in the checkpoint
from the log, so an answer that was not checked, or steps that were not handed on, would break the invariant.
`Computer.Agent` keeps its looks, turns, inputs and the judge's answers in ghost fields, each written only where
the world decides it.

## Where the code does less than its comments say

These are results, stated as such; the code is modelled as it is.

- **Grounding.** A rejected answer is recorded as a step whose text lists the rejected numbers, and every step
  text counts as seen. So the same answer, given again, is accepted: `Grounding.RejectedIsAcceptedNextTime`
  holds for every answer that is not empty, `Grounding.AcceptedThoughUngrounded` shows one. `Grounding.AcceptedExactly`
  gives the exact rule, `Grounding.AcceptedIsGrounded` the case without rejections, and `Operator.AnswerIsSourced`
  what is left of it over all attempts.
- **Live messages.** A direct send can overtake a flush that is due but has not run, and the message then ends
  on an older text (`Notifier.OvertakenFlush`). `Notifier.QuietMessageIsCurrentExactly` says when it does, for
  every run; with due flushes first it does not (`Notifier.LiveMessageIsCurrent`).
- **Press counting.** The guard looks only at decisions with an operation and a number equal to the control's
  id, and counts by the trimmed label while the history keeps the untrimmed one. `Guards.EscapesExactly` says
  which presses pass it when a label is used up, and `Guards.PressesWithoutEnd` that nothing bounds them. A
  press whose record is lost to a death is not counted after
  the restart; `Computer.Agent.Run` says that no other is missing.
- **Ledger.** A push whose own check fails after the push went through is recorded as FAILED and may run
  again: `Ledger.MissedEffectsRepeat`. `Ledger.AtMostOnce` says exactly when an effect happens
  more than once, `Ledger.RepeatsAtCallExactly` at which call. A commit reported as
  failed after it was made is not made again, because the tree is then clean, but neither is it recorded or
  pushed: `Coding.CodingTask.InvokeCommit`, `Coding.CodingTask.Deliver`.
- **Memory.** `put` cuts the key to 200 characters and `resolve` does not: `Memory.PutThenResolve`.
- **Quality control.** Each planned fade lies in an allowed window, but fades that run together may lie in none,
  and then footage without any black in it is reported as unplanned black:
  `QualityControl.PlannedDarknessCanBeRefused`. `QualityControl.NeverUnplannedExactly` gives the exact condition
  on the plan.
- **Redaction.** A secret that overlaps the mask can come back out of it: `Redaction.OverhangSurvives`,
  `Redaction.PartOfMaskSurvives`. `Redaction.HiddenExactly` says which secrets are hidden in every text.
- **Review.** A re-review that is unavailable or unusable after a fix counts as skipped, and HEAD is compared only
  before the fix rounds. So a commit can follow a fix that no second reviewer saw and that moved HEAD:
  `Approval.UnseenFixIsCommitted`. `Approval.CommitIsApprovedExactly` and `CodingLog.HeadAtCommitExactly` say exactly
  when the committed tree was approved, and when HEAD is sure to be where it was found.

## Model

| member | source | states |
|---|---|---|
| `Ledger.Gate.Invoke` | core/skills/runner.py:46-108 | one call through the gate: refused, parked, replayed, in doubt, or run between an entry opened and closed; a tool that cannot have its effect reports no success |
| `Ledger.AtMostOnce` | core/skills/ledger.py:1-16 | over any attempts and crashes a side effect happens at most once exactly unless a tool missed its own effect and a later call, with none in between that worked or was cut short, has it again; in all as often as it was missed, and once more at most |
| `Ledger.MayExactlyWhenOpen` | core/skills/ledger.py:13-16 | a call is let through exactly when no earlier call of its key worked or was cut short |
| `Ledger.AnswersExactly` | core/skills/runner.py:66-80 | a call that is not denied answers that it worked earlier exactly when the one earlier call that closed its key worked, and is in doubt exactly when the service died in that one; otherwise it waits or runs, and answers how that went |
| `Ledger.RepeatsAtCallExactly` | core/skills/runner.py:66-77 | a call repeats an effect exactly when its entry is FAILED although the effect is in the world, and the call has it |
| `Ledger.MissedEffectsRepeat` | skills/git/tools/push.py:30-37 | n missed effects are really repeated: n + 1 times in all |
| `Ledger.SuccessIsReal` | core/skills/runner.py:66-77 | whoever is told the call worked, now or earlier, is told the truth |
| `Ledger.ClosedStaysClosed` | core/skills/ledger.py:13-16 | once DONE or left PENDING, an entry and the number of its effects never change again |
| `Coding.CodingTask.Attempt` | core/orchestrator/coding.py:324-407 | one attempt from wherever the last one stopped, with the HEAD of the first; why it ended: tests failing on a changed tree after another try, an open objection, HEAD moved by the provider, nothing to commit, pushed |
| `Coding.CodingTask.Implement` | core/orchestrator/coding.py:343-385 | edit, check, one retry when a changed tree fails, HEAD comparison: goes on with a passing result only if the last check is newer than every edit and no objection is open, and with a failing changed tree only after the retry |
| `Coding.CodingTask.TryAgain` | core/orchestrator/coding.py:366-381 | one more provider call, and its check |
| `Coding.CodingTask.CrossReview` | core/orchestrator/coding.py:543-577 | at most the allowed fix rounds while the reviewer objects; ends without an objection only with a passing check and every objection met, with one only when the rounds are used up, a fix failed or broke the tests |
| `Coding.CodingTask.Check` | core/orchestrator/coding.py:423-430 | the verdict is what the commands came to: a failed build fails without tests, no test command is no failure |
| `Coding.CodingTask.Conclude` | core/orchestrator/coding.py:633-639 | failing tests and open objections stop the task; only a changed, passing tree is delivered |
| `Coding.CodingTask.Deliver` | core/orchestrator/coding.py:432-479 | the owner's uncommitted work is left alone; commit, save, push, in that order; a commit whose tool reported a failure is never recorded or pushed |
| `Coding.CodingTask.CommitWork` | core/orchestrator/coding.py:448-459 | going on means exactly one commit exists and is recorded; a reported failure means that none exists, or that one did and left nothing to commit; the process may die between the two records |
| `Coding.CodingTask.InvokeCommit` | skills/git/tools/commit.py:42-60 | one commit call through the ledger, logged before anything happens; success, now or replayed, means exactly one commit, entered as done; once a commit went unnoticed no later call commits or succeeds |
| `Coding.CodingTask.PushWork` | core/orchestrator/coding.py:475-479 | logged before anything happens; reported as pushed means pushed |
| `Coding.CodingTask.Lives` | core/orchestrator/coding.py:324-329 | any number of attempts, interrupted anywhere: every logged step was allowed, and the world holds exactly the logged commits and pushes |
| `CodingLog.CommitsAreChecked` | core/orchestrator/coding.py:362-407 | whenever a commit is invoked or happens, the last build/test run did not fail and no edit came after it |
| `CodingLog.ObjectionsAreMet` | core/orchestrator/coding.py:543-577 | and every blocking verdict before it was followed by a successful edit and then a run that did not fail |
| `CodingLog.NoEditOnceVerified` | core/orchestrator/coding.py:403-407 | once the phase "verified" is saved the provider is never called again |
| `CodingLog.NoPullOnceEdited` | core/orchestrator/coding.py:332-332 | nothing is pulled over the provider's edits |
| `CodingLog.OneCommitOnePush` | core/orchestrator/coding.py:448-479 | at most one commit is ever made, even when the tool reports a failure after committing, and at most one push is reported done |
| `CodingLog.DoneWasInvoked` | core/orchestrator/coding.py:448-476 | a commit or a push that happens was invoked right before, and a push reported as done had just happened |
| `CodingLog.PushFollowsCommit` | core/orchestrator/coding.py:456-475 | every push -- invoked, happening or reported -- follows a commit that happened and was then saved |
| `CodingLog.OwnersWorkIsLeftAlone` | core/orchestrator/coding.py:330-332 | if the owner's work was uncommitted at the start, nothing is ever pulled over it, committed or pushed |
| `CodingLog.CommitsOnOwnHead` | core/orchestrator/coding.py:382-385 | whenever a commit is invoked or happens, the provider's last edit outside the fix rounds had left HEAD where its attempt found it |
| `CodingLog.CommitsOnFirstHead` | core/orchestrator/coding.py:343-386 | over all attempts: whenever a commit is invoked or happens, the provider's last edit outside the fix rounds had left HEAD where the task's first attempt found it, if it found one |
| `CodingLog.HeadAtCommitExactly` | core/orchestrator/coding.py:382-385 | at a commit HEAD is sure to be where the attempt found it exactly when the provider's last call was not a fix |
| `Approval.CommitIsApprovedExactly` | core/orchestrator/coding.py:543-577 | the committed tree was approved exactly when its attempt was reviewed and the last opinion was an approval: not without a review, and not when the last reviewer was unavailable or unusable |
| `Approval.ReviewedOncePerTree` | core/orchestrator/coding.py:549-570 | between two opinions of one attempt the provider edited: no tree is reviewed twice |
| `Approval.UnseenFixIsCommitted` | core/orchestrator/coding.py:570-577 | ten steps, each allowed after the one before, end in a commit that nobody approved and whose fix moved HEAD |
| `Operator.OperatorTask.Loop` | core/orchestrator/operator.py:202-283 | the planning loop, from the steps it is handed: a resumed call first, at most its budget of new calls, given up after three answers turned down; what is reported was just accepted, with the effects of the recorded calls |
| `Operator.OperatorTask.Turn` | core/orchestrator/operator.py:211-275 | one turn: the planner's word, and the accepted answer, the step or the call that comes of it |
| `Operator.OperatorTask.Consider` | core/orchestrator/operator.py:217-256 | an answer is accepted exactly when it is not empty, all its numbers are seen, and it is not a first giving-up before any call worked; otherwise the added step says why |
| `Operator.OperatorTask.CallOnce` | core/orchestrator/operator.py:271-275 | the saved call is run and saved with its result, one step more: the checkpoint is right at every point in between |
| `Operator.OperatorTask.Invoke` | core/orchestrator/operator.py:285-304 | refusals are results, also one raised after the ledger entry was opened; anything else stops the attempt with the call still pending |
| `Operator.OperatorTask.Attempt` | core/orchestrator/operator.py:180-200 | from the saved steps; the stuck quick planner hands exactly its steps to the better one, once |
| `Operator.OperatorTask.Lives` | core/orchestrator/operator.py:178-200 | at the answer, each of its numbers is sourced as in `AnswerIsSourced`, and every call the ledger knows to be done is recorded, as a success if no result was lost |
| `Operator.AnswerIsSourced` | core/orchestrator/operator.py:340-347 | each number of a reported answer stands in the goal or the result of a recorded call, counts a list such a call returned, or belongs to an earlier answer of this task that was turned down for it |
| `Operator.AnswerWasAccepted` | core/orchestrator/operator.py:217-247 | what is reported is the planner's last word, and it passed the check on the steps of that moment |
| `Operator.AnsweredExactly` | core/orchestrator/operator.py:217-256 | unless the attempt ends there, an answer of the planner is reported exactly when it is accepted |
| `Operator.StepsTell` | core/orchestrator/operator.py:271-275 | the steps in memory and the saved ones tell of exactly the recorded calls, in order; while a call is pending both are the same |
| `Operator.RejectionsAreTraced` | core/orchestrator/operator.py:248-255 | every rejection among the steps is that of an answer planned before, for exactly the numbers it was turned down for |
| `Operator.AnswerReportsWhatReturned` | core/orchestrator/operator.py:243-247 | the answer's effects are one for each call that returned, worked and changed something, in that order, unless the process died between a return and its saving |
| `Operator.ReturnsAddUp` | core/orchestrator/operator.py:273-275 | returned results = recorded + unsaved + lost to such a death; without one, the same sequence |
| `Operator.ChosenOnceRecordedOnce` | core/orchestrator/operator.py:273-275 | each chosen call is recorded once, in the order of choosing, over any interruptions |
| `Operator.RunsAreTheChosenCall` | core/orchestrator/operator.py:210-212 | whatever runs is the call last chosen: an interrupted call is run again unchanged |
| `Operator.NoCallTwiceInARow` | core/orchestrator/operator.py:267-271 | within one loop the same call is not chosen twice in a row |
| `Grounding.AcceptedExactly` | core/orchestrator/operator.py:340-347 | an answer is accepted exactly when each number stands in the goal or a tool result, counts a list, or was objected to before |
| `Grounding.AcceptedIsGrounded` | core/orchestrator/operator.py:340-347 | without an earlier rejection, accepted exactly when grounded |
| `Grounding.RejectedIsAcceptedNextTime` | core/orchestrator/operator.py:248-255 | any rejected answer but an empty one is accepted when given again |
| `Grounding.AcceptedThoughUngrounded` | core/orchestrator/operator.py:248-255 | "42", out of nowhere, is objected to once and then accepted without being grounded |
| `Grounding.RejectionShowsItsNumbers` | core/orchestrator/operator.py:249-253 | the rejection text holds exactly the numbers it objects to |
| `Grounding.NumbersSplit` | core/orchestrator/operator.py:150-151 | the numbers of joined texts are the numbers of the parts when no number reaches across |
| `Grounding.TokensAreCanonical` | core/orchestrator/operator.py:54-54 | a number without its commas is again one number |
| `Grounding.CountsMeans` | core/orchestrator/operator.py:344-347 | a written number counts a list exactly when it is at most its length |
| `Replay.Replayer.Run` | core/orchestrator/executor.py:409-453 | a finished replay has completed each recipe call once, in order; a failed one forgets the recipe and the progress |
| `Replay.FollowsReportsAll` | core/orchestrator/executor.py:436-443 | a finished replay reports exactly one effect for each recipe call that had one, in order |
| `Computer.Agent.Run` | core/orchestrator/computer.py:673-842 | at most fifteen turns; a report rests on the last look, which found the window gone right after a successful step, or on the last turn's "done", its look, the first look, the history and the judge asked in that turn; all presses stay in the history, but for one when the service dies |
| `Computer.Agent.Turn` | core/orchestrator/computer.py:733-783 | one decision: a repeat, a stop, "done", "ask", "fail" and "wait" give no input; anything else goes through the guards, and its input is recorded |
| `Computer.SuccessMeans` | core/orchestrator/computer.py:741-773 | success on a fresh look: the judge said yes, no typed text is contradicted, and the expectations hold or there are none and every typed text is there |
| `Computer.Agent.Act` | core/orchestrator/computer.py:784-838 | typing guard, press guard, input, record: both bounds stay, and either one line says why nothing was done, or an input was given -- twice only if the desktop was busy -- and its result recorded and saved, or lost to a death |
| `Computer.Agent.Settle` | core/orchestrator/computer.py:817-838 | what each answer of the worker leads to: a stop, a line that nothing was done, or the record |
| `Computer.Agent.Decide` | core/orchestrator/computer.py:741-770 | "done" is reported with what the look, the first look, the history and the judge come to; the first disproof goes on, the second stops |
| `Computer.Agent.Finish` | core/orchestrator/computer.py:741-761 | "done": success needs the judge's yes on top of the expectations and the typed texts |
| `Computer.Agent.Restart` | core/orchestrator/computer.py:686-691 | the loop continues from the saved thirty lines, which keep the bounds, and tell of every press if they did when saved |
| `Computer.Agent.Record` | core/orchestrator/computer.py:832-838 | an input given is recorded and saved, or lost to a death in between; recorded, the history tells of every press again unless a line was cut |
| `Computer.Agent.RealPressBound` | core/orchestrator/computer.py:684-691 | so long as the history tells of all presses, its bound holds for those really delivered, over restarts |
| `Computer.Agent.Notice` | core/orchestrator/computer.py:728-729 | the counts of the repeat guard are those of the turns so far |
| `Guards.NamedIs` | core/orchestrator/computer.py:603-606 | how often the goal names a control: the greatest number of places side by side where its menu words stand with no letter, digit or underscore next to them, and none exactly when they stand nowhere |
| `Guards.MenuWordsAre` | core/orchestrator/computer.py:113-116 | whatever mnemonic, ellipsis and shortcut a menu label carries, its words are the label in lower case |
| `Guards.PressBound` | core/orchestrator/computer.py:589-615 | a label only pressed under the guard is pressed at most as often as the goal names it, and once if it does not |
| `Guards.GuardedPressIsWithinBound` | core/orchestrator/computer.py:602-615 | a guarded press stays within its bound, and an unnamed commit word is never pressed |
| `Guards.EscapesExactly` | core/orchestrator/computer.py:594-603 | which presses pass the guard when a label is used up, exactly |
| `Guards.PressesWithoutEnd` | core/orchestrator/computer.py:594-603 | for any label, goal and number: without an operation, the guard lets it be pressed that many times |
| `Guards.TypeBoundHolds` | core/orchestrator/computer.py:789-797 | a text nothing else is masked to is typed at most as often as the goal holds it |
| `Computer.ActedOnOnce` | core/orchestrator/computer.py:728-739 | the same decision on the same screen is acted on in one turn only, and the third time stops |
| `Computer.ActedTurnsDiffer` | core/orchestrator/computer.py:728-735 | no two turns that were acted on were the same decision, in every field, on the same screen |
| `Screen.CheckExpect` | core/orchestrator/computer.py:447-503 | of the first eight items: true when all that say anything hold and one does, false when one fails, nothing otherwise |
| `Screen.OnScreenMeans` | core/orchestrator/computer.py:333-337 | words are on screen exactly when the title or a control's name, value or tail holds them, in lower case |
| `Screen.UnchangedProvesNothing` | core/orchestrator/computer.py:449-453 | a screen with the same texts as before proves no list of texts |
| `Screen.HitsAreNamed` | core/orchestrator/computer.py:474-478 | an item finds exactly the controls whose name holds its label |
| `Screen.ControlProof` | core/orchestrator/computer.py:474-498 | an absent control fails its item whatever was expected; one control of the name in the state wanted is enough; a state none of them has says nothing |
| `Screen.TypedProofs` | core/orchestrator/computer.py:382-444 | false exactly when a counted text is missing, too often or misplaced; else nothing when one cannot be read; else true |
| `Screen.Collect` | core/orchestrator/computer.py:389-398 | the entries that count: every typing, and the last text set into each field |
| `Screen.Compare` | core/orchestrator/computer.py:407-443 | the two passes over the typed texts, counts first, then places |
| `Screen.Unquote` | core/orchestrator/computer.py:119-124 | quotes come off both ends until one end has none, unless nothing would be left |
| `Screen.UnquoteRecovers` | core/orchestrator/computer.py:119-124 | any number of quotes around the words come off with the blanks outside, and nothing else; if nothing is left, all of it stays |
| `Telegram.EachUpdateOnceInOrder` | channels/telegram/channel.py:72-76 | no update twice, none out of order, none skipped, none confirmed before it was handed over |
| `Telegram.Server.GetUpdates` | channels/telegram/api.py:98-103 | a request with an offset deletes what is below it, whether or not its answer arrives |
| `Telegram.Channel.Fetch` | channels/telegram/channel.py:64-95 | whatever a poll brings is what follows the last update handed over |
| `Telegram.Channel.Process` | channels/telegram/channel.py:72-76 | the offset moves before each update, so a failing handler loses and repeats nothing |
| `Telegram.Channel.Acknowledge` | channels/telegram/channel.py:123-130 | an answered acknowledgement leaves exactly the handed updates confirmed |
| `Telegram.Channel.Round` | channels/telegram/channel.py:100-120 | one round keeps the protocol, whatever fails; a bad token ends the channel, a requested pause is obeyed, any other failure is waited for |
| `Telegram.Channel.Run` | channels/telegram/channel.py:97-121 | so does every run; a clean stop leaves everything handed over confirmed, and only a bad token ends it as such |
| `Telegram.Lives` | channels/telegram/channel.py:123-130 | over restarts nothing confirmed was unseen, and each update is handed over once and in order if every life was acknowledged |
| `Telegram.BackoffGrowsToItsLimit` | channels/telegram/channel.py:115-120 | the wait doubles with each failure in a row up to a minute |
| `Notifier.ProgressKept` | core/notify/notifier.py:167-189 | emissions are an interval apart and the i-th is within the base allowance plus one per half hour |
| `Notifier.SaidWhenAllowed` | core/notify/notifier.py:174-189 | a message goes out with an update exactly when the last one is an interval ago and the allowance is not used up; it ends with that update |
| `Notifier.NothingIsLost` | core/notify/notifier.py:181-186 | while batching, the emitted texts and the pending ones are the submitted ones, in order |
| `Notifier.JoinedLinesSplit` | core/notify/notifier.py:186-189 | a batched message is its updates, a line each |
| `Notifier.FewMessages` | core/notify/notifier.py:179-180 | j - i emissions take at least j - i intervals |
| `Notifier.ErrorsSpacedOrWorse` | core/notify/notifier.py:191-200 | a repeat of an error is a cooldown later or strictly more severe |
| `Notifier.ErrorsAreTold` | core/notify/notifier.py:191-200 | no alert is swallowed unless one at least as severe went out within the cooldown before it |
| `Notifier.BurstsEscalate` | core/notify/notifier.py:196-198 | within a cooldown every further alert is worse than the one before |
| `Notifier.OneJobPerPending` | core/notify/notifier.py:141-157 | a text is pending exactly when one flush job is outstanding |
| `Notifier.QuietMessageIsCurrentExactly` | core/notify/notifier.py:134-157 | in every run: once nothing is pending, the message shows the last text exactly when that text did not go past a different one still waiting |
| `Notifier.LiveMessageIsCurrent` | core/notify/notifier.py:134-157 | with due flushes first: sends keep their distance and delivered texts are an in-order subsequence; when quiet the last one shown is the last one sent |
| `Notifier.OvertakenFlush` | core/notify/notifier.py:149-150 | without that premise the message can end on an older text |
| `Notifier.Notifier.ProgressUpdate` | core/notify/notifier.py:174-189 | one task's update, its message, and no other task's state |
| `Notifier.Notifier.Error` | core/notify/notifier.py:191-200 | one key's alert, sent or swallowed |
| `Notifier.Notifier.ShowLive` | core/notify/notifier.py:134-150 | sent at once, or pending with one flush job |
| `Notifier.Notifier.FlushLive` | core/notify/notifier.py:152-157 | the oldest flush job sends what is pending, if anything |
| `Notifier.Notifier.Finish` | core/notify/notifier.py:114-119 | a final message goes out at once and closes the task's progress |
| `Alerts.ResourcePressure.Update` | core/resources.py:66-100 | one reading: the level with hysteresis, and an alert on entering critical after the cooldown |
| `Alerts.AlertsAreApart` | core/resources.py:84-90 | any two critical alerts are half an hour apart |
| `Alerts.AlertsExactly` | core/resources.py:79-90 | a reading is alerted exactly when it makes the level critical and no alert was sounded in the half hour before |
| `Alerts.AlertsAreSeparate` | core/resources.py:35-39 | between two alerts the memory was clearly better at least once |
| `Alerts.HealthWatch.Round` | core/service.py:736-748 | one health check and its notice |
| `Alerts.OneNoticePerOutage` | core/service.py:731-748 | notices alternate down and back, with exactly one "down" per outage of two or more checks |
| `Redaction.Redactor.Add` | core/log/redaction.py:27-32 | every secret of six or more characters, once each, longest first |
| `Redaction.Redactor.Redact` | core/log/redaction.py:34-40 | known secrets in order, then the patterns; no known secret clear of the mask is left, and no text clear of it that some pattern touches wherever it stands |
| `Redaction.OverwriteIs` | core/log/redaction.py:38-39 | what lies between the matches stays, in order, with one mask for each match, and nothing else |
| `Redaction.OverwriteRemoves` | core/log/redaction.py:38-39 | a text clear of the mask that the matches touch wherever it stands is gone |
| `Redaction.PatternPassRemoves` | core/log/redaction.py:38-40 | and it stays gone through all later patterns |
| `Redaction.PlainSecretsNeverSurvive` | core/log/redaction.py:34-40 | a known secret without '*' that is no part of "REDACTED" is never in the output, the pattern pass included |
| `Redaction.HiddenExactly` | core/log/redaction.py:34-40 | masking the known secrets keeps a secret out of every text exactly when it does not begin with an end of the mask, end with a start of it, contain it or lie in it; for the mask of logs and the one of goals |
| `Redaction.HiddenAmongAll` | core/log/redaction.py:34-40 | the same among any other known secrets |
| `Redaction.MaskAllIdempotent` | core/log/redaction.py:35-37 | the known-secret pass is idempotent |
| `Redaction.LongestFirstMasksWhole` | core/log/redaction.py:32-37 | longest first masks a secret whole, whatever shorter ones it contains |
| `Redaction.ShorterFirstLeaks` | core/log/redaction.py:32-32 | the other order leaves the rest of the longer secret readable |
| `Redaction.OverhangSurvives` | core/log/redaction.py:8-8 | a secret that begins with an end of the mask comes back out of it |
| `Redaction.PartOfMaskSurvives` | core/log/redaction.py:8-8 | a secret that is part of the mask is never hidden |
| `Redaction.MaskGoal` | core/orchestrator/computer.py:173-181 | no goal secret free of the bullet is left readable, and no text clear of the mask that some pattern touches wherever it stands |
| `Luhn.Check` | core/orchestrator/computer.py:155-161 | the loop computes the Luhn formula |
| `Luhn.WeighIsDigitSum` | core/orchestrator/computer.py:157-160 | doubled, a digit counts the digits of twice itself |
| `Luhn.WrongDigitIsCaught` | core/orchestrator/computer.py:155-161 | every single wrong digit turns a valid string invalid |
| `Luhn.SwapIsCaughtExceptNineZero` | core/orchestrator/computer.py:155-161 | an adjacent swap goes unnoticed exactly when the digits are equal or 0 and 9 |
| `Luhn.OneCheckDigit` | core/orchestrator/computer.py:155-161 | every prefix has exactly one check digit |
| `Chunking.ChunkText` | channels/telegram/api.py:176-195 | chunks concatenate to the text, are non-empty and within the limit, neighbours together exceed it, and each ends where a line ends or inside a line longer than the limit |
| `Chunking.FewChunks` | channels/telegram/api.py:176-195 | so there are few: half as many, times the limit plus one, is at most the length |
| `Chunking.NoLineIsLost` | channels/telegram/api.py:182-182 | splitting into lines with their breaks loses nothing |
| `Chunking.Cut` | channels/whatsapp/api.py:38-42 | a part ends at the last line break in its second half, if there is one, and at the size otherwise |
| `Chunking.Chunk` | channels/whatsapp/api.py:35-44 | only line breaks at cuts are lost |
| `Chunking.Parts` | channels/whatsapp/api.py:38-44 | every part is within the size and every part but the last is longer than half of it |
| `Phonetic.KeyIsNormalForm` | core/apps/phonetic.py:99-116 | for every input the key uses only its own letters and has no two equal neighbours |
| `Phonetic.KeyIsIdempotent` | core/apps/phonetic.py:99-116 | the key of a key is itself |
| `Phonetic.KeysAreTheNormalForms` | core/apps/phonetic.py:99-116 | the keys are exactly the normal forms |
| `Phonetic.LettersSound` | core/apps/phonetic.py:101-103 | each letter by itself sounds as its class |
| `Phonetic.GroupsSound` | core/apps/phonetic.py:100-101 | and so do the groups of two letters written for one sound |
| `Resolver.Rank` | core/apps/resolver.py:262-290 | one entry per app with a candidate, the best over all pieces and aliases, in descending order |
| `Resolver.ScoreMeans` | core/apps/resolver.py:272-285 | the very words score 1 and nothing else does; short keys must be equal, longer ones alike enough |
| `Resolver.CandidatesAre` | core/apps/resolver.py:270-290 | the candidates are exactly the aliases that some piece sounds like, with that score |
| `Resolver.PiecesAre` | core/apps/resolver.py:264-267 | the pieces are exactly the runs of one to four words, or all the words |
| `Resolver.ExactNameLeads` | core/apps/resolver.py:270-290 | whoever uses the very words of a name or alias gets an app so named first |
| `Resolver.SureExactly` | core/apps/resolver.py:299-313 | "sure" exactly when the best candidate is installed, sounds sure, and all other apps are below 0.8 or all are a margin lower |
| `Resolver.MissingExactly` | core/apps/resolver.py:299-313 | "missing" exactly when the best sounds sure and unrivalled but is not installed, "ask" exactly when it sounds alike but not that; only installed apps are offered |
| `Resolver.UnknownExactly` | core/apps/resolver.py:299-305 | nothing is asked exactly when no candidate reaches the asking line |
| `Resolver.ClearMeansUnrivalled` | core/apps/resolver.py:307-308 | the one rival the code looks at decides about all candidates |
| `Resolver.OffersAreInstalled` | core/apps/resolver.py:292-297 | at most three installed apps are offered, never the missing one |
| `Resolver.Questions.NoteAttempt` | core/apps/resolver.py:391-401 | a question opens for five minutes, any other outcome closes it |
| `Resolver.Questions.NotePicked` | core/apps/resolver.py:403-406 | a choice made elsewhere closes the question |
| `Resolver.Questions.Reorder` | core/apps/resolver.py:408-411 | only the stored choices of that chat change |
| `Resolver.Questions.Answer` | core/apps/resolver.py:413-436 | returns only a choice stored for that chat, unexpired, and once |
| `Resolver.Questions.Correct` | core/apps/resolver.py:438-455 | a correction within a quarter of an hour, never to the same app |
| `Memory.ProjectMemory.Add` | core/memory/project_memory.py:67-99 | refused, or stored under its name with its masked content; the table stays sound |
| `Memory.StoredExactly` | core/memory/project_memory.py:67-81 | a tidy content is stored masked, unless its kind is unknown, a secret is in what the owner wants kept, or nothing is left |
| `Memory.EveryRowIsMasked` | core/memory/project_memory.py:67-99 | over any operations, every content in the table is the masked form of one short line; what the owner wanted kept held no secret |
| `Memory.KeylessExactly` | core/memory/project_memory.py:82-82 | entries put without a key have one name exactly when they start alike |
| `Memory.ProjectMemory.RemoveOldest` | core/memory/project_memory.py:101-109 | keeps exactly the newest of the group |
| `Memory.ProjectMemory.Drop` | core/memory/project_memory.py:111-121 | removes what carries exactly that key and says whether there was any |
| `Memory.ProjectMemory.ForgetEntry` | core/memory/project_memory.py:123-132 | removes that entry of that project and says whether there was one |
| `Memory.EveryRunIsSound` | core/memory/project_memory.py:67-134 | over any operations, names are unique and tasks and findings within 30 and 20 a project |
| `Memory.JustWrittenSurvives` | core/memory/project_memory.py:84-109 | the entry just written survives its own roll-off |
| `Memory.WriteRemovesOnlyTheOldest` | core/memory/project_memory.py:101-109 | roll-off removes only what is older than everything left, and never the owner's |
| `Memory.NewestAreFew` | core/memory/project_memory.py:105-109 | ranking by time, then id, keeps at most the limit |
| `Memory.PutThenResolve` | core/memory/project_memory.py:82-121 | resolving under the key of the put removes the entry exactly when the key has at most 200 characters |
| `Memory.Fit` | core/memory/project_memory.py:162-170 | the longest prefix of the lines whose join fits the budget |
| `Timeline.Consistent` | core/creative/plan.py:80-93 | the plan's own check accepts exactly the valid plans |
| `Timeline.BuildFades` | core/creative/render.py:54-98 | the fades the filter graph places: where each darkens, for how long, in or out |
| `Timeline.AllowedDark` | core/creative/qc.py:24-38 | the windows of intended darkness |
| `Timeline.DarknessIsAllowed` | core/creative/qc.py:24-38 | every placed fade and dip lies inside a window, clips of any length included |
| `Timeline.ExportIsAsLong` | core/creative/plan.py:132-150 | at any frame rate, the exported clip durations sum to the edit, to half a thousandth of a frame a clip |
| `Timeline.CuesAreInTheEdit` | core/creative/render.py:42-47 | every subtitle cue is a non-empty stretch of the edit |
| `QualityControl.CheckBlack` | core/creative/qc.py:59-66 | the measured black stretches of more than a second in no window, and whether the render passes |
| `QualityControl.LightIs` | core/creative/render.py:70-98 | the picture is dimmed exactly where some fade darkens it |
| `QualityControl.NeverUnplannedExactly` | core/creative/qc.py:59-66 | on all footage that is not black itself, and however it is measured, planned darkness is never reported as unplanned: exactly when no two fades of the plan are joined over more than a second outside every window |
| `QualityControl.FairIsJoinsAllowed` | core/creative/qc.py:24-38 | whether every dim stretch lies in a window is decided by finitely many comparisons of the fades |
| `QualityControl.StretchIsDim` | core/creative/render.py:70-75 | dips that meet over short clips leave no gap |
| `QualityControl.StretchIsAllowedExactly` | core/creative/qc.py:24-38 | such a stretch lies in a window, of a fade or a dip, exactly when a fade window holds it or one of its own cuts is within a transition and 0.3 s of both ends |
| `QualityControl.MeetingDipsAllowedExactly` | core/creative/qc.py:24-38 | over one short clip: exactly when a fade window holds it, or the clip and the shorter of the fades beside it fit into a transition and 0.3 s |
| `QualityControl.MeetingDipsAreRefused` | core/creative/qc.py:59-66 | dips that meet over more than a second outside every window are refused on some footage without black, by every measurement |
| `QualityControl.PlannedDarknessCanBeRefused` | core/creative/qc.py:59-66 | a valid plan for which that happens |

## Left out

- Processes, HTTP, databases and clocks: git, ffmpeg, the Bot API, SQL and asyncio appear as arbitrary results and as sequences, sets and maps of rows.
- AI providers and prompts: only the parsed shape of a reply is modelled.
- Regular expressions and Unicode tables: secret patterns are any functions that find ordered, disjoint stretches; blanks and lower case are ASCII outside the sound key, and every character from U+00AA on counts as part of a word; digits are ASCII and Bengali.
- Coding.CodingTask.Attempt: which project is meant, missing folders and Nova's own folders are decided before the model starts; the checkpoint keeps no provider names, errors or tree fingerprints, a permission gate is an arbitrary yes or no, and nobody else edits the tree while the task waits.
- Coding.CodingTask.CrossReview: whether a change is important enough for a review, and the review's text, are arbitrary.
- Ledger.Gate.Invoke: keys are values; that the hash of action, target and parameters is injective is assumed.
- Operator.OperatorTask.Loop: label stripping, the not-one-word rule and the rewording of an answer come before or after the modelled check; the longest list of a result is a number of the result.
- Grounding.AcceptedExactly: the texts of steps Nova writes itself are modelled by their beginnings; the advice that follows holds no digit.
- Replay.Replayer.Run: one recipe under its slot; finding, learning and verdicts on recipes are not part of this model.
- Computer.Agent.Run: the bounds are on the kept history; what a restart loses -- lines older than the last thirty, and the last input when the process died before recording it -- is not counted afterwards, as in the code. Batch edits and presses found by sight are not counted by the guard, as in the code. The quote and instruction-word check on typed text is an arbitrary refusal.
- Guards.TypeBoundHolds: texts that are masked to the same line share one count in the code, so nothing is claimed for them.
- Screen.TypedProofs: the wording of the proofs is left out.
- Telegram.Channel.Run: ends after a given number of rounds, any number; the handler's own work is not modelled.
- Notifier.NothingIsLost: a final message drops what is still pending for its task, as in the code.
- Redaction.Redactor.Redact: what the patterns find is a parameter, so after them `PlainSecretsNeverSurvive` speaks of secrets without '*' only, and `HiddenExactly` of the pass before them.
- Phonetic.KeyIsIdempotent: the transliteration of Bangla is a parameter that leaves lower-case Latin letters and digits alone.
- Alerts.ResourcePressure.Update: the relief actions and the wording of the alert are left out.
- Resolver.Rank: tokens, sound keys and similarities are inputs; learning aliases is not modelled.
- Memory.Fit: which entries become lines, and in what words, is not part of this model.
- Memory.EveryRunIsSound: assumes that the clock of the writes does not go back.
- Timeline.DarknessIsAllowed: sums are exact; only the roundings to milliseconds are modelled.
- QualityControl.CheckBlack: the rounding of measured times to hundredths of a second (core/creative/analyze.py:104), frames as separate pictures, and subtitles drawn over the dark are not part of this model; a frame has one brightness.
- The verdict on a finished operator or skill run, batch edits in the computer-use loop, target sizes and audio of a render: straight branching or short loops.
- The browser agent, configuration, command handlers, dashboard, scheduler and WhatsApp calls: easy or of the same shape as what is modelled.
