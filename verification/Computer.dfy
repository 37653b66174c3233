/** The computer-use loop: observe the window, let a planner choose one action, check it, act, look again.

    The planner, the judge, the window and the worker are arbitrary. The loop itself must not press a control
    more often than the goal names it, not act twice on the same decision and screen, and not report
    success without proof on a fresh look. */
module Computer {
  import opened Guards
  import opened Options
  import opened Screen
  import opened Strings
  import opened Text

  const MAX_STEPS := 15
  const OWNER_WAITS := 5
  const STALE_RETRIES := 2
  const KEPT := 30

  // ------------------------------------------------------------------ repeats

  /** What the window shows, for noticing that nothing happens. */
  function ScreenKey(elements: seq<Element>): seq<(string, string, string, Option<bool>)> {
    if elements == [] then []
    else [(elements[0].kind, elements[0].name, elements[0].value, elements[0].checked)] + ScreenKey(elements[1..])
  }

  datatype Situation = Situation(screen: seq<(string, string, string, Option<bool>)>, decision: Decision)

  datatype Move = Go | Remind | Stop

  function MoveOf(seen: nat, done: bool): Move {
    if done || seen == 1 then Go else if seen == 2 then Remind else Stop
  }

  function Seen(turns: seq<Situation>, s: Situation): nat {
    if turns == [] then 0 else Seen(turns[..|turns| - 1], s) + if turns[|turns| - 1] == s then 1 else 0
  }

  /** What the repeat guard says in the i-th turn. */
  function MoveAt(turns: seq<Situation>, i: nat): Move
    requires i < |turns|
  {
    MoveOf(Seen(turns[..i + 1], turns[i]), turns[i].decision.action == "done")
  }

  /** The same decision on the same screen is acted on in one turn only; the third time the task stops. */
  lemma {:induction false} ActedOnOnce(turns: seq<Situation>, i: nat, j: nat)
    requires i < j < |turns| && turns[i] == turns[j] && turns[i].decision.action != "done"
    ensures MoveAt(turns, j) != Go
    ensures MoveAt(turns, i) != Go ==> MoveAt(turns, j) == Stop
  {
    SeenGrows(turns, turns[j], i + 1, j);
    assert turns[..j + 1][..j] == turns[..j] && turns[..i + 1][..i] == turns[..i];
    hide Seen;
    SeenLast(turns, i);
    SeenLast(turns, j);
  }

  /** A decision that acts, rather than ends, asks or waits. */
  predicate Acts(d: Decision) {
    d.action != "done" && d.action != "ask" && d.action != "fail" && d.action != "wait"
  }

  /** The turns acted on so far: the guard let each of them go. */
  ghost predicate ActedOn(turns: seq<Situation>, acted: seq<nat>) {
    && (forall k | 0 <= k < |acted| ::
          acted[k] < |turns| && MoveAt(turns, acted[k]) == Go && Acts(turns[acted[k]].decision))
    && (forall i, k | 0 <= i < k < |acted| :: acted[i] < acted[k])
  }

  /** So no two of them were the same decision on the same screen. */
  lemma {:induction false} ActedTurnsDiffer(turns: seq<Situation>, acted: seq<nat>, i: nat, k: nat)
    requires ActedOn(turns, acted) && i < k < |acted|
    ensures turns[acted[i]] != turns[acted[k]]
  {
    hide MoveAt;
    if turns[acted[i]] == turns[acted[k]] {
      ActedOnOnce(turns, acted[i], acted[k]);
      assert false;
    }
  }

  ghost predicate AllDiffer(turns: seq<Situation>, acted: seq<nat>)
    requires ActedOn(turns, acted)
  {
    forall i, k | 0 <= i < k < |acted| :: turns[acted[i]] != turns[acted[k]]
  }

  lemma ActedAllDiffer(turns: seq<Situation>, acted: seq<nat>)
    requires ActedOn(turns, acted)
    ensures AllDiffer(turns, acted)
  {
    forall i, k | 0 <= i < k < |acted| ensures turns[acted[i]] != turns[acted[k]] {
      ActedTurnsDiffer(turns, acted, i, k);
    }
  }

  lemma SeenLast(turns: seq<Situation>, i: nat)
    requires i < |turns|
    ensures Seen(turns[..i + 1], turns[i]) == Seen(turns[..i], turns[i]) + 1
  {
    assert turns[..i + 1][..i] == turns[..i];
  }

  lemma {:induction false} SeenGrows(turns: seq<Situation>, s: Situation, i: nat, j: nat)
    requires i <= j <= |turns|
    ensures Seen(turns[..i], s) <= Seen(turns[..j], s)
    decreases j - i
  {
    if i < j {
      SeenGrows(turns, s, i, j - 1);
      assert turns[..j][..j - 1] == turns[..j - 1];
    }
  }

  // --------------------------------------------------------------------- done

  datatype Judgement = Yes | No | Unsure

  /** What the proofs come to: the planner's expectations, the typed texts, the independent judge. */
  function Verified(expected: Option<bool>, typed: Option<bool>, judge: Judgement): Option<bool> {
    var v := if typed == Some(false) then Some(false)
             else if typed == Some(true) && expected == None then Some(true)
             else expected;
    if v == Some(false) then v
    else match judge case Yes => v case No => Some(false) case Unsure => None
  }

  /** Success is reported exactly when the judge agrees, no typed text is contradicted, and the
      expectations hold -- or there are none and every typed text is there. */
  lemma {:induction false} VerifiedExactly(expected: Option<bool>, typed: Option<bool>, judge: Judgement)
    ensures Verified(expected, typed, judge) == Some(true)
       <==> judge == Yes && typed != Some(false) && (expected == Some(true) || (expected == None && typed == Some(true)))
  {
  }

  /** The window vanished right after a successful press of a control the goal names. */
  predicate ClosedByNamed(history: seq<Entry>, goal: string) {
    && history != [] && history[|history| - 1].ok
    && var name := Trim(history[|history| - 1].control);
       name != "" && Contains(Lower(goal), Lower(name))
  }

  /** The report is what the expectations, the typed texts and the judge come to on a fresh look. */
  ghost predicate FoundOnScreen(
    items: seq<Expect>, history: seq<Entry>, now: Observation, first: Option<Observation>, goal: string, judge: Judgement,
    verified: Option<bool>)
  {
    exists expected, typed ::
      && Expected(items, now, first, expected) && Proved(history, now, first, goal, typed)
      && verified == Verified(expected, typed, judge)
  }

  /** What success on a fresh look means. */
  lemma SuccessMeans(
    items: seq<Expect>, history: seq<Entry>, now: Observation, first: Option<Observation>, goal: string, judge: Judgement)
    requires FoundOnScreen(items, history, now, first, goal, judge, Some(true))
    ensures judge == Yes && !Proved(history, now, first, goal, Some(false))
    ensures Expected(items, now, first, Some(true))
         || (Expected(items, now, first, None) && Proved(history, now, first, goal, Some(true)))
  {
    hide Expected;
    var expected, typed :|
      && Expected(items, now, first, expected) && Proved(history, now, first, goal, typed)
      && Some(true) == Verified(expected, typed, judge);
    VerifiedExactly(expected, typed, judge);
  }

  // ----------------------------------------------------------------- the loop

  datatype Outcome = Blocked | Interrupted | AskOwner | Report(verified: Option<bool>)

  /** What the worker answers to one input. A busy desktop may have taken part of a batch. */
  datatype Answer = Cancelled | OwnerActive | Stale | Busy(ok: bool) | Result(ok: bool)

  /** One input given in a turn, the answer, and the line that says what was done. */
  datatype Input = Input(turn: nat, answer: Answer, line: Entry)

  /** One look at the window -- None when there is none, `gone` when it has closed -- and whether nothing had been
      done by then. */
  datatype Sight = Sight(window: Option<Observation>, gone: bool, untouched: bool)

  /** The judge's answer in a turn. */
  datatype Ruling = Ruling(turn: nat, judge: Judgement)

  /** The screen before Nova did anything. */
  function FirstOf(looks: seq<Sight>): Option<Observation> {
    if looks == [] then None
    else
      var before := FirstOf(looks[..|looks| - 1]);
      if before.Some? then before
      else if looks[|looks| - 1].untouched then looks[|looks| - 1].window else None
  }

  lemma {:induction false} FirstOfAppend(looks: seq<Sight>, s: Sight)
    ensures FirstOf(looks + [s])
         == if FirstOf(looks).Some? then FirstOf(looks) else if s.untouched then s.window else None
  {
    assert (looks + [s])[..|looks|] == looks;
  }

  /** Every turn's screen is that of its own look. */
  ghost predicate Sighted(looks: seq<Sight>, turns: seq<Situation>) {
    && |turns| <= |looks|
    && forall k | 0 <= k < |turns| ::
         looks[k].window.Some? && turns[k].screen == ScreenKey(looks[k].window.value.elements)
  }

  /** The turns in which an input was given, each once. */
  function Acted(inputs: seq<Input>): seq<nat> {
    if inputs == [] then []
    else
      var before, t := Acted(inputs[..|inputs| - 1]), inputs[|inputs| - 1].turn;
      if before != [] && before[|before| - 1] == t then before else before + [t]
  }

  lemma {:induction false} ActedAppend(inputs: seq<Input>, x: Input)
    ensures var before := Acted(inputs);
            Acted(inputs + [x]) == if inputs != [] && inputs[|inputs| - 1].turn == x.turn then before else before + [x.turn]
    ensures inputs == [] ==> Acted(inputs) == []
    ensures inputs != [] ==> Acted(inputs) != [] && Acted(inputs)[|Acted(inputs)| - 1] == inputs[|inputs| - 1].turn
  {
    assert (inputs + [x])[..|inputs|] == inputs;
  }

  /** A turn gives one input, and another only when the desktop was busy. */
  predicate OneEach(inputs: seq<Input>) {
    forall i | 0 <= i < |inputs| - 1 && inputs[i].turn == inputs[i + 1].turn :: inputs[i].answer.Busy?
  }

  /** Turn t may give an input: none was given in it so far, or the desktop was busy. */
  predicate MayFollow(inputs: seq<Input>, t: nat) {
    inputs == []
    || inputs[|inputs| - 1].turn < t
    || (inputs[|inputs| - 1].turn == t && inputs[|inputs| - 1].answer.Busy?)
  }

  function Lines(inputs: seq<Input>): seq<Entry> {
    if inputs == [] then [] else Lines(inputs[..|inputs| - 1]) + [inputs[|inputs| - 1].line]
  }

  lemma {:induction false} LinesAppend(inputs: seq<Input>, x: Input)
    ensures Lines(inputs + [x]) == Lines(inputs) + [x.line]
  {
    assert (inputs + [x])[..|inputs|] == inputs;
  }

  function Digits(n: nat): string {
    (if n < 10 then "" else Digits(n / 10)) + [('0' as int + n % 10) as char]
  }

  function Number(n: int): string {
    if n < 0 then "-" + Digits(-n) else Digits(n)
  }

  lemma PressIsRecordable(history: seq<Entry>, goal: string, d: Decision, obs: Observation, needed: bool, h: Entry)
    requires PressesWithin(history, goal) && Guard(history, d, obs, goal, needed)
    requires h.control == LabelOf(d, obs) && h.guarded == Guarded(d, obs)
    ensures PressesWithin(history + [h], goal)
  {
    if h.guarded {
      GuardedPressIsWithinBound(history, d, obs, goal, needed, h);
    }
    hide Guard;
    hide Guarded;
    hide LabelOf;
    PressesWithinAppend(history, goal, h);
  }

  /** A successful typing came from the operation "type", with the text the typing guard let through. */
  predicate ByType(d: Decision, h: Entry) {
    h.ok && StartsWith(h.did, "type") ==>
      && d.action == "act" && !d.element.Unusable? && OpOf(d) in OPS
      && h.did == OpOf(d) + " [" + Number(d.element.n) + "]"
  }

  lemma {:induction false} SameByType(d: Decision, a: Entry, b: Entry)
    requires ByType(d, a) && a.did == b.did && a.ok == b.ok
    ensures ByType(d, b)
  {
  }

  lemma TypingIsRecordable(history: seq<Entry>, goal: string, mask: string -> string, d: Decision, h: Entry, text: string)
    requires TypingWithin(history, goal, mask) && ByType(d, h)
    requires d.op == Some("type") ==>
               h.typed == mask(text) && (Trim(text) == "" || TypedTimes(history, Squash(mask(text))) < TypeBound(goal, text))
    ensures TypingWithin(history + [h], goal, mask)
  {
    hide TypingWithin;
    hide TypedTimes;
    hide Squash;
    hide TypeBound;
    hide Trim;
    hide Number;
    if h.ok && StartsWith(h.did, "type") {
      var op := OpOf(d);
      var rest := Number(d.element.n) + "]";
      assert h.did == op + (" [" + rest);
      OnlyTypeTypes(op, rest);
      hide StartsWith;
      ClickIsNotType();
      assert TypedOnce(history, h, goal, mask);
    }
    TypingWithinAppend(history, goal, mask, h);
  }

  lemma NotType(did: string)
    requires did != "" && did[0] != 't'
    ensures !StartsWith(did, "type")
  {
    assert |did| >= 4 ==> did[..4][0] == did[0];
  }

  lemma {:induction false} ClickIsNotType()
    ensures "click" != "type"
  {
    assert "click"[0] != "type"[0];
  }

  /** A line about something that was not done. */
  function Remarked(did: string): Entry {
    Entry(did, false, "", "", Anywhere, false)
  }

  /** The last lines, as they are saved. */
  function Tail(history: seq<Entry>): seq<Entry> {
    if |history| > KEPT then history[|history| - KEPT..] else history
  }

  /** The two lists hold the same presses. */
  ghost predicate SamePresses(a: seq<Entry>, b: seq<Entry>) {
    forall name :: Times(a, name) == Times(b, name)
  }

  lemma {:induction false} SamePressesAppend(a: seq<Entry>, b: seq<Entry>, h: Entry)
    requires SamePresses(a, b)
    ensures SamePresses(a + [h], b + [h])
    ensures NoPress(h) ==> SamePresses(a + [h], b) && SamePresses(a, b + [h])
  {
    forall name
      ensures Times(a + [h], name) == Times(b + [h], name)
      ensures NoPress(h) ==> Times(a + [h], name) == Times(b, name) && Times(a, name) == Times(b + [h], name)
    {
      TimesAppend(a, h, name);
      TimesAppend(b, h, name);
    }
  }

  predicate NoPress(h: Entry) {
    h.ok ==> !StartsWith(h.did, "click") && !StartsWith(h.did, "select")
  }

  lemma {:induction false} BatchIsNoPress()
    ensures !StartsWith("batch", "click") && !StartsWith("batch", "select") && !StartsWith("batch", "type")
  {
    assert "batch"[..5][0] == 'b';
    assert "batch"[..4][0] == 'b';
  }

  class Agent {
    const goal: string
    const mask: string -> string
    var history: seq<Entry>
    /** What the checkpoint holds of it. */
    var saved: seq<Entry>
    var stale: nat
    var waits: nat
    /** This attempt: its looks at the window, its turns, its inputs and the judge's answers. */
    ghost var looks: seq<Sight>
    ghost var turns: seq<Situation>
    ghost var inputs: seq<Input>
    ghost var rulings: seq<Ruling>
    /** What the inputs of earlier attempts did. */
    ghost var past: seq<Entry>

    ghost predicate Valid()
      reads this
    {
      && PressesWithin(history, goal) && TypingWithin(history, goal, mask)
      && PressesWithin(saved, goal) && TypingWithin(saved, goal, mask)
      && waits <= OWNER_WAITS && InTurn()
    }

    /** The inputs belong to turns the repeat guard let go, no two of them the same. */
    ghost predicate InTurn()
      reads this`looks, this`turns, this`inputs
    {
      ActedOn(turns, Acted(inputs)) && AllDiffer(turns, Acted(inputs)) && OneEach(inputs) && Sighted(looks, turns)
    }

    /** What all inputs did, over all attempts. */
    ghost function Delivered(): seq<Entry>
      reads this`past, this`inputs
    {
      past + Lines(inputs)
    }

    /** The history and its saved part tell of every press delivered, but for those of `missing`. */
    ghost predicate Holds(missing: seq<Entry>)
      reads this`history, this`saved, this`past, this`inputs
    {
      SamePresses(history + missing, Delivered()) && SamePresses(saved + missing, Delivered())
    }

    constructor (goal: string, mask: string -> string)
      ensures Valid() && Holds([]) && history == [] && turns == [] && looks == [] && Delivered() == [] && this.goal == goal
    {
      this.goal, this.mask := goal, mask;
      NothingGiven();
      hide ActedOn;
      hide AllDiffer;
      hide OneEach;
      hide Sighted;
      hide Acted;
      hide Lines;
      history, saved, past := [], [], [];
      looks, turns, inputs, rulings := [], [], [], [];
      stale, waits := 0, 0;
    }

    /** After a restart the loop continues from the saved history. */
    method Restart()
      requires Valid()
      modifies this
      ensures Valid() && looks == [] && turns == [] && inputs == [] && rulings == [] && Delivered() == old(Delivered())
      ensures history == if old(saved) == [] then [] else old(saved) + [Remarked("(Nova restarted here)")]
      ensures SamePresses(old(saved), old(Delivered())) ==> Holds([])
    {
      hide PressesWithin;
      hide TypingWithin;
      hide SamePresses;
      var counted: int := *;                         // the waits still in the lines that were kept
      past := past + Lines(inputs);
      looks, turns, inputs, rulings := [], [], [], [];
      NothingGiven();
      hide ActedOn;
      hide AllDiffer;
      hide OneEach;
      hide Sighted;
      hide Acted;
      hide Lines;
      stale, waits := 0, if 0 <= counted <= waits then counted else waits;
      history := saved;
      assert past + [] == past && history + [] == history;
      if history != [] {
        Remark("(Nova restarted here)");
      }
    }

    /** So long as the history holds all presses, its bound is one on what was really pressed. */
    lemma RealPressBound(name: string)
      requires Valid() && Holds([])
      requires forall i | 0 <= i < |history| && Press(history[i], name) :: history[i].guarded
      ensures Times(Delivered(), name) <= Bound(name, goal)
    {
      PressBound(history, goal, name);
      assert history + [] == history;
    }

    /** A line about something that was not done. */
    method Remark(did: string)
      requires Valid()
      modifies this`history
      ensures Valid() && history == old(history) + [Remarked(did)]
      ensures old(Holds([])) ==> Holds([])
    {
      hide InTurn;
      var h := Remarked(did);
      PressesWithinAppend(history, goal, h);
      TypingWithinAppend(history, goal, mask, h);
      hide PressesWithin;
      hide TypingWithin;
      assert history + [] == history && history + [h] + [] == history + [h];
      if Holds([]) {
        SamePressesAppend(history, Delivered(), h);
      }
      hide SamePresses;
      history := history + [h];
    }

    // ------------------------------------------------ what the world decides

    /** One look at the window. */
    method Look() returns (look: Option<Observation>, gone: bool)
      requires Valid()
      modifies this`looks
      ensures Valid() && looks == old(looks) + [Sight(look, gone, history == [])]
    {
      look, gone := *, *;
      looks := looks + [Sight(look, gone, history == [])];
    }

    /** The independent judge is asked about this turn's screen. */
    method Judge() returns (judge: Judgement)
      requires turns != []
      modifies this`rulings
      ensures rulings == old(rulings) + [Ruling(|turns| - 1, judge)]
    {
      judge := *;
      rulings := rulings + [Ruling(|turns| - 1, judge)];
    }

    /** An input may be given in this turn, whose decision is d: the repeat guard let it go, and none was given
        yet -- or the desktop was busy. */
    ghost predicate MayGive(d: Decision, obs: Observation)
      reads this
    {
      && turns != [] && turns[|turns| - 1].decision == d && Acts(d) && MoveAt(turns, |turns| - 1) == Go
      && |looks| == |turns| && looks[|looks| - 1].window == Some(obs)
      && MayFollow(inputs, |turns| - 1)
    }

    /** One input, as the decision says; only an existing control with a known operation can succeed. */
    method Do(d: Decision, obs: Observation, text: string, place: Place) returns (answer: Answer, h: Entry)
      requires Valid() && MayGive(d, obs)
      modifies this`inputs
      ensures Valid() && inputs == old(inputs) + [Input(|turns| - 1, answer, h)]
      ensures Delivered() == old(Delivered()) + [h]
      ensures h == Entry(h.did, h.ok, LabelOf(d, obs), if Writes(d) then mask(text) else "", place, Guarded(d, obs))
      ensures h.ok == ((answer.Result? || answer.Busy?) && answer.ok) && ByType(d, h)
      ensures answer.Busy? && h.ok ==> h.did == "batch"
      ensures h.ok && d.action == "act" ==> !d.element.Unusable? && Lookup(obs.elements, d.element.n).Some?
    {
      hide PressesWithin;
      hide TypingWithin;
      hide LabelOf;
      hide Guarded;
      hide ByType;
      hide Lookup;
      hide ActedOn;
      hide AllDiffer;
      hide OneEach;
      hide Sighted;
      hide Acted;
      hide Acts;
      hide MoveAt;
      hide MayFollow;
      var did;
      did, answer := Worker(d, obs);
      h := Entry(did, (answer.Result? || answer.Busy?) && answer.ok, LabelOf(d, obs), if Writes(d) then mask(text) else "",
                 place, Guarded(d, obs));
      ghost var x := Input(|turns| - 1, answer, h);
      GivenInTurn(turns, inputs, x);
      LinesAppend(inputs, x);
      hide Lines;
      assert past + (Lines(inputs) + [h]) == past + Lines(inputs) + [h];
      SameByType(d, Entry(did, h.ok, "", "", Anywhere, false), h);
      inputs := inputs + [x];
    }

    /** What the worker is asked to do, and what it answers. */
    method Worker(d: Decision, obs: Observation) returns (did: string, answer: Answer)
      ensures ByType(d, Entry(did, (answer.Result? || answer.Busy?) && answer.ok, "", "", Anywhere, false))
      ensures (answer.Result? || answer.Busy?) && answer.ok && d.action == "act" ==>
                !d.element.Unusable? && Lookup(obs.elements, d.element.n).Some?
      ensures answer.Busy? && answer.ok ==> did == "batch"
    {
      answer := *;
      if answer.Busy? && d.action != "batch" {
        answer := Busy(false);
      }
      if d.action == "act" {
        if d.element.Unusable? {
          return "act ?", Result(false);
        }
        var op := OpOf(d);
        if op !in OPS {
          return "act " + Number(d.element.n), Result(false);
        }
        did := op + " [" + Number(d.element.n) + "]";
        if Lookup(obs.elements, d.element.n).None? {
          return did, Result(false);
        }
        return;
      }
      if d.action == "batch" {
        NotType("batch");
        return "batch", answer;
      }
      if d.action == "keys" {
        NotType("keys");
        return "keys", answer;
      }
      if d.action == "locate" {
        did := *;
        if StartsWith(did, "type") {
          did := "locate";
          NotType("locate");
        }
        return;
      }
      return "?", Result(false);
    }

    // ----------------------------------------------------------------- acting

    /** What came of the inputs of one turn: at most two, the first busy. A result is recorded and saved, unless
        the service died before; anything else is not saved. */
    ghost predicate Noted(inputsBefore: seq<Input>, before: seq<Entry>, savedBefore: seq<Entry>, stop: Option<Outcome>)
      reads this
    {
      && inputsBefore <= inputs && 1 <= |inputs| - |inputsBefore| <= 2
      && (forall i | |inputsBefore| <= i < |inputs| :: inputs[i].turn == |turns| - 1)
      && (|inputs| - |inputsBefore| == 2 ==> inputs[|inputsBefore|].answer.Busy?)
      && var x := inputs[|inputs| - 1];
         if x.answer.Result? || x.answer.Busy? then
           if stop.None? then history == before + [x.line] && saved == Tail(history)
           else stop == Some(Interrupted) && history == before && saved == savedBefore
         else saved == savedBefore && stop != Some(Interrupted) && (stop.None? ==> history == before + [Remarked(x.line.did)])
    }

    /** The history holds every press, but for the last one when the service died before recording it. */
    ghost predicate Kept(stop: Option<Outcome>)
      reads this
    {
      Holds([]) || (stop == Some(Interrupted) && inputs != [] && Holds([inputs[|inputs| - 1].line]))
    }

    /** One turn's action: typing guard, press guard, input, record. */
    method Act(d: Decision, obs: Observation) returns (stop: Option<Outcome>)
      requires Valid() && stale <= STALE_RETRIES && MayGive(d, obs) && NoneYet()
      modifies this`history, this`saved, this`stale, this`waits, this`inputs
      ensures Valid() && old(history) <= history && |history| <= |old(history)| + 1
      ensures stop.Some? ==> stop.value.Blocked? || stop.value.Interrupted?
      ensures stop.None? ==> stale <= STALE_RETRIES
      ensures if inputs == old(inputs) then stop.None? && saved == old(saved) && |history| == |old(history)| + 1 && !history[|history| - 1].ok
              else Noted(old(inputs), old(history), old(saved), stop)
      ensures old(Holds([])) && |history| <= KEPT ==> Kept(stop)
    {
      hide MoveAt;
      hide PressesWithin;
      hide TypingWithin;
      hide SamePresses;
      hide Guard;
      hide Squash;
      hide TypedTimes;
      hide TypeBound;
      hide Unquoted;
      hide InTurn;
      hide Noted;
      var text := if Writes(d) && d.text != "" then Unquoted(d.text) else d.text;
      var at := d.at;
      if d.op == Some("type") && at == None {
        at := *;                                     // the place the goal names, or the end
      }
      var skip := "";
      var problem: bool, needed: bool := *, *;
      if d.op == Some("type") && Trim(text) != "" && TypedTimes(history, Squash(mask(text))) >= TypeBound(goal, text) {
        skip := "skip typing";
      } else if Writes(d) && problem {
        skip := "skip writing";
      } else if !Guard(history, d, obs, goal, needed) {
        skip := "skip";
      }
      hide Trim;
      if skip != "" {
        Remark(skip);
        return None;
      }
      stop := Give(d, obs, needed, text, if Writes(d) && at.Some? then at.value else Anywhere);
    }

    /** No input was given in this turn. */
    ghost predicate NoneYet()
      reads this
    {
      inputs != [] ==> inputs[|inputs| - 1].turn < |turns| - 1
    }

    /** The input, given again after a moment when the desktop was busy. */
    method Try(d: Decision, obs: Observation, text: string, place: Place) returns (answer: Answer, h: Entry)
      requires Valid() && MayGive(d, obs) && NoneYet()
      modifies this`inputs
      ensures Valid() && old(inputs) <= inputs && 1 <= |inputs| - |old(inputs)| <= 2
      ensures inputs[|inputs| - 1] == Input(|turns| - 1, answer, h) && inputs[|old(inputs)|].turn == |turns| - 1
      ensures |inputs| - |old(inputs)| == 2 ==> inputs[|old(inputs)|].answer.Busy?
      ensures h == Entry(h.did, h.ok, LabelOf(d, obs), if Writes(d) then mask(text) else "", place, Guarded(d, obs))
      ensures h.ok == ((answer.Result? || answer.Busy?) && answer.ok) && ByType(d, h)
      ensures old(Holds([])) ==> Holds([h]) && (!h.ok ==> Holds([]))
    {
      hide PressesWithin;
      hide TypingWithin;
      hide ByType;
      hide LabelOf;
      hide Guarded;
      hide Lookup;
      hide ActedOn;
      hide AllDiffer;
      hide OneEach;
      hide Sighted;
      hide MoveAt;
      hide Lines;
      hide SamePresses;
      hide Acts;
      hide Delivered;
      hide PressesWithin;
      ghost var before := Delivered();
      answer, h := Do(d, obs, text, place);
      InputHeld(history, saved, before, h);
      if answer.Busy? {
        before := Delivered();
        BatchIsNoPress();
        answer, h := Do(d, obs, text, place);
        InputHeld(history, saved, before, h);
      }
    }

    /** The input itself, which the guards have let through. */
    method Give(d: Decision, obs: Observation, needed: bool, text: string, place: Place) returns (stop: Option<Outcome>)
      requires Valid() && stale <= STALE_RETRIES && MayGive(d, obs) && NoneYet() && Guard(history, d, obs, goal, needed)
      requires d.op == Some("type") ==>
                 Trim(text) == "" || TypedTimes(history, Squash(mask(text))) < TypeBound(goal, text)
      modifies this`history, this`saved, this`stale, this`waits, this`inputs
      ensures Valid() && old(history) <= history && |history| <= |old(history)| + 1
      ensures stop.Some? ==> stop.value.Blocked? || stop.value.Interrupted?
      ensures stop.None? ==> stale <= STALE_RETRIES
      ensures inputs != old(inputs) && Noted(old(inputs), old(history), old(saved), stop)
      ensures old(Holds([])) && |history| <= KEPT ==> Kept(stop)
    {
      hide MoveAt;
      hide PressesWithin;
      hide TypingWithin;
      hide Guard;
      hide Guarded;
      hide Squash;
      hide TypedTimes;
      hide TypeBound;
      hide Trim;
      hide InTurn;
      hide LabelOf;
      hide Lookup;
      hide ByType;
      hide MayGive;
      hide Holds;
      hide NoneYet;
      hide SamePresses;
      hide Acts;
      hide Delivered;
      hide StartsWith;
      var answer, h := Try(d, obs, text, place);
      PressIsRecordable(history, goal, d, obs, needed, h);
      TypingIsRecordable(history, goal, mask, d, h, text);
      stop := Settle(answer, h);
    }

    /** What comes of the answer. */
    method Settle(answer: Answer, h: Entry) returns (stop: Option<Outcome>)
      requires Valid() && stale <= STALE_RETRIES && (h.ok ==> answer.Result? || answer.Busy?)
      requires PressesWithin(history + [h], goal) && TypingWithin(history + [h], goal, mask)
      modifies this`history, this`saved, this`stale, this`waits
      ensures Valid() && (stop.None? ==> stale <= STALE_RETRIES)
      ensures if answer.Result? || answer.Busy? then stop.None? || stop == Some(Interrupted) else stop.None? || stop == Some(Blocked)
      ensures if stop.Some? then history == old(history) && saved == old(saved)
              else if answer.Result? || answer.Busy? then history == old(history) + [h] && saved == Tail(history)
              else history == old(history) + [Remarked(h.did)] && saved == old(saved)
      ensures old(Holds([h])) && (!h.ok ==> old(Holds([]))) && |history| <= KEPT ==>
                if stop == Some(Interrupted) then Holds([h]) else Holds([])
    {
      hide PressesWithin;
      hide TypingWithin;
      hide InTurn;
      hide Holds;
      match answer {
        case Cancelled =>
          return Some(Blocked);
        case OwnerActive =>
          if waits >= OWNER_WAITS { return Some(Blocked); }
          waits := waits + 1;
          Remark(h.did);
        case Stale =>
          stale := stale + 1;
          if stale > STALE_RETRIES { return Some(Blocked); }
          Remark(h.did);
        case _ =>
          stale := 0;
          var dies := Record(h);
          if dies { return Some(Interrupted); }
      }
      stop := None;
    }

    /** The input was given; unless the service dies first, it is recorded and the history saved. */
    method Record(h: Entry) returns (dies: bool)
      requires Valid() && PressesWithin(history + [h], goal) && TypingWithin(history + [h], goal, mask)
      modifies this`history, this`saved
      ensures Valid()
      ensures history == if dies then old(history) else old(history) + [h]
      ensures saved == if dies then old(saved) else Tail(history)
      ensures old(Holds([h])) && dies ==> Holds([h])
      ensures old(Holds([h])) && !dies && |history| <= KEPT ==> Holds([])
    {
      hide PressesWithin;
      hide TypingWithin;
      hide SamePresses;
      hide InTurn;
      dies := *;
      if dies {
        return;
      }
      history := history + [h];
      assert history + [] == history;
      if |history| > KEPT {
        PressesWithinRest(history, goal, |history| - KEPT);
        TypingWithinRest(history, goal, mask, |history| - KEPT);
      }
      saved := Tail(history);
    }

    // ------------------------------------------------------------------ the loop

    /** Success after the window closed: the last look found it gone, right after a successful step. */
    ghost predicate ClosedWell(verified: Option<bool>)
      reads this
    {
      && looks != [] && |looks| == |turns| + 1 && looks[|looks| - 1].window.None? && looks[|looks| - 1].gone
      && history != [] && history[|history| - 1].ok
      && verified == if ClosedByNamed(history, goal) then Some(true) else None
    }

    /** The planner said "done" in the last turn, the judge was asked in it, and the report is what this turn's
        look, the first one, the history and the judge come to. */
    ghost predicate FoundWell(verified: Option<bool>)
      reads this
    {
      && turns != [] && |looks| == |turns| && turns[|turns| - 1].decision.action == "done"
      && looks[|looks| - 1].window.Some? && rulings != [] && rulings[|rulings| - 1].turn == |turns| - 1
      && verified != Some(false)
      && FoundOnScreen(turns[|turns| - 1].decision.items, history, looks[|looks| - 1].window.value, FirstOf(looks), goal,
                       rulings[|rulings| - 1].judge, verified)
    }

    /** "done": the look of this turn decides. */
    method Finish(items: seq<Expect>, now: Observation, first: Option<Observation>) returns (verified: Option<bool>, judge: Judgement)
      requires Valid() && turns != []
      modifies this`rulings
      ensures Valid() && FoundOnScreen(items, history, now, first, goal, judge, verified)
      ensures verified != Some(false) ==> rulings == old(rulings) + [Ruling(|turns| - 1, judge)]
      ensures old(rulings) <= rulings
    {
      hide Expected;
      hide Proved;
      hide PressesWithin;
      hide TypingWithin;
      hide InTurn;
      var expected := CheckExpect(items, now, first);
      var typed := TypedProofs(history, now, first, goal);
      verified, judge := expected, Unsure;
      if typed == Some(false) {
        verified := Some(false);
      } else if typed == Some(true) && verified == None {
        verified := Some(true);
      }
      if verified != Some(false) {
        judge := Judge();
        if judge == No {
          verified := Some(false);
        } else if judge == Unsure {
          verified := None;
        }
      }
    }

    /** The loop of one attempt. */
    method Run() returns (outcome: Outcome)
      requires Valid() && looks == [] && turns == [] && inputs == [] && rulings == []
      modifies this
      ensures Valid() && |turns| <= |looks| <= MAX_STEPS && old(history) <= history && |history| <= |old(history)| + MAX_STEPS
      ensures outcome.Report? ==> ClosedWell(outcome.verified) || FoundWell(outcome.verified)
      ensures outcome.AskOwner? ==> turns != [] && turns[|turns| - 1].decision.action == "ask"
      ensures old(Holds([])) && |history| <= KEPT ==> Kept(Some(outcome))
    {
      hide PressesWithin;
      hide TypingWithin;
      hide SamePresses;
      hide ActedOn;
      hide AllDiffer;
      hide OneEach;
      hide MoveAt;
      hide Seen;
      hide Holds;
      hide FoundOnScreen;
      hide FoundWell;
      hide InTurn;
      NothingGiven();
      var seen: map<Situation, nat> := map[];
      var first: Option<Observation> := None;
      var badDone := 0;
      stale := 0;
      NothingSeen();
      for n := 0 to MAX_STEPS
        invariant Valid() && stale <= STALE_RETRIES && |turns| == |looks| == n && badDone < 2
        invariant old(history) <= history && |history| <= |old(history)| + n
        invariant first == FirstOf(looks) && (inputs != [] ==> inputs[|inputs| - 1].turn < |turns|)
        invariant forall s :: Seen(turns, s) == if s in seen then seen[s] else 0
        invariant old(Holds([])) && |history| <= KEPT ==> Holds([])
      {
        var stopped: bool, planned: bool, plan: Decision := *, *, *;
        if stopped { return Interrupted; }
        ghost var before := looks;
        var look, gone := Look();
        FirstOfAppend(before, looks[|looks| - 1]);
        hide FirstOf;
        if look.None? {
          if !gone || history == [] || !history[|history| - 1].ok { return Blocked; }
          return Report(if ClosedByNamed(history, goal) then Some(true) else None);
        }
        if first.None? && history == [] {
          first := look;
        }
        if !planned { return Blocked; }
        var end;
        end, badDone, seen := Heed(Normalize(plan), look.value, first, badDone, seen);
        if end.Some? { return end.value; }
      }
      outcome := Blocked;
    }

    /** A planned decision is counted, and followed. */
    method Heed(d: Decision, obs: Observation, first: Option<Observation>, bad: nat, seen: map<Situation, nat>)
      returns (end: Option<Outcome>, badDone: nat, more: map<Situation, nat>)
      requires Valid() && stale <= STALE_RETRIES && bad < 2 && (inputs != [] ==> inputs[|inputs| - 1].turn < |turns|)
      requires |looks| == |turns| + 1 && looks[|turns|].window == Some(obs) && first == FirstOf(looks)
      requires forall t :: Seen(turns, t) == if t in seen then seen[t] else 0
      modifies this`history, this`saved, this`stale, this`waits, this`turns, this`inputs, this`rulings
      ensures Valid() && old(history) <= history && |history| <= |old(history)| + 1
      ensures turns == old(turns) + [Situation(ScreenKey(obs.elements), d)]
      ensures forall t :: Seen(turns, t) == if t in more then more[t] else 0
      ensures end.None? ==> stale <= STALE_RETRIES && badDone < 2
      ensures end.Some? ==> !end.value.Report? || FoundWell(end.value.verified)
      ensures end.Some? && end.value.AskOwner? ==> d.action == "ask"
      ensures inputs != [] ==> inputs[|inputs| - 1].turn < |turns|
      ensures old(Holds([])) && |history| <= KEPT ==> Kept(end)
    {
      hide PressesWithin;
      hide TypingWithin;
      hide InTurn;
      hide MoveAt;
      hide Seen;
      hide Holds;
      hide FoundWell;
      hide FirstOf;
      var s := Situation(ScreenKey(obs.elements), d);
      more := Notice(seen, s);
      end, badDone := Turn(d, obs, first, MoveOf(more[s], d.action == "done"), bad);
    }

    /** What one planned decision leads to. */
    method Turn(d: Decision, obs: Observation, first: Option<Observation>, move: Move, bad: nat)
      returns (end: Option<Outcome>, badDone: nat)
      requires Valid() && stale <= STALE_RETRIES && bad < 2 && NoneYet()
      requires turns != [] && turns[|turns| - 1].decision == d && MoveAt(turns, |turns| - 1) == move
      requires |looks| == |turns| && looks[|looks| - 1].window == Some(obs) && first == FirstOf(looks)
      modifies this`history, this`saved, this`stale, this`waits, this`inputs, this`rulings
      ensures Valid() && old(history) <= history && |history| <= |old(history)| + 1
      ensures end.None? ==> stale <= STALE_RETRIES && badDone < 2
      ensures end.Some? ==> !end.value.Report? || FoundWell(end.value.verified)
      ensures end.Some? && end.value.AskOwner? ==> d.action == "ask"
      ensures inputs != old(inputs) ==> move == Go && Acts(d) && Noted(old(inputs), old(history), old(saved), end)
      ensures inputs != [] ==> inputs[|inputs| - 1].turn < |turns|
      ensures move == Stop ==> end == Some(Blocked)
      ensures old(Holds([])) && |history| <= KEPT ==> Kept(end)
    {
      hide PressesWithin;
      hide TypingWithin;
      hide SamePresses;
      hide FoundOnScreen;
      hide InTurn;
      hide Holds;
      hide FirstOf;
      badDone := bad;
      if move == Stop { return Some(Blocked), bad; }
      if move == Remind {
        Remark(d.action);
        return None, bad;
      }
      if d.action == "done" {
        end, badDone := Decide(d, obs, first, bad);
        return;
      }
      if d.action == "ask" { return Some(AskOwner), bad; }
      if d.action == "fail" { return Some(Blocked), bad; }
      if d.action == "wait" {
        Remark("wait");
        return None, bad;
      }
      end := Act(d, obs);
    }

    /** "done" ends the task -- unless it is disproved, for the first time. */
    method Decide(d: Decision, obs: Observation, first: Option<Observation>, bad: nat) returns (end: Option<Outcome>, badDone: nat)
      requires Valid() && bad < 2 && turns != [] && turns[|turns| - 1].decision == d && d.action == "done"
      requires |looks| == |turns| && looks[|looks| - 1].window == Some(obs) && first == FirstOf(looks)
      modifies this`history, this`rulings
      ensures Valid() && old(history) <= history && |history| <= |old(history)| + 1
      ensures end.None? ==> badDone < 2 && badDone == bad + 1
      ensures end.Some? ==> end == Some(Blocked) || (end.value.Report? && FoundWell(end.value.verified))
      ensures old(Holds([])) ==> Holds([])
    {
      hide PressesWithin;
      hide TypingWithin;
      hide SamePresses;
      hide FoundOnScreen;
      hide InTurn;
      hide FirstOf;
      badDone := bad;
      var verified, judge := Finish(d.items, obs, first);
      if verified == Some(false) {
        badDone := badDone + 1;
        Remark("done");
        end := if badDone >= 2 then Some(Blocked) else None;
      } else {
        end := Some(Report(verified));
      }
    }

    /** A new turn, counted. */
    method Notice(seen: map<Situation, nat>, s: Situation) returns (more: map<Situation, nat>)
      requires Valid() && forall t :: Seen(turns, t) == if t in seen then seen[t] else 0
      requires |looks| == |turns| + 1 && looks[|turns|].window.Some? && s.screen == ScreenKey(looks[|turns|].window.value.elements)
      modifies this`turns
      ensures Valid() && turns == old(turns) + [s]
      ensures forall t :: Seen(turns, t) == if t in more then more[t] else 0
      ensures s in more && MoveAt(turns, |turns| - 1) == MoveOf(more[s], s.decision.action == "done")
    {
      hide PressesWithin;
      hide TypingWithin;
      more := seen[s := (if s in seen then seen[s] else 0) + 1];
      SeenAppend(turns, s);
      assert (turns + [s])[..|turns| + 1] == turns + [s];
      hide Seen;
      ActedOnStays(looks, turns, s, Acted(inputs));
      hide ActedOn;
      hide AllDiffer;
      hide Sighted;
      hide Acted;
      turns := turns + [s];
    }
  }

  /** A further input of the current turn keeps what is known of the inputs. */
  lemma {:induction false} GivenInTurn(turns: seq<Situation>, inputs: seq<Input>, x: Input)
    requires ActedOn(turns, Acted(inputs)) && OneEach(inputs)
    requires turns != [] && x.turn == |turns| - 1 && MoveAt(turns, x.turn) == Go && Acts(turns[x.turn].decision)
    requires MayFollow(inputs, x.turn)
    ensures ActedOn(turns, Acted(inputs + [x])) && AllDiffer(turns, Acted(inputs + [x])) && OneEach(inputs + [x])
  {
    ActedAppend(inputs, x);
    hide MoveAt;
    hide Acted;
    hide Acts;
    hide ActedOn;
    hide OneEach;
    OneEachAppend(inputs, x);
    if inputs == [] || inputs[|inputs| - 1].turn < x.turn {
      ActedOnMore(turns, Acted(inputs), x.turn);
    }
    ActedAllDiffer(turns, Acted(inputs + [x]));
    hide AllDiffer;
  }

  lemma {:induction false} ActedOnMore(turns: seq<Situation>, acted: seq<nat>, t: nat)
    requires ActedOn(turns, acted) && (acted == [] || acted[|acted| - 1] < t)
    requires t < |turns| && MoveAt(turns, t) == Go && Acts(turns[t].decision)
    ensures ActedOn(turns, acted + [t])
  {
    hide MoveAt;
    hide Acts;
    var more := acted + [t];
    assert forall k | 0 <= k < |acted| :: more[k] == acted[k] && acted[k] < t;
  }

  lemma {:induction false} OneEachAppend(inputs: seq<Input>, x: Input)
    requires OneEach(inputs) && MayFollow(inputs, x.turn)
    ensures OneEach(inputs + [x])
  {
    var more := inputs + [x];
    assert forall i | 0 <= i < |inputs| :: more[i] == inputs[i];
  }

  /** An input not yet recorded: the presses are those of the history and of this line. */
  lemma {:induction false} InputHeld(history: seq<Entry>, saved: seq<Entry>, before: seq<Entry>, h: Entry)
    ensures SamePresses(history + [], before) ==> SamePresses(history + [h], before + [h])
    ensures SamePresses(history + [], before) && NoPress(h) ==> SamePresses(history + [], before + [h])
    ensures SamePresses(saved + [], before) ==> SamePresses(saved + [h], before + [h])
    ensures SamePresses(saved + [], before) && NoPress(h) ==> SamePresses(saved + [], before + [h])
  {
    assert history + [] == history && saved + [] == saved;
    hide NoPress;
    if SamePresses(history, before) {
      SamePressesAppend(history, before, h);
    }
    if SamePresses(saved, before) {
      SamePressesAppend(saved, before, h);
    }
    hide SamePresses;
  }

  lemma {:induction false} NothingGiven()
    ensures Lines([]) == [] && ActedOn([], Acted([])) && AllDiffer([], Acted([])) && OneEach([]) && Sighted([], [])
  {
  }

  lemma NothingSeen()
    ensures forall s :: Seen([], s) == 0
  {
  }

  lemma {:induction false} SeenAppend(turns: seq<Situation>, s: Situation)
    ensures forall t :: Seen(turns + [s], t) == Seen(turns, t) + if t == s then 1 else 0
  {
    assert (turns + [s])[..|turns|] == turns;
  }

  /** A new turn on a new look changes nothing about the turns before. */
  lemma {:induction false} ActedOnStays(looks: seq<Sight>, turns: seq<Situation>, s: Situation, acted: seq<nat>)
    requires ActedOn(turns, acted) && Sighted(looks, turns) && |looks| == |turns| + 1
    requires looks[|turns|].window.Some? && s.screen == ScreenKey(looks[|turns|].window.value.elements)
    ensures ActedOn(turns + [s], acted) && AllDiffer(turns + [s], acted) && Sighted(looks, turns + [s])
  {
    MovesStay(turns, s);
    hide MoveAt;
    hide Acts;
    hide ScreenKey;
    assert forall k | 0 <= k < |turns| :: (turns + [s])[k] == turns[k];
    assert ActedOn(turns + [s], acted);
    ActedAllDiffer(turns + [s], acted);
    hide AllDiffer;
  }

  lemma MovesStay(turns: seq<Situation>, s: Situation)
    ensures forall i | 0 <= i < |turns| :: MoveAt(turns + [s], i) == MoveAt(turns, i)
  {
    forall i | 0 <= i < |turns| ensures MoveAt(turns + [s], i) == MoveAt(turns, i) {
      assert (turns + [s])[..i + 1] == turns[..i + 1];
    }
  }
}
