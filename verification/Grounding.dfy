/** Which numbers an operator's answer may contain.

    A number is a run of digits with dots and commas between digits; its commas are dropped. An answer is
    grounded when each of its numbers occurs in the goal or in the result of a step, or is a whole number
    up to the longest list a tool returned. Every step has a result -- the rejection of an answer too. */
module Grounding {
  import opened Options

  predicate Digit(c: char) {
    '0' <= c <= '9'
  }

  predicate Separator(c: char) {
    c == '.' || c == ','
  }

  /** Bengali digits count as digits. */
  function Western(c: char): char {
    if '\U{09E6}' <= c <= '\U{09EF}' then ('0' as int + (c as int - 0x9E6)) as char else c
  }

  function West(s: string): string {
    if s == "" then "" else [Western(s[0])] + West(s[1..])
  }

  /** How far the number at the front of s reaches. */
  function End(s: string): (e: nat)
    requires s != "" && Digit(s[0])
    ensures 1 <= e <= |s|
  {
    if |s| > 1 && Digit(s[1]) then 1 + End(s[1..])
    else if |s| > 2 && Separator(s[1]) && Digit(s[2]) then 2 + End(s[2..])
    else 1
  }

  function Tokens(s: string): seq<string> {
    if s == "" then []
    else if !Digit(s[0]) then Tokens(s[1..])
    else [s[..End(s)]] + Tokens(s[End(s)..])
  }

  function Strip(s: string): string {
    if s == "" then "" else (if s[0] == ',' then "" else [s[0]]) + Strip(s[1..])
  }

  function StripAll(tokens: seq<string>): seq<string> {
    if tokens == [] then [] else [Strip(tokens[0])] + StripAll(tokens[1..])
  }

  function Numbers(s: string): seq<string> {
    StripAll(Tokens(West(s)))
  }

  // -------------------------------------------------- numbers of joined text

  /** No number reaches across into b. */
  predicate Break(b: string) {
    b == "" || (!Digit(b[0]) && (Separator(b[0]) ==> |b| == 1 || !Digit(b[1])))
  }

  lemma {:induction false} EndAtBreak(a: string, b: string)
    requires a != "" && Digit(a[0]) && Break(b)
    ensures End(a + b) == End(a)
  {
    if |a| > 1 && Digit(a[1]) {
      assert (a + b)[1..] == a[1..] + b;
      EndAtBreak(a[1..], b);
    } else if |a| > 2 && Separator(a[1]) && Digit(a[2]) {
      assert (a + b)[2..] == a[2..] + b;
      EndAtBreak(a[2..], b);
    }
  }

  lemma {:induction false} TokensSplit(a: string, b: string)
    requires Break(b)
    ensures Tokens(a + b) == Tokens(a) + Tokens(b)
    decreases |a|
  {
    if a == "" {
      assert a + b == b;
    } else if !Digit(a[0]) {
      assert (a + b)[1..] == a[1..] + b;
      TokensSplit(a[1..], b);
    } else {
      EndAtBreak(a, b);
      var e := End(a);
      assert (a + b)[..e] == a[..e] && (a + b)[e..] == a[e..] + b;
      TokensSplit(a[e..], b);
    }
  }

  lemma {:induction false} WestSplit(a: string, b: string)
    ensures West(a + b) == West(a) + West(b)
  {
    if a == "" {
      assert a + b == b;
    } else {
      assert (a + b)[1..] == a[1..] + b;
      WestSplit(a[1..], b);
    }
  }

  lemma {:induction false} StripAllSplit(a: seq<string>, b: seq<string>)
    ensures StripAll(a + b) == StripAll(a) + StripAll(b)
  {
    if a == [] {
      assert a + b == b;
    } else {
      assert (a + b)[1..] == a[1..] + b;
      StripAllSplit(a[1..], b);
    }
  }

  lemma {:induction false} NumbersSplit(a: string, b: string)
    requires Break(West(b))
    ensures Numbers(a + b) == Numbers(a) + Numbers(b)
  {
    WestSplit(a, b);
    TokensSplit(West(a), West(b));
    StripAllSplit(Tokens(West(a)), Tokens(West(b)));
  }

  /** No digit of either kind. */
  predicate Wordy(s: string) {
    forall i | 0 <= i < |s| :: Western(s[i]) == s[i] && !Digit(s[i])
  }

  lemma {:induction false} WordyHasNone(s: string)
    requires Wordy(s)
    ensures West(s) == s && Tokens(s) == [] && Numbers(s) == []
  {
    if s != "" {
      WordyHasNone(s[1..]);
    }
  }

  // ------------------------------------------------------ a number by itself

  /** Digits, with single dots between digits. */
  predicate Canonical(n: string) {
    n != "" && Digit(n[0]) && End(n) == |n| && forall i | 0 <= i < |n| :: Digit(n[i]) || n[i] == '.'
  }

  lemma CanonicalGrows(d: char, rest: string)
    requires Digit(d) && Canonical(rest)
    ensures Canonical([d] + rest) && Canonical([d] + (['.'] + rest))
  {
    assert ([d] + rest)[1..] == rest && ([d] + (['.'] + rest))[2..] == rest;
  }

  lemma {:induction false} StripFront(t: string)
    requires |t| > 1 && t[0] != ','
    ensures Strip(t) == [t[0]] + Strip(t[1..])
    ensures |t| > 2 ==> Strip(t[1..]) == (if t[1] == ',' then "" else [t[1]]) + Strip(t[2..])
  {
    if |t| > 2 {
      assert t[1..][1..] == t[2..];
    }
  }

  lemma {:induction false} StripIsCanonical(t: string)
    requires t != "" && Digit(t[0]) && End(t) == |t|
    ensures Canonical(Strip(t))
  {
    if |t| > 1 {
      var k := if Digit(t[1]) then 1 else 2;
      StripIsCanonical(t[k..]);
      StripFront(t);
      hide Strip;
      hide End;
      hide Canonical;
      CanonicalGrows(t[0], Strip(t[k..]));
      assert "" + Strip(t[k..]) == Strip(t[k..]);
    } else {
      assert t[1..] == "";
      assert Strip(t) == t;
    }
  }

  lemma {:induction false} CutEnds(s: string)
    requires s != "" && Digit(s[0])
    ensures End(s[..End(s)]) == End(s)
  {
    if |s| > 1 && Digit(s[1]) {
      CutEnds(s[1..]);
      assert s[..End(s)][1..] == s[1..][..End(s[1..])];
    } else if |s| > 2 && Separator(s[1]) && Digit(s[2]) {
      CutEnds(s[2..]);
      assert s[..End(s)][2..] == s[2..][..End(s[2..])];
    }
  }

  ghost predicate AllCanonical(numbers: seq<string>) {
    forall i | 0 <= i < |numbers| :: Canonical(numbers[i])
  }

  lemma {:induction false} TokensAreCanonical(s: string)
    ensures AllCanonical(StripAll(Tokens(s)))
    decreases |s|
  {
    if s != "" {
      if !Digit(s[0]) {
        TokensAreCanonical(s[1..]);
      } else {
        var e := End(s);
        CutEnds(s);
        StripIsCanonical(s[..e]);
        TokensAreCanonical(s[e..]);
        hide Canonical;
        var tokens := [s[..e]] + Tokens(s[e..]);
        assert tokens[1..] == Tokens(s[e..]);
        assert StripAll(tokens) == [Strip(s[..e])] + StripAll(Tokens(s[e..]));
      }
    }
  }

  lemma {:induction false} StripKeeps(n: string)
    requires forall i | 0 <= i < |n| :: n[i] != ','
    ensures Strip(n) == n
  {
    if n != "" {
      StripKeeps(n[1..]);
    }
  }

  lemma {:induction false} WestKeeps(n: string)
    requires forall i | 0 <= i < |n| :: Western(n[i]) == n[i]
    ensures West(n) == n
  {
    if n != "" {
      WestKeeps(n[1..]);
    }
  }

  lemma CanonicalIsItself(n: string)
    requires Canonical(n)
    ensures West(n) == n && Numbers(n) == [n]
  {
    WestKeeps(n);
    StripKeeps(n);
    assert n[..|n|] == n && n[|n|..] == "";
    assert Tokens(n) == [n];
    assert StripAll([n]) == [Strip(n)];
  }

  // --------------------------------------------------------------- the steps

  datatype Call = Call(tool: string, params: string)

  /** What a call returned; `effect` is the evidence of what it changed, if it changed anything. */
  datatype Result = Result(ok: bool, text: string, items: nat, effect: Option<string>)

  datatype Step =
    | Called(call: Call, result: Result)
    | Rejected(missing: seq<string>)
    | NothingWorked
    | InvalidAction
    | Repeated

  // The beginnings of the step texts; the advice that follows them contains no digit either.
  const REJECTED := "rejected: "
  const EMPTY := "empty answer"
  const NOT_SEEN := " is not in any tool result"
  const NOTHING_WORKED := "no tool call has worked"
  const INVALID := "invalid action"
  const REPEATED := "REPEATED"

  function Join(items: seq<string>, separator: string): string {
    if items == [] then "" else if |items| == 1 then items[0] else items[0] + separator + Join(items[1..], separator)
  }

  function Rejection(missing: seq<string>): string {
    REJECTED + ((if missing == [] then EMPTY else Join(missing, ", ")) + NOT_SEEN)
  }

  function Shows(s: Step): string {
    match s
    case Called(_, r) => r.text
    case Rejected(missing) => Rejection(missing)
    case NothingWorked => NOTHING_WORKED
    case InvalidAction => INVALID
    case Repeated => REPEATED
  }

  function Most(steps: seq<Step>): nat {
    if steps == [] then 0
    else
      var most := Most(steps[..|steps| - 1]);
      var last := steps[|steps| - 1];
      if last.Called? && last.result.items > most then last.result.items else most
  }

  predicate Whole(n: string) {
    n != "" && forall i | 0 <= i < |n| :: Digit(n[i])
  }

  function Value(n: string): nat
    requires forall i | 0 <= i < |n| :: Digit(n[i])
  {
    if n == "" then 0
    else
      var last := n[|n| - 1];
      assert Digit(last);
      Value(n[..|n| - 1]) * 10 + (last as int - '0' as int)
  }

  /** A whole number as it is written. */
  function Decimal(n: nat): string {
    (if n < 10 then "" else Decimal(n / 10)) + [('0' as int + n % 10) as char]
  }

  /** A written number is a count exactly when it is at most the longest list. */
  lemma {:induction false} CountsMeans(n: nat, most: nat)
    ensures Whole(Decimal(n)) && Value(Decimal(n)) == n && (Counts(Decimal(n), most) <==> n <= most)
  {
    var s := Decimal(n);
    if n >= 10 {
      CountsMeans(n / 10, most);
      assert s[..|s| - 1] == Decimal(n / 10);
    } else {
      assert s[..|s| - 1] == "";
    }
  }

  predicate Counts(n: string, most: nat) {
    Whole(n) && Value(n) <= most
  }

  /** The text the answer is compared with: the goal and every result, a line each. */
  function Known(steps: seq<Step>, goal: string): string {
    if steps == [] then goal else Known(steps[..|steps| - 1], goal) + ("\n" + Shows(steps[|steps| - 1]))
  }

  function Unknown(numbers: seq<string>, known: seq<string>, most: nat): seq<string> {
    if numbers == [] then []
    else
      var rest := Unknown(numbers[1..], known, most);
      if numbers[0] in known || Counts(numbers[0], most) || numbers[0] in rest then rest else [numbers[0]] + rest
  }

  function Ungrounded(answer: string, steps: seq<Step>, goal: string): seq<string> {
    Unknown(Numbers(answer), Numbers(Known(steps, goal)), Most(steps))
  }

  lemma {:induction false} UnknownMeans(numbers: seq<string>, known: seq<string>, most: nat, n: string)
    ensures n in Unknown(numbers, known, most) <==> n in numbers && n !in known && !Counts(n, most)
  {
    hide Counts;
    if numbers != [] {
      UnknownMeans(numbers[1..], known, most, n);
      assert n in numbers <==> n == numbers[0] || n in numbers[1..];
      if numbers[0] == n {
        UnknownStep(numbers, known, most);
      }
    }
  }

  lemma {:induction false} UnknownStep(numbers: seq<string>, known: seq<string>, most: nat)
    requires numbers != []
    ensures var n := numbers[0];
            n in Unknown(numbers, known, most)
            <==> n in Unknown(numbers[1..], known, most) || (n !in known && !Counts(n, most))
  {
    hide Counts;
  }

  // ------------------------------------------------- what a rejection shows

  lemma {:induction false} JoinStep(missing: seq<string>, end: string)
    requires |missing| > 1
    ensures Join(missing, ", ") + end == missing[0] + (", " + (Join(missing[1..], ", ") + end))
  {
  }

  lemma {:induction false} JoinShowsAll(missing: seq<string>, end: string)
    requires missing != [] && AllCanonical(missing) && Break(West(end)) && Numbers(end) == []
    ensures Numbers(Join(missing, ", ") + end) == missing
  {
    CanonicalIsItself(missing[0]);
    if |missing| == 1 {
      hide Numbers;
      hide Canonical;
      NumbersSplit(missing[0], end);
      assert missing == [missing[0]];
    } else {
      var rest := missing[1..];
      assert AllCanonical(rest) by {
        hide Canonical;
        assert forall i | 0 <= i < |rest| :: rest[i] == missing[i + 1];
      }
      hide AllCanonical;
      hide Canonical;
      hide Numbers;
      hide West;
      JoinShowsAll(rest, end);
      JoinStep(missing, end);
      hide Join;
      var tail := Join(rest, ", ") + end;
      CommaShowsNothing(tail);
      NumbersSplit(missing[0], ", " + tail);
      assert missing == [missing[0]] + rest;
    }
  }

  lemma {:induction false} SkipFront(c: char, tail: string)
    requires !Digit(Western(c))
    ensures West([c] + tail) == [Western(c)] + West(tail)
    ensures Tokens([Western(c)] + West(tail)) == Tokens(West(tail))
  {
    assert ([c] + tail)[1..] == tail;
    assert ([Western(c)] + West(tail))[1..] == West(tail);
  }

  lemma {:induction false} SkipWords(words: string, tail: string)
    requires Wordy(words)
    ensures Numbers(words + tail) == Numbers(tail)
  {
    if words == "" {
      assert words + tail == tail;
    } else {
      assert words + tail == [words[0]] + (words[1..] + tail);
      SkipFront(words[0], words[1..] + tail);
      hide West;
      hide Tokens;
      hide StripAll;
      SkipWords(words[1..], tail);
    }
  }

  lemma CommaShowsNothing(tail: string)
    ensures Break(West(", " + tail)) && Numbers(", " + tail) == Numbers(tail)
  {
    SkipWords(", ", tail);
    assert ", " + tail == [','] + ([' '] + tail);
    SkipFront(' ', tail);
    SkipFront(',', [' '] + tail);
    hide West;
    hide Tokens;
    hide StripAll;
  }

  lemma {:induction false} LineShowsItself(line: string)
    ensures Break(West("\n" + line)) && Numbers("\n" + line) == Numbers(line)
  {
    SkipWords("\n", line);
    SkipFront('\n', line);
    hide West;
    hide Tokens;
    hide StripAll;
  }

  lemma {:induction false} OwnWordsAreWordy()
    ensures Wordy(NOT_SEEN) && NOT_SEEN[0] == ' '
  {
  }

  lemma {:induction false} OtherWordsAreWordy()
    ensures Wordy(NOTHING_WORKED) && Wordy(INVALID) && Wordy(REPEATED)
  {
  }

  lemma {:induction false} RejectionWordsAreWordy()
    ensures Wordy(REJECTED) && Wordy(EMPTY)
  {
  }

  /** The rejection of an answer shows exactly the numbers it objects to. */
  lemma RejectionShowsItsNumbers(missing: seq<string>)
    requires AllCanonical(missing)
    ensures Numbers(Rejection(missing)) == missing
  {
    OwnWordsAreWordy();
    RejectionWordsAreWordy();
    hide Wordy;
    RejectionWith(missing, NOT_SEEN);
  }

  lemma RejectionWith(missing: seq<string>, end: string)
    requires AllCanonical(missing) && Wordy(end) && end != "" && end[0] == ' ' && Wordy(EMPTY) && Wordy(REJECTED)
    ensures Numbers(REJECTED + ((if missing == [] then EMPTY else Join(missing, ", ")) + end)) == missing
  {
    WordyHasNone(end);
    SkipWords(REJECTED, (if missing == [] then EMPTY else Join(missing, ", ")) + end);
    hide Wordy;
    hide Numbers;
    if missing == [] {
      SkipWords(EMPTY, end);
    } else {
      JoinShowsAll(missing, end);
    }
  }

  predicate Shown(steps: seq<Step>, n: string) {
    exists i | 0 <= i < |steps| :: n in Numbers(Shows(steps[i]))
  }

  lemma {:induction false} KnownMeans(steps: seq<Step>, goal: string, n: string)
    ensures n in Numbers(Known(steps, goal)) <==> n in Numbers(goal) || Shown(steps, n)
  {
    hide Numbers;
    hide Shows;
    if steps != [] {
      var before := steps[..|steps| - 1];
      var line := Shows(steps[|steps| - 1]);
      KnownMeans(before, goal, n);
      LineShowsItself(line);
      NumbersSplit(Known(before, goal), "\n" + line);
      ShownLast(steps, n);
    }
  }

  lemma {:induction false} ShownLast(steps: seq<Step>, n: string)
    requires steps != []
    ensures Shown(steps, n) <==> Shown(steps[..|steps| - 1], n) || n in Numbers(Shows(steps[|steps| - 1]))
  {
    hide Numbers;
    hide Shows;
    var before := steps[..|steps| - 1];
    if Shown(before, n) {
      var i :| 0 <= i < |before| && n in Numbers(Shows(before[i]));
      assert n in Numbers(Shows(steps[i]));
    }
    if Shown(steps, n) {
      var i :| 0 <= i < |steps| && n in Numbers(Shows(steps[i]));
      if i < |before| {
        assert n in Numbers(Shows(before[i]));
      }
    }
  }

  /** What the check lets through, exactly. */
  lemma UngroundedMeans(answer: string, steps: seq<Step>, goal: string, n: string)
    ensures n in Ungrounded(answer, steps, goal)
       <==> n in Numbers(answer) && n !in Numbers(goal) && !Shown(steps, n) && !Counts(n, Most(steps))
  {
    UnknownMeans(Numbers(answer), Numbers(Known(steps, goal)), Most(steps), n);
    KnownMeans(steps, goal, n);
  }

  // -------------------------------------------------------------- main results

  /** Where the numbers of a step come from. */
  predicate FromTool(s: Step, n: string) {
    s.Called? && n in Numbers(s.result.text)
  }

  predicate FromRejection(s: Step, n: string) {
    s.Rejected? && n in s.missing
  }

  ghost predicate WellFormed(steps: seq<Step>) {
    forall i | 0 <= i < |steps| :: steps[i].Rejected? ==> AllCanonical(steps[i].missing)
  }

  lemma {:induction false} ShowsMeans(s: Step, n: string)
    requires s.Rejected? ==> AllCanonical(s.missing)
    ensures n in Numbers(Shows(s)) <==> FromTool(s, n) || FromRejection(s, n)
  {
    hide Numbers;
    hide Rejection;
    if s.Rejected? {
      RejectionShowsItsNumbers(s.missing);
    } else if !s.Called? {
      OtherTextsShowNone();
    }
  }

  lemma {:induction false} OtherTextsShowNone()
    ensures Numbers(NOTHING_WORKED) == [] && Numbers(INVALID) == [] && Numbers(REPEATED) == []
  {
    OtherWordsAreWordy();
    hide Numbers;
    hide Wordy;
    WordyHasNone(NOTHING_WORKED);
    WordyHasNone(INVALID);
    WordyHasNone(REPEATED);
  }

  predicate Told(steps: seq<Step>, n: string) {
    exists i | 0 <= i < |steps| :: FromTool(steps[i], n)
  }

  predicate Objected(steps: seq<Step>, n: string) {
    exists i | 0 <= i < |steps| :: FromRejection(steps[i], n)
  }

  lemma {:induction false} ShownMeans(steps: seq<Step>, n: string)
    requires WellFormed(steps)
    ensures Shown(steps, n) <==> Told(steps, n) || Objected(steps, n)
  {
    hide Numbers;
    hide Shows;
    hide FromTool;
    hide FromRejection;
    forall i | 0 <= i < |steps|
      ensures n in Numbers(Shows(steps[i])) <==> FromTool(steps[i], n) || FromRejection(steps[i], n)
    {
      ShowsMeans(steps[i], n);
    }
  }

  predicate Grounded(answer: string, steps: seq<Step>, goal: string) {
    forall i | 0 <= i < |Numbers(answer)| ::
      var n := Numbers(answer)[i];
      n in Numbers(goal) || Told(steps, n) || Counts(n, Most(steps))
  }

  /** The check accepts an answer exactly when each of its numbers stands in the goal or in a tool's
      result, counts the entries of a list -- or was itself objected to before. */
  lemma AcceptedExactly(answer: string, steps: seq<Step>, goal: string)
    requires WellFormed(steps)
    ensures Ungrounded(answer, steps, goal) == []
       <==> forall i | 0 <= i < |Numbers(answer)| ::
              var n := Numbers(answer)[i];
              n in Numbers(goal) || Told(steps, n) || Counts(n, Most(steps)) || Objected(steps, n)
  {
    hide Numbers;
    hide Ungrounded;
    hide Counts;
    hide Told;
    hide Objected;
    forall n ensures n in Ungrounded(answer, steps, goal)
      <==> n in Numbers(answer) && !(n in Numbers(goal) || Told(steps, n) || Counts(n, Most(steps)) || Objected(steps, n))
    {
      UngroundedMeans(answer, steps, goal, n);
      ShownMeans(steps, n);
    }
    if Ungrounded(answer, steps, goal) != [] {
      var n := Ungrounded(answer, steps, goal)[0];
      assert n in Numbers(answer);
    }
  }

  /** So long as no answer was rejected, an accepted answer is grounded, and a grounded one accepted. */
  lemma AcceptedIsGrounded(answer: string, steps: seq<Step>, goal: string)
    requires forall i | 0 <= i < |steps| :: !steps[i].Rejected?
    ensures Ungrounded(answer, steps, goal) == [] <==> Grounded(answer, steps, goal)
  {
    AcceptedExactly(answer, steps, goal);
    hide Numbers;
    hide Ungrounded;
    hide Counts;
    hide Told;
    forall n ensures !Objected(steps, n) {
    }
  }

  /** But the same answer, given again after it was rejected, is accepted -- whatever its numbers are. */
  lemma RejectedIsAcceptedNextTime(answer: string, steps: seq<Step>, goal: string, more: seq<Step>)
    ensures Ungrounded(answer, steps + [Rejected(Ungrounded(answer, steps, goal))] + more, goal) == []
  {
    var missing := Ungrounded(answer, steps, goal);
    var later := steps + [Rejected(missing)] + more;
    MissingIsCanonical(answer, steps, goal);
    RejectionShowsItsNumbers(missing);
    MostGrows(steps, [Rejected(missing)] + more);
    assert later == steps + ([Rejected(missing)] + more);
    var all := Ungrounded(answer, later, goal);
    if all != [] {
      var n := all[0];
      UngroundedMeans(answer, later, goal, n);
      UngroundedMeans(answer, steps, goal, n);
      hide Numbers;
      hide Ungrounded;
      hide Rejection;
      hide Most;
      ShownAt(later, |steps|, n);
      CountsUpTo(n, Most(steps), Most(later));
      ShownStays(steps, [Rejected(missing)] + more, n);
      assert false;
    }
  }

  lemma {:induction false} FortyTwo()
    ensures Numbers("42") == ["42"] && Numbers("") == [] && !Counts("42", 0)
  {
    var n := "42";
    assert n[1..] == "2";
    assert End(n) == 2;
    CanonicalIsItself(n);
    assert n[..1] == "4" && n[..1][..0] == "";
    assert Value("4") == 4;
    assert Value(n) == 42;
  }

  /** For one: "42", out of nowhere, is objected to once and then accepted, though nothing grounds it. */
  lemma {:induction false} AcceptedThoughUngrounded()
    ensures Ungrounded("42", [], "") == ["42"]
    ensures Ungrounded("42", [Rejected(["42"])], "") == [] && !Grounded("42", [Rejected(["42"])], "")
  {
    FortyTwo();
    hide Numbers;
    hide Counts;
    var steps := [Rejected(["42"])];
    assert steps[..0] == [];
    assert Ungrounded("42", [], "") == ["42"];
    RejectedIsAcceptedNextTime("42", [], "", []);
    assert [] + steps + [] == steps;
    assert Most(steps) == 0 && !Told(steps, "42");
  }

  lemma MissingIsCanonical(answer: string, steps: seq<Step>, goal: string)
    ensures AllCanonical(Ungrounded(answer, steps, goal))
  {
    TokensAreCanonical(West(answer));
    var missing := Ungrounded(answer, steps, goal);
    forall i | 0 <= i < |missing| ensures Canonical(missing[i]) {
      UngroundedMeans(answer, steps, goal, missing[i]);
      var k :| 0 <= k < |Numbers(answer)| && Numbers(answer)[k] == missing[i];
    }
  }

  lemma {:induction false} ShownAt(steps: seq<Step>, i: nat, n: string)
    requires i < |steps|
    ensures n in Numbers(Shows(steps[i])) ==> Shown(steps, n)
  {
  }

  lemma ShownStays(steps: seq<Step>, more: seq<Step>, n: string)
    ensures Shown(steps, n) ==> Shown(steps + more, n)
  {
    hide Numbers;
    hide Shows;
    if Shown(steps, n) {
      var i :| 0 <= i < |steps| && n in Numbers(Shows(steps[i]));
      assert (steps + more)[i] == steps[i];
    }
  }

  lemma {:induction false} CountsUpTo(n: string, few: nat, many: nat)
    requires few <= many
    ensures Counts(n, few) ==> Counts(n, many)
  {
  }

  lemma {:induction false} MostGrows(steps: seq<Step>, more: seq<Step>)
    ensures Most(steps) <= Most(steps + more)
  {
    if more == [] {
      assert steps + more == steps;
    } else {
      assert (steps + more)[..|steps + more| - 1] == steps + more[..|more| - 1];
      MostGrows(steps, more[..|more| - 1]);
    }
  }
}
