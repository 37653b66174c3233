/** The two guards in front of the computer-use loop's input: a control is pressed at most as often as the goal
    names it, and a text typed at most as often as the goal holds it -- and how a press can escape. */
module Guards {
  import opened Options
  import opened Screen
  import opened Strings
  import opened Text

  const OPS := ["click", "set_text", "focus", "toggle", "select", "expand", "collapse", "scroll_into_view", "type"]
  const GUARDED_KINDS := ["Button", "Hyperlink", "MenuItem", "SplitButton", "ListItem"]

  /** The planner's "element": a number, something that only converts to one, or nothing usable. */
  datatype Ref = Exact(n: int) | Loose(n: int) | Unusable

  /** One JSON object of the planner. `op` is None when it is absent or empty; `rest` is everything else the
      object holds: keys, target, seconds, batch steps, reasons, summary. */
  datatype Decision = Decision(
    action: string, op: Option<string>, element: Ref, text: string, at: Option<Place>, items: seq<Expect>, rest: string)

  predicate NoOp(d: Decision) {
    d.op.None? || d.op.value == ""
  }

  /** The operation an act stands for: a click, when none is given. */
  function OpOf(d: Decision): string {
    if NoOp(d) then "click" else d.op.value
  }

  /** Small planners write the operation where the action belongs. */
  function Normalize(d: Decision): Decision {
    if d.action in OPS then d.(action := "act", op := Some(d.action)) else d
  }

  // ------------------------------------------------------------------- labels

  function BeforeTab(s: string): string {
    if s == "" || s[0] == '\t' then "" else [s[0]] + BeforeTab(s[1..])
  }

  function WithoutDots(s: string): string {
    if s != "" && (s[|s| - 1] == '.' || s[|s| - 1] == '\U{2026}') then WithoutDots(s[..|s| - 1]) else s
  }

  /** A menu label without its mnemonic, ellipsis and shortcut. */
  function MenuWords(name: string): string {
    Lower(Trim(WithoutDots(Trim(Replace(BeforeTab(name), "&", "")))))
  }

  predicate Dot(c: char) {
    c == '.' || c == '\U{2026}'
  }

  predicate Dots(s: string) {
    forall i | 0 <= i < |s| :: Dot(s[i])
  }

  lemma {:induction false} BeforeTabIs(a: string, rest: string)
    requires '\t' !in a
    ensures BeforeTab(a) == a && BeforeTab(a + ("\t" + rest)) == a
  {
    if a != "" {
      BeforeTabIs(a[1..], rest);
      assert (a + ("\t" + rest))[1..] == a[1..] + ("\t" + rest);
    }
  }

  lemma {:induction false} WithoutDotsIs(a: string, dots: string)
    requires Dots(dots) && (a == "" || !Dot(a[|a| - 1]))
    ensures WithoutDots(a + dots) == a
  {
    if dots == "" {
      assert a + dots == a;
    } else {
      var n := |dots| - 1;
      assert (a + dots)[..|a| + n] == a + dots[..n];
      WithoutDotsIs(a, dots[..n]);
    }
  }

  lemma {:induction false} AtOne(t: string, c: char, i: nat)
    requires i < |t|
    ensures At(t, [c], i) <==> t[i] == c
  {
    assert t[i..i + 1] == [t[i]];
  }

  lemma {:induction false} OneMnemonic(a: string, b: string)
    requires '&' !in a && '&' !in b
    ensures Replace(a + "&" + b, "&", "") == a + b
  {
    var t := a + "&" + b;
    forall i | 0 <= i < |a| ensures !At(t, "&", i) {
      AtOne(t, '&', i);
      assert t[i] == a[i];
    }
    AtOne(t, '&', |a|);
    forall i | 0 <= i < |b| ensures !At(b, "&", i) {
      AtOne(b, '&', i);
    }
    ReplaceStep(a, "&", b, "");
    hide Replace;
    ReplaceAbsent(b, "&", "");
    assert a + "" + b == a + b;
  }

  lemma {:induction false} MnemonicGoes(a: string, b: string, shortcut: string)
    requires '&' !in a && '&' !in b && '\t' !in a && '\t' !in b
    ensures Replace(BeforeTab(a + "&" + b + ("\t" + shortcut)), "&", "") == a + b
  {
    BeforeTabIs(a + "&" + b, shortcut);
    OneMnemonic(a, b);
  }

  lemma {:induction false} EllipsisGoes(words: string, dots: string)
    requires Trimmed(words) && Dots(dots) && (words == "" || !Dot(words[|words| - 1]))
    ensures Trim(WithoutDots(Trim(words + dots))) == words
  {
    assert Trimmed(words + dots);
    assert "" + (words + dots) + "" == words + dots && "" + words + "" == words;
    TrimIs("", words + dots, "");
    WithoutDotsIs(words, dots);
    TrimIs("", words, "");
  }

  /** Whatever mnemonic, ellipsis and shortcut a menu label carries, its words are the label itself. */
  lemma {:induction false} MenuWordsAre(a: string, b: string, dots: string, shortcut: string)
    requires '&' !in a && '&' !in b && '\t' !in a && '\t' !in b
    requires Trimmed(a + b) && Dots(dots) && (a + b == "" || !Dot((a + b)[|a + b| - 1]))
    ensures MenuWords(a + "&" + (b + dots) + ("\t" + shortcut)) == Lower(a + b)
  {
    hide Trim;
    hide WithoutDots;
    hide BeforeTab;
    hide Replace;
    hide Lower;
    MnemonicGoes(a, b + dots, shortcut);
    EllipsisGoes(a + b, dots);
    assert a + (b + dots) == a + b + dots;
  }

  predicate WordChar(c: char) {
    c == '_' || '0' <= c <= '9' || 'a' <= c <= 'z' || 'A' <= c <= 'Z' || c >= '\U{AA}'
  }

  predicate WholeAt(s: string, word: string, i: nat) {
    && At(s, word, i)
    && (i == 0 || i > |s| || !WordChar(s[i - 1]))
    && (i + |word| >= |s| || !WordChar(s[i + |word|]))
  }

  /** Whole-word occurrences from i on. */
  function WholeWords(s: string, word: string, i: nat): nat
    requires word != ""
    decreases |s| - i
  {
    if i + |word| > |s| then 0
    else if WholeAt(s, word, i) then 1 + WholeWords(s, word, i + |word|)
    else WholeWords(s, word, i + 1)
  }

  /** How often the goal names the control. */
  function Named(name: string, goal: string): nat {
    var words := MenuWords(name);
    if words == "" then 0 else WholeWords(Lower(goal), words, 0)
  }

  /** The words stand at i with no letter, digit or underscore on either side. */
  ghost predicate Stands(s: string, word: string, i: nat) {
    && i + |word| <= |s| && s[i..i + |word|] == word
    && (i > 0 ==> !WordChar(s[i - 1]))
    && (i + |word| < |s| ==> !WordChar(s[i + |word|]))
  }

  /** Places from `from` on where the words stand, none overlapping the next. */
  ghost predicate Apart(s: string, word: string, from: nat, places: seq<nat>) {
    && (forall k | 0 <= k < |places| :: from <= places[k] && Stands(s, word, places[k]))
    && (forall k | 0 < k < |places| :: places[k - 1] + |word| <= places[k])
  }

  lemma {:induction false} ApartFrom(s: string, word: string, from: nat, places: seq<nat>)
    requires places != [] && Apart(s, word, from, places) && word != ""
    ensures places[0] != from ==> Apart(s, word, from + 1, places)
    ensures Apart(s, word, from + |word|, places[1..])
  {
    hide Stands;
    forall k | 0 <= k < |places| ensures places[0] + (if k > 0 then |word| else 0) <= places[k] {
      Increasing(s, word, from, places, k);
    }
  }

  lemma {:induction false} Increasing(s: string, word: string, from: nat, places: seq<nat>, k: nat)
    requires k < |places| && Apart(s, word, from, places)
    ensures places[0] + (if k > 0 then |word| else 0) <= places[k]
  {
    hide Stands;
    if k > 0 {
      Increasing(s, word, from, places, k - 1);
    }
  }

  /** Counting from left to right finds as many whole words as there can be side by side. */
  lemma {:induction false} WholeWordsAre(s: string, word: string, from: nat, places: seq<nat>)
    requires word != "" && Apart(s, word, from, places)
    ensures |places| <= WholeWords(s, word, from)
    decreases |s| - from
  {
    if places != [] {
      assert Stands(s, word, places[0]);
      ApartFrom(s, word, from, places);
      assert places[0] == from ==> WholeAt(s, word, from);
      hide Stands;
      hide Apart;
      if WholeAt(s, word, from) {
        WholeWordsAre(s, word, from + |word|, places[1..]);
      } else {
        WholeWordsAre(s, word, from + 1, places);
      }
    }
  }

  lemma {:induction false} WholeWordsFound(s: string, word: string, from: nat) returns (places: seq<nat>)
    requires word != ""
    ensures Apart(s, word, from, places) && |places| == WholeWords(s, word, from)
    decreases |s| - from
  {
    places := [];
    if from + |word| <= |s| {
      if WholeAt(s, word, from) {
        places := WholeWordsFound(s, word, from + |word|);
        assert Stands(s, word, from);
        hide Stands;
        places := [from] + places;
      } else {
        places := WholeWordsFound(s, word, from + 1);
      }
    }
  }

  /** How often the goal names a control: the greatest number of places, side by side, where its menu words
      stand as whole words in the lower-case goal -- none exactly when they stand nowhere. */
  lemma {:induction false} NamedIs(name: string, goal: string)
    requires MenuWords(name) != ""
    ensures exists places :: Apart(Lower(goal), MenuWords(name), 0, places) && |places| == Named(name, goal)
    ensures forall places :: Apart(Lower(goal), MenuWords(name), 0, places) ==> |places| <= Named(name, goal)
    ensures Named(name, goal) == 0 <==> forall i: nat :: !Stands(Lower(goal), MenuWords(name), i)
  {
    var s, word := Lower(goal), MenuWords(name);
    var found := WholeWordsFound(s, word, 0);
    hide WholeWords;
    forall places | Apart(s, word, 0, places) ensures |places| <= Named(name, goal) {
      WholeWordsAre(s, word, 0, places);
    }
    hide Stands;
    if i: nat :| Stands(s, word, i) {
      assert Apart(s, word, 0, [i]);
    }
    if Named(name, goal) > 0 {
      assert Stands(s, word, found[0]);
    }
  }

  function Bound(name: string, goal: string): nat {
    var n := Named(name, goal);
    if n > 1 then n else 1
  }

  predicate Press(h: Entry, name: string) {
    h.ok && h.control == name && (StartsWith(h.did, "click") || StartsWith(h.did, "select"))
  }

  function Times(history: seq<Entry>, name: string): nat {
    if history == [] then 0
    else Times(history[..|history| - 1], name) + if Press(history[|history| - 1], name) then 1 else 0
  }

  predicate CommitWord(name: string) {
    exists w | w in {"save", "ok", "apply", "submit", "send", "upload", "publish", "post", "confirm", "yes", "next",
                     "finish", "done", "continue", "install", "update", "delete", "remove", "buy", "pay",
                     "সেভ", "সংরক্ষণ", "ঠিক আছে", "হ্যাঁ", "পাঠান", "জমা", "নিশ্চিত", "পরবর্তী", "মুছুন"} ::
      Lower(name) == w || StartsWith(Lower(name), w + " ")
  }

  // -------------------------------------------------------------------- guard

  function Lookup(elements: seq<Element>, id: int): Option<Element> {
    if elements == [] then None else if elements[0].id == id then Some(elements[0]) else Lookup(elements[1..], id)
  }

  function LabelOf(d: Decision, obs: Observation): string {
    if d.element.Unusable? then ""
    else
      var e := Lookup(obs.elements, d.element.n);
      if e.Some? then e.value.name else ""
  }

  predicate PressOp(op: string) {
    op == "click" || op == "select"
  }

  /** What the guard looks at: an explicit press of a listed control of a pressable kind. */
  predicate Looked(d: Decision, obs: Observation) {
    && d.action == "act" && d.op.Some? && PressOp(d.op.value) && d.element.Exact?
    && Lookup(obs.elements, d.element.n).Some? && Lookup(obs.elements, d.element.n).value.kind in GUARDED_KINDS
  }

  /** May a control with this (trimmed) label be pressed once more? `needed` is the planner's answer. */
  predicate MayPress(history: seq<Entry>, name: string, goal: string, needed: bool) {
    var times := Times(history, name);
    if Named(name, goal) > 0 then times < Named(name, goal)
    else if times > 0 then false
    else if CommitWord(name) then false
    else needed
  }

  predicate Guard(history: seq<Entry>, d: Decision, obs: Observation, goal: string, needed: bool) {
    Looked(d, obs) ==> MayPress(history, Trim(LabelOf(d, obs)), goal, needed)
  }

  /** Acting on d may press a control with this label. */
  predicate Presses(d: Decision, obs: Observation, name: string) {
    && LabelOf(d, obs) == name
    && (d.action == "locate" || (d.action == "act" && PressOp(OpOf(d))))
  }

  /** The guard sees this press under the label it is counted by. */
  predicate Guarded(d: Decision, obs: Observation) {
    Looked(d, obs) && Trim(LabelOf(d, obs)) == LabelOf(d, obs)
  }

  /** How a press can pass the guard when its label is used up: exactly through an operation left to its
      default, a number that is not quite one, an unguarded kind of control, a located target with a
      number attached -- or a label with blanks around it that is not used up without them. */
  lemma {:induction false} EscapesExactly(history: seq<Entry>, d: Decision, obs: Observation, goal: string, name: string)
    requires Times(history, name) >= Bound(name, goal) && Presses(d, obs, name)
    ensures Guard(history, d, obs, goal, true)
       <==> || d.action == "locate" || NoOp(d) || !d.element.Exact?
            || Lookup(obs.elements, d.element.n).None? || Lookup(obs.elements, d.element.n).value.kind !in GUARDED_KINDS
            || (Trim(name) != name && MayPress(history, Trim(name), goal, true))
  {
    hide Times;
    hide Named;
    hide CommitWord;
    hide LabelOf;
  }

  /** So there is no end to it: the guard lets a decision without an operation press any label any number of
      times, whatever the goal. */
  lemma {:induction false} PressesWithoutEnd(name: string, goal: string, n: nat)
    returns (d: Decision, obs: Observation, history: seq<Entry>)
    ensures |history| == n && Times(history, name) == n && Presses(d, obs, name)
    ensures forall i, needed | 0 <= i < n :: Guard(history[..i], d, obs, goal, needed)
    ensures n > Bound(name, goal) ==> Times(history, name) > Bound(name, goal)
  {
    d := Decision("act", None, Exact(1), "", None, [], "");
    obs := Observation("", [Element(1, "Button", name, "", "", None, false)]);
    var h := Entry("click [1]", true, name, "", Anywhere, false);
    hide Named;
    hide CommitWord;
    hide MenuWords;
    assert !Looked(d, obs);
    history := [];
    if n > 0 {
      var d', obs', before := PressesWithoutEnd(name, goal, n - 1);
      history := before + [h];
      assert "click [1]"[..5] == "click";
      TimesAppend(before, h, name);
      hide Times;
    }
  }

  /** A guarded press leaves its label within its bound; a commit word the goal does not name is not pressed. */
  lemma {:induction false} GuardedPressIsWithinBound(history: seq<Entry>, d: Decision, obs: Observation, goal: string, needed: bool, h: Entry)
    requires Guarded(d, obs) && Guard(history, d, obs, goal, needed)
    ensures Times(history + [h], LabelOf(d, obs)) <= Bound(LabelOf(d, obs), goal)
    ensures Named(LabelOf(d, obs), goal) == 0 ==> !CommitWord(LabelOf(d, obs)) && needed
  {
    hide CommitWord;
    TimesAppend(history, h, LabelOf(d, obs));
    hide Times;
    hide Named;
  }

  lemma {:induction false} TimesAppend(history: seq<Entry>, h: Entry, name: string)
    ensures Times(history + [h], name) == Times(history, name) + if Press(h, name) then 1 else 0
  {
    assert (history + [h])[..|history|] == history;
  }

  /** At the moment of every guarded press its label was within its bound. */
  ghost predicate PressesWithin(history: seq<Entry>, goal: string) {
    forall i | 0 <= i < |history| ::
      history[i].guarded ==> Times(history[..i + 1], history[i].control) <= Bound(history[i].control, goal)
  }

  lemma PressesWithinAppend(history: seq<Entry>, goal: string, h: Entry)
    requires PressesWithin(history, goal)
    requires h.guarded ==> Times(history + [h], h.control) <= Bound(h.control, goal)
    ensures PressesWithin(history + [h], goal)
  {
    hide Times;
    hide Bound;
    var more := history + [h];
    assert more[..|history| + 1] == more;
    assert forall i | 0 <= i < |history| :: more[..i + 1] == history[..i + 1] && more[i] == history[i];
  }

  lemma {:induction false} TimesInRest(history: seq<Entry>, k: nat, name: string)
    requires k <= |history|
    ensures Times(history[k..], name) <= Times(history, name)
  {
    if k < |history| {
      var n := |history| - 1;
      TimesInRest(history[..n], k, name);
      assert history[k..][..|history[k..]| - 1] == history[..n][k..];
    }
  }

  /** Forgetting the oldest lines, as the saved history does, keeps this. */
  lemma PressesWithinRest(history: seq<Entry>, goal: string, k: nat)
    requires PressesWithin(history, goal) && k <= |history|
    ensures PressesWithin(history[k..], goal)
  {
    hide Times;
    hide Bound;
    var rest := history[k..];
    forall i | 0 <= i < |rest| && rest[i].guarded
      ensures Times(rest[..i + 1], rest[i].control) <= Bound(rest[i].control, goal)
    {
      assert rest[i] == history[k + i];
      assert rest[..i + 1] == history[..k + i + 1][k..];
      TimesInRest(history[..k + i + 1], k, rest[i].control);
    }
  }

  /** So a label that is only ever pressed under the guard is pressed at most as often as the goal names
      it, and never more than once when it does not. */
  lemma {:induction false} PressBound(history: seq<Entry>, goal: string, name: string)
    requires PressesWithin(history, goal)
    requires forall i | 0 <= i < |history| && Press(history[i], name) :: history[i].guarded
    ensures Times(history, name) <= Bound(name, goal)
  {
    hide Bound;
    if history != [] {
      var n := |history| - 1;
      if Press(history[n], name) {
        assert history[..n + 1] == history;
      } else {
        var before := history[..n];
        assert forall i | 0 <= i < n :: before[i] == history[i] && before[..i + 1] == history[..i + 1];
        PressBound(before, goal, name);
      }
    }
  }

  // ------------------------------------------------------------------- typing

  predicate Writes(d: Decision) {
    d.op == Some("set_text") || d.op == Some("type")
  }

  function TypedTimes(history: seq<Entry>, squashed: string): nat {
    if history == [] then 0
    else
      var h := history[|history| - 1];
      TypedTimes(history[..|history| - 1], squashed)
      + if h.ok && StartsWith(h.did, "type") && Squash(h.typed) == squashed then 1 else 0
  }

  function TypeBound(goal: string, text: string): nat {
    var words := Squash(text);
    var n := if words == "" then |Squash(goal)| + 1 else Count(Squash(goal), words);
    if n > 1 then n else 1
  }

  /** Typing adds text: the same words only as often as the goal holds them. */
  ghost predicate TypedOnce(before: seq<Entry>, h: Entry, goal: string, mask: string -> string) {
    exists text :: h.typed == mask(text)
      && (Trim(text) == "" || TypedTimes(before, Squash(mask(text))) < TypeBound(goal, text))
  }

  ghost predicate TypingWithin(history: seq<Entry>, goal: string, mask: string -> string) {
    forall i | 0 <= i < |history| ::
      history[i].ok && StartsWith(history[i].did, "type") ==> TypedOnce(history[..i], history[i], goal, mask)
  }

  lemma TypingWithinAppend(history: seq<Entry>, goal: string, mask: string -> string, h: Entry)
    requires TypingWithin(history, goal, mask)
    requires h.ok && StartsWith(h.did, "type") ==> TypedOnce(history, h, goal, mask)
    ensures TypingWithin(history + [h], goal, mask)
  {
    hide TypedOnce;
    var more := history + [h];
    assert more[..|history|] == history;
    assert forall i | 0 <= i < |history| :: more[..i] == history[..i] && more[i] == history[i];
  }

  lemma {:induction false} TypedTimesInRest(history: seq<Entry>, k: nat, words: string)
    requires k <= |history|
    ensures TypedTimes(history[k..], words) <= TypedTimes(history, words)
  {
    hide Squash;
    if k < |history| {
      var n := |history| - 1;
      TypedTimesInRest(history[..n], k, words);
      assert history[k..][..|history[k..]| - 1] == history[..n][k..];
    }
  }

  lemma TypingWithinRest(history: seq<Entry>, goal: string, mask: string -> string, k: nat)
    requires TypingWithin(history, goal, mask) && k <= |history|
    ensures TypingWithin(history[k..], goal, mask)
  {
    hide Squash;
    hide TypedTimes;
    hide Trim;
    hide TypeBound;
    var rest := history[k..];
    forall i | 0 <= i < |rest| && rest[i].ok && StartsWith(rest[i].did, "type")
      ensures TypedOnce(rest[..i], rest[i], goal, mask)
    {
      assert rest[i] == history[k + i];
      assert rest[..i] == history[..k + i][k..];
      assert TypedOnce(history[..k + i], history[k + i], goal, mask);
      var text :| rest[i].typed == mask(text)
        && (Trim(text) == "" || TypedTimes(history[..k + i], Squash(mask(text))) < TypeBound(goal, text));
      TypedTimesInRest(history[..k + i], k, Squash(mask(text)));
    }
  }

  lemma OnlyTypeTypes(op: string, rest: string)
    requires op in OPS && StartsWith(op + (" [" + rest), "type")
    ensures op == "type"
  {
    var did := op + (" [" + rest);
    assert did[..4] == "type";
    assert did[0] == 't' && did[1] == 'y';
    assert op[0] == did[0] && op[1] == did[1];
  }

  /** A text that no other text is masked to is typed at most as often as the goal holds it. */
  lemma {:induction false} TypeBoundHolds(history: seq<Entry>, goal: string, mask: string -> string, text: string)
    requires TypingWithin(history, goal, mask)
    requires Trim(text) != ""
    requires forall other :: Squash(mask(other)) == Squash(mask(text)) ==> Trim(other) != "" && Squash(other) == Squash(text)
    ensures TypedTimes(history, Squash(mask(text))) <= TypeBound(goal, text)
  {
    hide Squash;
    hide Trim;
    if history != [] {
      var n := |history| - 1;
      var before, h := history[..n], history[n];
      if h.ok && StartsWith(h.did, "type") && Squash(h.typed) == Squash(mask(text)) {
        assert TypedOnce(history[..n], history[n], goal, mask);
      } else {
        hide TypedOnce;
        assert forall i | 0 <= i < n :: before[i] == history[i] && before[..i] == history[..i];
        TypeBoundHolds(before, goal, mask, text);
      }
    }
  }
}
