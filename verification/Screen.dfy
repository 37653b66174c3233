/** What a look at a window can prove: the planner's expectations, and the texts Nova typed itself. */
module Screen {
  import opened Options
  import opened Strings
  import opened Text

  // ------------------------------------------------------------------- words

  /** One kind of line break, lower case. */
  function Norm(s: string): string {
    Lower(Replace(Replace(s, "\r\n", "\n"), "\r", "\n"))
  }

  const QUOTES := "'\"\U{2018}\U{2019}\U{201C}\U{201D}\U{AB}\U{BB}`"

  predicate Quoted(s: string) {
    |s| >= 2 && s[0] in QUOTES && s[|s| - 1] in QUOTES
  }

  function Peeled(s: string): (t: string)
    ensures !Quoted(t)
    decreases |s|
  {
    if Quoted(s) then Peeled(s[1..|s| - 1]) else s
  }

  function Unquoted(s: string): string {
    var t := Peeled(Trim(s));
    if Trim(t) != "" then t else s
  }

  method Unquote(s: string) returns (r: string)
    ensures r == Unquoted(s)
  {
    var t := Trim(s);
    while Quoted(t)
      invariant Peeled(t) == Peeled(Trim(s))
      decreases |t|
    {
      t := t[1..|t| - 1];
    }
    r := if Trim(t) != "" then t else s;
  }

  predicate Quote(c: char) {
    c in QUOTES
  }

  lemma {:induction false} PeelOne(opening: char, inner: string, closing: char)
    requires Quote(opening) && Quote(closing)
    ensures Peeled([opening] + inner + [closing]) == Peeled(inner)
  {
    var s := [opening] + inner + [closing];
    assert s[1..|s| - 1] == inner;
  }

  lemma {:induction false} Nested(opening: string, words: string, closing: string)
    requires |opening| == |closing| > 0
    ensures var n := |opening| - 1;
            opening + words + closing == [opening[0]] + (opening[1..] + words + closing[..n]) + [closing[n]]
  {
  }

  lemma {:induction false} PeeledIs(opening: string, words: string, closing: string)
    requires |opening| == |closing|
    requires forall i | 0 <= i < |opening| :: Quote(opening[i]) && Quote(closing[i])
    requires !Quoted(words)
    ensures Peeled(opening + words + closing) == words
    decreases |opening|
  {
    hide Quote;
    if opening == "" {
      assert opening + words + closing == words;
    } else {
      hide Quoted;
      hide Peeled;
      var n := |opening| - 1;
      Nested(opening, words, closing);
      PeelOne(opening[0], opening[1..] + words + closing[..n], closing[n]);
      PeeledIs(opening[1..], words, closing[..n]);
    }
  }

  lemma {:induction false} QuoteIsNoBlank(c: char)
    requires Quote(c)
    ensures !Space(c)
  {
  }

  /** Any number of quotes around the owner's words come off, with the blanks outside them, and nothing else
      does; but if nothing or blanks are left, all of it stays. */
  lemma {:induction false} UnquoteRecovers(before: string, opening: string, words: string, closing: string, after: string)
    requires Blank(before) && Blank(after) && |opening| == |closing|
    requires forall i | 0 <= i < |opening| :: Quote(opening[i]) && Quote(closing[i])
    requires !Quoted(words) && (opening == "" ==> Trimmed(words))
    ensures var all := before + (opening + words + closing) + after;
            Unquoted(all) == if Trim(words) != "" then words else all
  {
    var core := opening + words + closing;
    if opening != "" {
      QuoteIsNoBlank(opening[0]);
      QuoteIsNoBlank(closing[|closing| - 1]);
      assert core[0] == opening[0] && core[|core| - 1] == closing[|closing| - 1];
    } else {
      assert core == words;
    }
    TrimIs(before, core, after);
    PeeledIs(opening, words, closing);
    hide Trim;
    hide Peeled;
  }

  // --------------------------------------------------------------- the window

  datatype Element = Element(
    id: int, kind: string, name: string, value: string, tail: string, checked: Option<bool>, selected: bool)

  datatype Observation = Observation(title: string, elements: seq<Element>)

  function Shown(s: string): seq<string> {
    if s == "" then [] else [Lower(s)]
  }

  function ElementTexts(elements: seq<Element>): seq<string> {
    if elements == [] then []
    else
      var e := elements[0];
      Shown(e.name) + Shown(e.value) + Shown(e.tail) + ElementTexts(elements[1..])
  }

  function Texts(obs: Observation): seq<string> {
    Shown(obs.title) + ElementTexts(obs.elements)
  }

  predicate OnScreen(words: string, texts: seq<string>) {
    exists i | 0 <= i < |texts| :: Contains(texts[i], words)
  }

  /** Some text of the window holds the words: its title, or a control's name, value or tail, in lower case. */
  lemma {:induction false} OnScreenMeans(words: string, now: Observation)
    requires words != ""
    ensures OnScreen(words, Texts(now))
       <==> || Contains(Lower(now.title), words)
            || exists i | 0 <= i < |now.elements| :: TextOf(now.elements[i], words)
  {
    ElementsShow(words, now.elements);
    ShownHas(now.title, words);
    Either(words, Shown(now.title), ElementTexts(now.elements));
    hide Shown;
    hide Contains;
    hide TextOf;
  }

  predicate TextOf(e: Element, words: string) {
    Contains(Lower(e.name), words) || Contains(Lower(e.value), words) || Contains(Lower(e.tail), words)
  }

  lemma {:induction false} ShownHas(s: string, words: string)
    requires words != ""
    ensures OnScreen(words, Shown(s)) <==> Contains(Lower(s), words)
  {
    assert s != "" ==> Shown(s)[0] == Lower(s);
  }

  lemma {:induction false} Either(words: string, a: seq<string>, b: seq<string>)
    ensures OnScreen(words, a + b) <==> OnScreen(words, a) || OnScreen(words, b)
  {
    hide Contains;
    assert forall i | 0 <= i < |a| :: (a + b)[i] == a[i];
    assert forall i | 0 <= i < |b| :: (a + b)[|a| + i] == b[i];
    if i :| 0 <= i < |a + b| && Contains((a + b)[i], words) {
      assert if i < |a| then Contains(a[i], words) else Contains(b[i - |a|], words);
    }
  }

  lemma {:induction false} ElementsShow(words: string, elements: seq<Element>)
    requires words != ""
    ensures OnScreen(words, ElementTexts(elements)) <==> exists i | 0 <= i < |elements| :: TextOf(elements[i], words)
  {
    if elements != [] {
      var e := elements[0];
      ElementsShow(words, elements[1..]);
      ShownHas(e.name, words);
      ShownHas(e.value, words);
      ShownHas(e.tail, words);
      Either(words, Shown(e.name), Shown(e.value));
      Either(words, Shown(e.name) + Shown(e.value), Shown(e.tail));
      Either(words, Shown(e.name) + Shown(e.value) + Shown(e.tail), ElementTexts(elements[1..]));
      hide OnScreen;
      hide Shown;
      assert TextOf(e, words) <==> TextOf(elements[0], words);
      hide TextOf;
      assert forall i | 1 <= i < |elements| :: elements[i] == elements[1..][i - 1];
      if i :| 0 <= i < |elements[1..]| && TextOf(elements[1..][i], words) {
        assert TextOf(elements[i + 1], words);
      }
    }
  }

  // ------------------------------------------------- the planner's expectations

  /** One item of the planner's "expect" list; which fields it has is up to the planner. */
  datatype Expect =
    | Junk
    | Item(text: Option<string>, present: bool, control: Option<string>, selected: Option<bool>,
           checked: Option<bool>, value: Option<string>)

  datatype Grade = Skip | Holds | Fails

  const VALUE_TYPES := {"Edit", "ComboBox", "Document", "Spinner", "Slider"}

  function HitsOf(elements: seq<Element>, name: string): seq<Element> {
    if elements == [] then []
    else (if name != "" && Contains(Lower(elements[0].name), name) then [elements[0]] else []) + HitsOf(elements[1..], name)
  }

  predicate SomeSelected(hits: seq<Element>, want: bool) {
    exists i | 0 <= i < |hits| :: hits[i].selected == want
  }

  predicate HasState(hits: seq<Element>) {
    exists i | 0 <= i < |hits| :: hits[i].checked.Some?
  }

  predicate SomeChecked(hits: seq<Element>, want: bool) {
    exists i | 0 <= i < |hits| :: hits[i].checked == Some(want)
  }

  predicate HasValue(hits: seq<Element>) {
    exists i | 0 <= i < |hits| :: hits[i].value != "" || hits[i].kind in VALUE_TYPES
  }

  predicate SomeValue(hits: seq<Element>, want: string) {
    exists i | 0 <= i < |hits| :: Lower(Trim(hits[i].value)) == want
  }

  function Of(holds: bool): Grade {
    if holds then Holds else Fails
  }

  function Words(text: string): string {
    Lower(Trim(Unquoted(text)))
  }

  /** What an item says about the window `now`. A text that was already as wanted before Nova acted says
      nothing; nor does a state the control does not have. */
  function GradeOf(item: Expect, now: Observation, before: Option<Observation>): Grade {
    if item.Junk? then Skip
    else if item.text.Some? then
      var words := Words(item.text.value);
      if words == "" then Skip
      else if before.Some? && OnScreen(words, Texts(before.value)) == item.present then Skip
      else Of(OnScreen(words, Texts(now)) == item.present)
    else if item.control.None? then Skip
    else
      var hits := HitsOf(now.elements, Lower(Trim(item.control.value)));
      if hits == [] then Fails
      else if item.selected.Some? then Of(SomeSelected(hits, item.selected.value))
      else if item.checked.Some? then if HasState(hits) then Of(SomeChecked(hits, item.checked.value)) else Skip
      else if item.value.Some? then
        if HasValue(hits) then Of(SomeValue(hits, Lower(Trim(item.value.value)))) else Skip
      else Skip
  }

  /** A text item that holds is a change: the text was not as wanted before Nova acted, and now it is. */
  lemma {:induction false} TextProofIsAChange(item: Expect, now: Observation, before: Observation)
    requires item.Item? && item.text.Some?
    ensures GradeOf(item, now, Some(before)) == Holds
       <==> && Words(item.text.value) != ""
            && OnScreen(Words(item.text.value), Texts(before)) != item.present
            && OnScreen(Words(item.text.value), Texts(now)) == item.present
  {
    hide OnScreen;
    hide Texts;
    hide Words;
  }

  /** A screen that shows the same texts as before proves no list of texts. */
  lemma {:induction false} UnchangedProvesNothing(items: seq<Expect>, now: Observation, before: Observation)
    requires forall i | 0 <= i < |items| :: items[i].Item? && items[i].text.Some?
    requires Texts(now) == Texts(before)
    ensures !Expected(items, now, Some(before), Some(true))
  {
    hide Texts;
    hide OnScreen;
    hide Words;
    forall i | 0 <= i < |items| ensures GradeOf(items[i], now, Some(before)) != Holds {
      TextProofIsAChange(items[i], now, before);
    }
    hide GradeOf;
  }

  /** What may be wanted of a control. */
  datatype State = Present | Selected(want: bool) | Checkable | Checked(want: bool) | Valued | Value(words: string)

  predicate Meets(e: Element, s: State) {
    match s
    case Present => true
    case Selected(want) => e.selected == want
    case Checkable => e.checked.Some?
    case Checked(want) => e.checked == Some(want)
    case Valued => e.value != "" || e.kind in VALUE_TYPES
    case Value(words) => Lower(Trim(e.value)) == words
  }

  predicate NameHolds(e: Element, name: string) {
    Contains(Lower(e.name), name)
  }

  /** Some control whose name holds the label is in that state. */
  ghost predicate SomeNamed(elements: seq<Element>, name: string, s: State) {
    exists i | 0 <= i < |elements| :: NameHolds(elements[i], name) && Meets(elements[i], s)
  }

  ghost predicate SomeHit(hits: seq<Element>, s: State) {
    exists h | 0 <= h < |hits| :: Meets(hits[h], s)
  }

  lemma {:induction false} SomeNamedFirst(elements: seq<Element>, name: string, s: State)
    requires elements != []
    ensures SomeNamed(elements, name, s)
       <==> (NameHolds(elements[0], name) && Meets(elements[0], s)) || SomeNamed(elements[1..], name, s)
  {
    hide NameHolds;
    hide Meets;
    var rest := elements[1..];
    if i :| 0 <= i < |rest| && NameHolds(rest[i], name) && Meets(rest[i], s) {
      assert elements[i + 1] == rest[i];
    }
    if i :| 0 <= i < |elements| && NameHolds(elements[i], name) && Meets(elements[i], s) {
      assert i > 0 ==> rest[i - 1] == elements[i];
    }
  }

  lemma {:induction false} SomeHitFirst(e: Element, rest: seq<Element>, s: State)
    ensures SomeHit([e] + rest, s) <==> Meets(e, s) || SomeHit(rest, s)
  {
    hide Meets;
    var hits := [e] + rest;
    if h :| 0 <= h < |rest| && Meets(rest[h], s) {
      assert hits[h + 1] == rest[h];
    }
    assert hits[0] == e;
  }

  /** An item finds exactly the controls whose name holds its label. */
  lemma {:induction false} HitsAreNamed(elements: seq<Element>, name: string, s: State)
    requires name != ""
    ensures SomeHit(HitsOf(elements, name), s) <==> SomeNamed(elements, name, s)
  {
    if elements != [] {
      var rest := HitsOf(elements[1..], name);
      HitsAreNamed(elements[1..], name, s);
      SomeNamedFirst(elements, name, s);
      SomeHitFirst(elements[0], rest, s);
      assert HitsOf(elements, name) == if NameHolds(elements[0], name) then [elements[0]] + rest else rest;
      hide HitsOf;
      hide SomeNamed;
      hide SomeHit;
    }
  }

  /** What an item about a control says: a control that is not there fails it, whatever was expected of it; one
      control of that name in the state wanted is enough; and a state none of them has says nothing. */
  lemma {:induction false} ControlProof(item: Expect, now: Observation, before: Option<Observation>)
    requires item.Item? && item.text.None? && item.control.Some? && Lower(Trim(item.control.value)) != ""
    ensures GradeOf(item, now, before) == ControlGrade(item, now.elements, Lower(Trim(item.control.value)))
  {
    var name := Lower(Trim(item.control.value));
    var hits := HitsOf(now.elements, name);
    forall s ensures SomeHit(hits, s) <==> SomeNamed(now.elements, name, s) {
      HitsAreNamed(now.elements, name, s);
    }
    hide HitsOf;
    hide SomeNamed;
    assert hits != [] ==> Meets(hits[0], Present);
    assert hits == [] <==> !SomeHit(hits, Present);
    if item.selected.Some? {
      assert SomeSelected(hits, item.selected.value) <==> SomeHit(hits, Selected(item.selected.value));
    }
    assert HasState(hits) <==> SomeHit(hits, Checkable);
    if item.checked.Some? {
      assert SomeChecked(hits, item.checked.value) <==> SomeHit(hits, Checked(item.checked.value));
    }
    assert HasValue(hits) <==> SomeHit(hits, Valued);
    if item.value.Some? {
      var want := Lower(Trim(item.value.value));
      hide Trim;
      hide Lower;
      assert SomeValue(hits, want) <==> SomeHit(hits, Value(want));
    }
  }

  /** The same on the controls themselves. */
  ghost function ControlGrade(item: Expect, elements: seq<Element>, name: string): Grade
    requires item.Item?
  {
    if !SomeNamed(elements, name, Present) then Fails
    else if item.selected.Some? then Of(SomeNamed(elements, name, Selected(item.selected.value)))
    else if item.checked.Some? then
      if SomeNamed(elements, name, Checkable) then Of(SomeNamed(elements, name, Checked(item.checked.value))) else Skip
    else if item.value.Some? then
      if SomeNamed(elements, name, Valued) then Of(SomeNamed(elements, name, Value(Lower(Trim(item.value.value))))) else Skip
    else Skip
  }

  /** True when every item that says anything holds and at least one does, false when one fails, and
      nothing when none says anything -- of the first eight. */
  ghost predicate Expected(items: seq<Expect>, now: Observation, before: Option<Observation>, r: Option<bool>) {
    var n := if |items| < 8 then |items| else 8;
    && (r == None <==> forall i | 0 <= i < n :: GradeOf(items[i], now, before) == Skip)
    && (r == Some(false) <==> exists i | 0 <= i < n :: GradeOf(items[i], now, before) == Fails)
    && (r == Some(true) <==>
          && (forall i | 0 <= i < n :: GradeOf(items[i], now, before) != Fails)
          && (exists i | 0 <= i < n :: GradeOf(items[i], now, before) == Holds))
  }

  method CheckExpect(items: seq<Expect>, now: Observation, before: Option<Observation>) returns (r: Option<bool>)
    ensures Expected(items, now, before, r)
  {
    hide GradeOf;
    var n := if |items| < 8 then |items| else 8;
    var holds, checked := true, 0;
    for i := 0 to n
      invariant checked == 0 <==> forall k | 0 <= k < i :: GradeOf(items[k], now, before) == Skip
      invariant holds <==> forall k | 0 <= k < i :: GradeOf(items[k], now, before) != Fails
    {
      var grade := GradeOf(items[i], now, before);
      if grade == Skip {
        continue;
      }
      checked := checked + 1;
      holds := holds && grade == Holds;
    }
    if checked == 0 {
      return None;
    }
    r := Some(holds);
  }

  // ------------------------------------------------------- what Nova typed itself

  datatype Place = Anywhere | NewLine | LineEnd(n: nat) | LineStart(n: nat)

  /** One line of the history: what was done, whether it worked, on which control, and what was typed.
      `guarded`, which only the specification reads, says whether the press guard had seen it. */
  datatype Entry = Entry(did: string, ok: bool, control: string, typed: string, at: Place, guarded: bool)

  const MASKED := "\U{2022}\U{2022}\U{2022}"

  predicate Tells(h: Entry) {
    h.ok && h.typed != "" && !Contains(h.typed, MASKED)
  }

  predicate Replaces(h: Entry) {
    StartsWith(h.did, "set_text")
  }

  function Key(h: Entry): string {
    if h.control != "" then h.control else h.did
  }

  /** A text set into a field counts until another text is set into the same field. */
  ghost predicate Counted(history: seq<Entry>, i: nat) {
    && i < |history| && Tells(history[i])
    && (Replaces(history[i]) ==>
          forall j | i < j < |history| :: !(Tells(history[j]) && Replaces(history[j]) && Key(history[j]) == Key(history[i])))
  }

  function NormAll(texts: seq<string>): seq<string> {
    if texts == [] then [] else [Norm(texts[0])] + NormAll(texts[1..])
  }

  /** The texts of the controls: all texts but the first, which is the title's. */
  function Inside(obs: Observation): seq<string> {
    var texts := Texts(obs);
    NormAll(if texts == [] then [] else texts[1..])
  }

  function Most(texts: seq<string>, text: string): nat
    requires text != ""
  {
    if texts == [] then 0
    else
      var rest := Most(texts[1..], text);
      var n := Count(texts[0], text);
      if n > rest then n else rest
  }

  predicate Unreadable(obs: Observation) {
    exists i | 0 <= i < |obs.elements| :: obs.elements[i].kind == "Pane" && obs.elements[i].name == ""
  }

  function Asked(goal: string, text: string): nat
    requires text != ""
  {
    var n := Count(Norm(goal), text);
    if n > 1 then n else 1
  }

  /** Line n of the text, from 1; 0 is the last line. */
  predicate FitsLine(t: string, n: nat, text: string, end: bool) {
    var lines := Split(t);
    |lines| >= n
    && var line := lines[if n == 0 then |lines| - 1 else n - 1];
       if end then EndsWith(TrimRight(line), text) else StartsWith(TrimLeft(line), text)
  }

  predicate Fits(texts: seq<string>, n: nat, text: string, end: bool) {
    exists i | 0 <= i < |texts| :: FitsLine(texts[i], n, text, end)
  }

  predicate Misplaced(texts: seq<string>, text: string, at: Place) {
    match at
    case Anywhere => false
    case NewLine => !OnScreen("\n" + text, texts)
    case LineEnd(n) => !Fits(texts, n, text, true)
    case LineStart(n) => !Fits(texts, n, text, false)
  }

  function Body(h: Entry): string {
    Trim(Norm(h.typed))
  }

  function Earlier(before: Option<Observation>): seq<string> {
    if before.Some? then Inside(before.value) else []
  }

  /** The window contradicts this text: it is missing, there too often, or in the wrong place. */
  predicate Wrong(text: string, at: Place, now: Observation, before: Option<Observation>, goal: string) {
    text != "" && (WrongCount(text, now, before, goal) || WrongPlace(text, at, now))
  }

  predicate WrongCount(text: string, now: Observation, before: Option<Observation>, goal: string)
    requires text != ""
  {
    var count := Most(Inside(now), text);
    if count == 0 then !Unreadable(now) else count - Most(Earlier(before), text) > Asked(goal, text)
  }

  predicate WrongPlace(text: string, at: Place, now: Observation)
    requires text != ""
  {
    OnScreen(text, Inside(now)) && Misplaced(Inside(now), text, at)
  }

  /** The window cannot tell. */
  predicate Open(text: string, now: Observation) {
    text != "" && Most(Inside(now), text) == 0 && Unreadable(now)
  }

  ghost predicate AnyWrong(history: seq<Entry>, now: Observation, before: Option<Observation>, goal: string) {
    exists i: nat :: Counted(history, i) && Wrong(Body(history[i]), history[i].at, now, before, goal)
  }

  ghost predicate AnyOpen(history: seq<Entry>, now: Observation) {
    exists i: nat :: Counted(history, i) && Open(Body(history[i]), now)
  }

  ghost predicate AnyTyped(history: seq<Entry>) {
    exists i: nat :: Counted(history, i)
  }

  /** What the typed texts prove about the window. */
  ghost predicate Proved(history: seq<Entry>, now: Observation, before: Option<Observation>, goal: string, r: Option<bool>) {
    r == if !AnyTyped(history) then None
         else if AnyWrong(history, now, before, goal) then Some(false)
         else if AnyOpen(history, now) then None
         else Some(true)
  }

  /** The entries that count, as the code collects them: the typed ones, then the last of each field. */
  method Collect(history: seq<Entry>) returns (typed: seq<nat>)
    ensures forall k | 0 <= k < |typed| :: Counted(history, typed[k])
    ensures forall k | 0 <= k < |typed| :: typed[k] < |history|
    ensures forall i | Counted(history, i) :: i in typed
  {
    hide Tells;
    hide Replaces;
    hide Key;
    typed := [];
    var latest: map<string, nat> := map[];
    for i := 0 to |history|
      invariant forall k | 0 <= k < |typed| :: typed[k] < i && Tells(history[typed[k]]) && !Replaces(history[typed[k]])
      invariant forall j | 0 <= j < i && Tells(history[j]) && !Replaces(history[j]) :: j in typed
      invariant forall key | key in latest ::
                  latest[key] < i && Tells(history[latest[key]]) && Replaces(history[latest[key]]) && Key(history[latest[key]]) == key
      invariant forall j | 0 <= j < i && Tells(history[j]) && Replaces(history[j]) ::
                  Key(history[j]) in latest && j <= latest[Key(history[j])]
    {
      var h := history[i];
      if !Tells(h) {
        continue;
      }
      if Replaces(h) {
        latest := latest[Key(h) := i];
      } else {
        typed := typed + [i];
      }
    }
    var keys := latest.Keys;
    while keys != {}
      invariant keys <= latest.Keys
      invariant forall k | 0 <= k < |typed| :: Counted(history, typed[k])
      invariant forall j | 0 <= j < |history| && Tells(history[j]) && !Replaces(history[j]) :: j in typed
      invariant forall key | key in latest && key !in keys :: latest[key] in typed
      decreases |keys|
    {
      var key :| key in keys;
      keys := keys - {key};
      typed := typed + [latest[key]];
    }
  }

  predicate Miscounted(h: Entry, now: Observation, before: Option<Observation>, goal: string) {
    Body(h) != "" && WrongCount(Body(h), now, before, goal)
  }

  predicate Mislaid(h: Entry, now: Observation) {
    Body(h) != "" && WrongPlace(Body(h), h.at, now)
  }

  predicate Undecided(h: Entry, now: Observation) {
    Open(Body(h), now)
  }

  ghost predicate SomeMiscounted(typed: seq<Entry>, n: nat, now: Observation, before: Option<Observation>, goal: string) {
    exists m | 0 <= m < n <= |typed| :: Miscounted(typed[m], now, before, goal)
  }

  ghost predicate SomeMislaid(typed: seq<Entry>, n: nat, now: Observation) {
    exists m | 0 <= m < n <= |typed| :: Mislaid(typed[m], now)
  }

  ghost predicate SomeUndecided(typed: seq<Entry>, n: nat, now: Observation) {
    exists m | 0 <= m < n <= |typed| :: Undecided(typed[m], now)
  }

  /** The two passes over the typed texts: how often each is there, and where. */
  method Compare(typed: seq<Entry>, now: Observation, before: Option<Observation>, goal: string) returns (r: Option<bool>)
    ensures r == if SomeMiscounted(typed, |typed|, now, before, goal) || SomeMislaid(typed, |typed|, now) then Some(false)
                 else if SomeUndecided(typed, |typed|, now) then None
                 else Some(true)
  {
    hide Miscounted;
    hide Mislaid;
    hide Undecided;
    r := Some(true);
    for k := 0 to |typed|
      invariant r == if SomeMiscounted(typed, k, now, before, goal) then Some(false)
                     else if SomeUndecided(typed, k, now) then None
                     else Some(true)
    {
      var undecided, wrong := CountOne(typed[k], now, before, goal);
      if undecided {
        r := if r != Some(false) then None else Some(false);
      } else if wrong {
        r := Some(false);
      }
    }
    for k := 0 to |typed|
      invariant r == if SomeMiscounted(typed, |typed|, now, before, goal) || SomeMislaid(typed, k, now) then Some(false)
                     else if SomeUndecided(typed, |typed|, now) then None
                     else Some(true)
    {
      if Mislaid(typed[k], now) {
        r := Some(false);
      }
    }
  }

  method CountOne(h: Entry, now: Observation, before: Option<Observation>, goal: string) returns (undecided: bool, wrong: bool)
    ensures undecided == Undecided(h, now) && wrong == Miscounted(h, now, before, goal)
    ensures !(undecided && wrong)
  {
    hide Most;
    hide Body;
    hide Inside;
    hide Unreadable;
    var text := Body(h);
    if text == "" {
      return false, false;
    }
    var count: int, had: int, asked: int := Most(Inside(now), text), Most(Earlier(before), text), Asked(goal, text);
    if count == 0 && Unreadable(now) {
      return true, false;
    } else if count == 0 {
      return false, true;
    }
    return false, count - had > asked;
  }

  method TypedProofs(history: seq<Entry>, now: Observation, before: Option<Observation>, goal: string) returns (r: Option<bool>)
    ensures Proved(history, now, before, goal, r)
  {
    var at := Collect(history);
    var typed: seq<Entry> := [];
    for k := 0 to |at|
      invariant |typed| == k && forall m | 0 <= m < k :: at[m] < |history| && typed[m] == history[at[m]]
    {
      typed := typed + [history[at[k]]];
    }
    hide Counted;
    hide WrongCount;
    hide WrongPlace;
    hide Open;
    hide Body;
    r := None;
    if typed != [] {
      r := Compare(typed, now, before, goal);
    }
    SameFindings(history, at, typed, now, before, goal);
  }

  lemma SameFindings(history: seq<Entry>, at: seq<nat>, typed: seq<Entry>, now: Observation, before: Option<Observation>, goal: string)
    requires |typed| == |at| && forall k | 0 <= k < |at| :: at[k] < |history| && typed[k] == history[at[k]]
    requires forall k | 0 <= k < |at| :: Counted(history, at[k])
    requires forall i | Counted(history, i) :: i in at
    ensures AnyTyped(history) <==> typed != []
    ensures AnyWrong(history, now, before, goal)
       <==> SomeMiscounted(typed, |typed|, now, before, goal) || SomeMislaid(typed, |typed|, now)
    ensures AnyOpen(history, now) <==> SomeUndecided(typed, |typed|, now)
  {
    hide Counted;
    hide WrongCount;
    hide WrongPlace;
    hide Open;
    hide Body;
    if typed != [] {
      assert Counted(history, at[0]);
    }
    forall k | 0 <= k < |at|
      ensures Counted(history, at[k])
           && (Wrong(Body(history[at[k]]), history[at[k]].at, now, before, goal)
               <==> Miscounted(typed[k], now, before, goal) || Mislaid(typed[k], now))
    {
    }
  }
}
