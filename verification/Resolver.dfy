/** From a spoken or typed app name to an installed app: the best match of each app over all word pieces and
    aliases, ranked; the decision whether the best one is sure; and the question when it is not.

    The sound key of a phrase and the similarity of two keys are parameters. Apps are numbered in the order
    of their ids. */
module Resolver {
  import opened Options

  const SURE := 0.86
  const ASK := 0.66
  const MARGIN := 0.06
  const RIVAL := 0.8
  const PENDING_SECONDS := 300.0
  const CORRECTION_SECONDS := 900.0

  datatype Alias = Alias(app: int, norm: string, key: string)

  datatype Match = Match(app: int, score: real, phrase: string)

  datatype Ear = Ear(key: string -> string, similarity: (string, string) -> real)

  // --------------------------------------------------------------- candidates

  function Join(words: seq<string>): string {
    if words == [] then "" else if |words| == 1 then words[0] else words[0] + " " + Join(words[1..])
  }

  function Windows(words: seq<string>, n: nat): seq<string>
    decreases |words|
  {
    if |words| < n || words == [] then [] else [Join(words[..n])] + Windows(words[1..], n)
  }

  /** Every piece of one to four words, or the whole. */
  function Pieces(words: seq<string>, whole: bool): seq<string> {
    if whole && words != [] then [Join(words)]
    else Windows(words, 1) + Windows(words, 2) + Windows(words, 3) + Windows(words, 4)
  }

  function ScoreOf(ear: Ear, piece: string, a: Alias): Option<real> {
    var key := ear.key(piece);
    if piece == a.norm then Some(1.0)
    else if |key| < 3 || |a.key| < 3 then
      if key == "" || key != a.key || |piece| < 2 then None else Some(0.97)
    else
      var s := ear.similarity(key, a.key);
      if s < ASK - 0.1 then None else if s == 1.0 then Some(0.97) else Some(s)
  }

  /** Similarities are shares. */
  ghost predicate Sane(ear: Ear) {
    forall a, b :: 0.0 <= ear.similarity(a, b) <= 1.0
  }

  /** Either key is too short to be compared by its sound. */
  predicate Short(ear: Ear, piece: string, a: Alias) {
    |ear.key(piece)| < 3 || |a.key| < 3
  }

  /** What the score means: the very words are certain and nothing else is; short keys must be equal; and of longer
      ones those alike enough count, the more the more alike. */
  lemma {:induction false} ScoreMeans(ear: Ear, piece: string, a: Alias)
    requires Sane(ear)
    ensures ScoreOf(ear, piece, a) == Some(1.0) <==> piece == a.norm
    ensures ScoreOf(ear, piece, a).Some? ==> ASK - 0.1 <= ScoreOf(ear, piece, a).value <= 1.0
    ensures piece != a.norm && Short(ear, piece, a) ==>
              (ScoreOf(ear, piece, a).Some? <==> ear.key(piece) == a.key && a.key != "" && |piece| >= 2)
    ensures piece != a.norm && !Short(ear, piece, a) ==>
              (ScoreOf(ear, piece, a).Some? <==> ear.similarity(ear.key(piece), a.key) >= ASK - 0.1)
  {
  }

  lemma {:induction false} MoreAlikeScoresMore(ear: Ear, piece: string, a: Alias, b: Alias)
    requires piece != a.norm && piece != b.norm && !Short(ear, piece, a) && !Short(ear, piece, b)
    requires ScoreOf(ear, piece, a).Some? && ScoreOf(ear, piece, b).Some?
    requires ear.similarity(ear.key(piece), a.key) <= ear.similarity(ear.key(piece), b.key) < 1.0
    ensures ScoreOf(ear, piece, a).value <= ScoreOf(ear, piece, b).value
  {
  }

  /** A candidate is an alias that some piece sounds like, with that score. */
  ghost predicate Heard(ear: Ear, pieces: seq<string>, index: seq<Alias>, c: Match, g: nat, i: nat) {
    && g < |pieces| && i < |index| && c.app == index[i].app && c.phrase == pieces[g]
    && ScoreOf(ear, pieces[g], index[i]) == Some(c.score)
  }

  lemma {:induction false} OnePieceHears(ear: Ear, piece: string, index: seq<Alias>, c: Match)
    ensures c in OnePiece(ear, piece, index) <==> exists i: nat :: Heard(ear, [piece], index, c, 0, i)
  {
    hide ScoreOf;
    if index != [] {
      var n := |index| - 1;
      OnePieceHears(ear, piece, index[..n], c);
      var score := ScoreOf(ear, piece, index[n]);
      if i: nat :| Heard(ear, [piece], index[..n], c, 0, i) {
        assert Heard(ear, [piece], index, c, 0, i);
      }
      if i: nat :| Heard(ear, [piece], index, c, 0, i) {
        assert i < n ==> Heard(ear, [piece], index[..n], c, 0, i);
      }
      if score.Some? && c == Match(index[n].app, score.value, piece) {
        assert Heard(ear, [piece], index, c, 0, n);
      }
    }
  }

  lemma {:induction false} CandidatesAre(ear: Ear, pieces: seq<string>, index: seq<Alias>, c: Match)
    ensures c in Candidates(ear, pieces, index) <==> exists g: nat, i: nat :: Heard(ear, pieces, index, c, g, i)
  {
    hide ScoreOf;
    if pieces != [] {
      var n := |pieces| - 1;
      CandidatesAre(ear, pieces[..n], index, c);
      OnePieceHears(ear, pieces[n], index, c);
      hide OnePiece;
      if g: nat, i: nat :| Heard(ear, pieces[..n], index, c, g, i) {
        assert Heard(ear, pieces, index, c, g, i);
      }
      if i: nat :| Heard(ear, [pieces[n]], index, c, 0, i) {
        assert Heard(ear, pieces, index, c, n, i);
      }
      if g: nat, i: nat :| Heard(ear, pieces, index, c, g, i) {
        assert if g < n then Heard(ear, pieces[..n], index, c, g, i) else Heard(ear, [pieces[n]], index, c, 0, i);
      }
    }
  }

  /** The n words from the k-th on, joined. */
  predicate IsRun(words: seq<string>, k: nat, n: nat, p: string) {
    k + n <= |words| && p == Join(words[k..k + n])
  }

  lemma {:induction false} RunOfRest(words: seq<string>, k: nat, n: nat, p: string)
    requires words != []
    ensures IsRun(words, k + 1, n, p) <==> IsRun(words[1..], k, n, p)
  {
    hide Join;
    if k + 1 + n <= |words| {
      assert words[1..][k..k + n] == words[k + 1..k + 1 + n];
    }
  }

  lemma {:induction false} WindowsAre(words: seq<string>, n: nat, p: string)
    requires n > 0
    ensures p in Windows(words, n) <==> exists k: nat :: IsRun(words, k, n, p)
    decreases |words|
  {
    if |words| >= n {
      WindowsAre(words[1..], n, p);
      assert p == Join(words[..n]) <==> IsRun(words, 0, n, p) by { assert words[..n] == words[0..0 + n]; }
      assert p in Windows(words, n) <==> IsRun(words, 0, n, p) || p in Windows(words[1..], n);
      hide Windows;
      hide IsRun;
      if k: nat :| IsRun(words[1..], k, n, p) {
        RunOfRest(words, k, n, p);
      }
      if k: nat :| IsRun(words, k, n, p) {
        if k > 0 {
          RunOfRest(words, k - 1, n, p);
        }
      }
    }
  }

  /** The pieces are the runs of one to four words -- or all the words, when the whole is meant. */
  lemma {:induction false} PiecesAre(words: seq<string>, whole: bool, p: string)
    requires words != []
    ensures p in Pieces(words, whole)
       <==> if whole then p == Join(words) else exists n: nat, k: nat :: IsRun(words, k, n, p) && 1 <= n <= 4
  {
    WindowsAre(words, 1, p);
    WindowsAre(words, 2, p);
    WindowsAre(words, 3, p);
    WindowsAre(words, 4, p);
    hide Windows;
    hide IsRun;
    hide Join;
    if n: nat, k: nat :| IsRun(words, k, n, p) && 1 <= n <= 4 {
      assert n == 1 || n == 2 || n == 3 || n == 4;
    }
  }

  function OnePiece(ear: Ear, piece: string, index: seq<Alias>): seq<Match> {
    if index == [] then []
    else
      var n := |index| - 1;
      var score := ScoreOf(ear, piece, index[n]);
      OnePiece(ear, piece, index[..n]) + if score.Some? then [Match(index[n].app, score.value, piece)] else []
  }

  /** Every alias that any piece sounds like. */
  function Candidates(ear: Ear, pieces: seq<string>, index: seq<Alias>): seq<Match> {
    if pieces == [] then []
    else Candidates(ear, pieces[..|pieces| - 1], index) + OnePiece(ear, pieces[|pieces| - 1], index)
  }

  // ------------------------------------------------------------------ ranking

  /** Sounds better, or as good with a longer phrase. */
  predicate Better(m: Match, n: Match) {
    m.score > n.score || (m.score == n.score && |m.phrase| > |n.phrase|)
  }

  predicate Before(m: Match, n: Match) {
    Better(m, n) || (!Better(n, m) && m.app < n.app)
  }

  function EntryOf(ms: seq<Match>, app: int): Option<Match> {
    if ms == [] then None else if ms[0].app == app then Some(ms[0]) else EntryOf(ms[1..], app)
  }

  lemma {:induction false} EntryAt(ms: seq<Match>, app: int) returns (i: nat)
    requires EntryOf(ms, app).Some?
    ensures i < |ms| && ms[i] == EntryOf(ms, app).value && ms[i].app == app
  {
    if ms[0].app == app {
      i := 0;
    } else {
      i := EntryAt(ms[1..], app);
      i := i + 1;
    }
  }

  lemma {:induction false} EntryFound(ms: seq<Match>, i: nat)
    requires i < |ms| && forall j, k | 0 <= j < k < |ms| :: ms[j].app != ms[k].app
    ensures EntryOf(ms, ms[i].app) == Some(ms[i])
  {
    if i > 0 {
      EntryFound(ms[1..], i - 1);
    }
  }

  /** One entry per app that has a candidate, its best, in descending order. */
  ghost predicate Ranked(ms: seq<Match>, all: seq<Match>) {
    && (forall i, j | 0 <= i < j < |ms| :: Before(ms[i], ms[j]) && ms[i].app != ms[j].app)
    && (forall i | 0 <= i < |ms| :: ms[i] in all)
    && (forall c | c in all :: EntryOf(ms, c.app).Some? && !Better(c, EntryOf(ms, c.app).value))
  }

  ghost predicate BestOf(best: map<int, Match>, all: seq<Match>) {
    && (forall a | a in best :: best[a].app == a && best[a] in all)
    && (forall c | c in all :: c.app in best && !Better(c, best[c.app]))
  }

  lemma {:induction false} BestStep(best: map<int, Match>, all: seq<Match>, m: Match)
    requires BestOf(best, all)
    ensures BestOf(if m.app !in best || Better(m, best[m.app]) then best[m.app := m] else best, all + [m])
  {
  }

  /** A sorted list with one entry per app. */
  ghost predicate Sorted(ms: seq<Match>) {
    forall i, j | 0 <= i < j < |ms| :: Before(ms[i], ms[j]) && ms[i].app != ms[j].app
  }

  lemma {:induction false} BeforeIsAnOrder(a: Match, b: Match, c: Match)
    ensures Before(a, b) && Before(b, c) ==> Before(a, c)
    ensures a.app != b.app && !Before(a, b) ==> Before(b, a)
  {
  }

  lemma {:induction false} InsertedIsSorted(ms: seq<Match>, m: Match, k: nat)
    requires Sorted(ms) && k <= |ms|
    requires forall i | 0 <= i < |ms| :: ms[i].app != m.app
    requires forall i | 0 <= i < k :: Before(ms[i], m)
    requires k < |ms| ==> Before(m, ms[k])
    ensures Sorted(ms[..k] + [m] + ms[k..])
  {
    var more := ms[..k] + [m] + ms[k..];
    if k < |ms| {
      forall j | k < j < |ms| ensures Before(m, ms[j]) {
        BeforeIsAnOrder(m, ms[k], ms[j]);
      }
    }
    hide Before;
    forall i, j | 0 <= i < j < |more| ensures Before(more[i], more[j]) && more[i].app != more[j].app {
      assert more[i] == if i < k then ms[i] else if i == k then m else ms[i - 1];
      assert more[j] == if j < k then ms[j] else if j == k then m else ms[j - 1];
    }
  }

  /** Where m belongs in a sorted list. */
  method Place(ms: seq<Match>, m: Match) returns (k: nat)
    requires Sorted(ms) && forall i | 0 <= i < |ms| :: ms[i].app != m.app
    ensures k <= |ms| && Sorted(ms[..k] + [m] + ms[k..])
  {
    k := 0;
    while k < |ms| && Before(ms[k], m)
      invariant k <= |ms| && forall i | 0 <= i < k :: Before(ms[i], m)
    {
      k := k + 1;
    }
    if k < |ms| {
      BeforeIsAnOrder(ms[k], m, m);
    }
    InsertedIsSorted(ms, m, k);
  }

  method Rank(ear: Ear, words: seq<string>, whole: bool, index: seq<Alias>) returns (ms: seq<Match>)
    ensures Ranked(ms, Candidates(ear, Pieces(words, whole), index))
  {
    hide BestOf;
    hide Ranked;
    hide OnePiece;
    var pieces := Pieces(words, whole);
    hide Pieces;
    var best: map<int, Match> := map[];
    EmptyBest();
    for g := 0 to |pieces|
      invariant BestOf(best, Candidates(ear, pieces[..g], index))
    {
      best := AddPiece(ear, pieces[g], index, best, Candidates(ear, pieces[..g], index));
      assert pieces[..g + 1][..g] == pieces[..g];
    }
    assert pieces[..|pieces|] == pieces;
    ms := Sort(best, Candidates(ear, pieces, index));
  }

  lemma {:induction false} EmptyBest()
    ensures BestOf(map[], [])
  {
  }

  method AddPiece(ear: Ear, piece: string, index: seq<Alias>, before: map<int, Match>, ghost all: seq<Match>)
    returns (best: map<int, Match>)
    requires BestOf(before, all)
    ensures BestOf(best, all + OnePiece(ear, piece, index))
  {
    hide BestOf;
    hide ScoreOf;
    hide Better;
    best := before;
    assert index[..0] == [] && all + [] == all;
    for i := 0 to |index|
      invariant BestOf(best, all + OnePiece(ear, piece, index[..i]))
    {
      ghost var sofar := all + OnePiece(ear, piece, index[..i]);
      assert index[..i + 1][..i] == index[..i];
      var score := ScoreOf(ear, piece, index[i]);
      if score.None? {
        assert OnePiece(ear, piece, index[..i + 1]) == OnePiece(ear, piece, index[..i]) + [];
        assert OnePiece(ear, piece, index[..i]) + [] == OnePiece(ear, piece, index[..i]);
        continue;
      }
      var m := Match(index[i].app, score.value, piece);
      assert all + OnePiece(ear, piece, index[..i + 1]) == sofar + [m];
      BestStep(best, sofar, m);
      if m.app !in best || Better(m, best[m.app]) {
        best := best[m.app := m];
      }
    }
    assert index[..|index|] == index;
  }

  method Sort(best: map<int, Match>, ghost all: seq<Match>) returns (ms: seq<Match>)
    requires BestOf(best, all)
    ensures Ranked(ms, all)
  {
    ms := [];
    var left := best.Keys;
    while left != {}
      invariant left <= best.Keys && Sorted(ms) && Moved(ms, best, left)
      decreases |left|
    {
      SomeLeft(left);
      var a :| a in left;
      hide BestOf;
      hide Sorted;
      MovedFacts(ms, best, left, a);
      hide Moved;
      var k := Place(ms, best[a]);
      MoveOne(ms, best, left, a, k);
      ms := ms[..k] + [best[a]] + ms[k..];
      left := left - {a};
    }
    SortedIsRanked(ms, best, all);
  }

  lemma SomeLeft(left: set<int>)
    requires left != {}
    ensures exists a :: a in left
  {
    assert (forall a :: a !in left) ==> left == {};
  }

  /** The entries that were moved into the list, and those that are left. */
  ghost predicate Moved(ms: seq<Match>, best: map<int, Match>, left: set<int>) {
    && (forall i | 0 <= i < |ms| :: ms[i].app in best && ms[i].app !in left && ms[i] == best[ms[i].app])
    && (forall a | a in best :: best[a].app == a && (a !in left ==> exists i | 0 <= i < |ms| :: ms[i] == best[a]))
  }

  lemma {:induction false} MovedFacts(ms: seq<Match>, best: map<int, Match>, left: set<int>, a: int)
    requires Moved(ms, best, left) && a in left && a in best
    ensures forall i | 0 <= i < |ms| :: ms[i].app != best[a].app
  {
  }

  lemma MoveOne(ms: seq<Match>, best: map<int, Match>, left: set<int>, a: int, k: nat)
    requires Moved(ms, best, left) && a in left && a in best && k <= |ms|
    ensures Moved(ms[..k] + [best[a]] + ms[k..], best, left - {a})
  {
    var more := ms[..k] + [best[a]] + ms[k..];
    assert more[k] == best[a];
    forall b | b in best && b !in left - {a} ensures exists i | 0 <= i < |more| :: more[i] == best[b] {
      if b != a {
        var i :| 0 <= i < |ms| && ms[i] == best[b];
        assert more[if i < k then i else i + 1] == best[b];
      }
    }
  }

  lemma {:induction false} SortedIsRanked(ms: seq<Match>, best: map<int, Match>, all: seq<Match>)
    requires Sorted(ms) && Moved(ms, best, {}) && BestOf(best, all)
    ensures Ranked(ms, all)
  {
    hide Before;
    hide Better;
    forall c | c in all ensures EntryOf(ms, c.app).Some? && !Better(c, EntryOf(ms, c.app).value) {
      var i :| 0 <= i < |ms| && ms[i] == best[c.app];
      EntryFound(ms, i);
    }
  }

  // ----------------------------------------------------------------- decision

  datatype Status = Sure | Missing | Ask | Unknown

  datatype Resolution = Resolution(status: Status, phrase: string, best: Option<Match>, candidates: seq<Match>)

  /** The first three matches worth offering. */
  function Offers(ms: seq<Match>, installed: int -> bool, skip: Option<int>): seq<Match> {
    if ms == [] then []
    else
      var m := ms[0];
      var rest := Offers(ms[1..], installed, skip);
      if installed(m.app) && Some(m.app) != skip && m.score >= ASK - 0.1
      then [m] + if |rest| > 2 then rest[..2] else rest
      else rest
  }

  /** At most three installed apps are offered, never the one that is missing, and all sound alike enough. */
  lemma {:induction false} OffersAreInstalled(ms: seq<Match>, installed: int -> bool, skip: Option<int>)
    ensures |Offers(ms, installed, skip)| <= 3
    ensures forall m | m in Offers(ms, installed, skip) ::
              m in ms && installed(m.app) && Some(m.app) != skip && m.score >= ASK - 0.1
  {
    if ms != [] {
      OffersAreInstalled(ms[1..], installed, skip);
      var rest := Offers(ms[1..], installed, skip);
      assert forall m | m in (if |rest| > 2 then rest[..2] else rest) :: m in rest;
      assert forall m | m in rest :: m in ms;
    }
  }

  /** The first match of another app. */
  function Rival(ms: seq<Match>, app: int): Option<Match> {
    if ms == [] then None else if ms[0].app != app then Some(ms[0]) else Rival(ms[1..], app)
  }

  function Clear(best: Match, rival: Option<Match>): bool {
    rival.None? || rival.value.score < RIVAL || best.score - rival.value.score >= MARGIN
  }

  /** `offers` are the matches of the phrase that named the app. */
  function Resolve(ms: seq<Match>, offers: seq<Match>, rest: string, installed: int -> bool): Resolution {
    if ms == [] then Resolution(Unknown, rest, None, [])
    else
      var best := ms[0];
      var offer := Offers(offers, installed, None);
      if best.score < ASK then Resolution(Unknown, rest, None, offer)
      else if best.score >= SURE && Clear(best, Rival(ms[1..], best.app)) then
        if installed(best.app) then Resolution(Sure, best.phrase, Some(best), [best])
        else Resolution(Missing, best.phrase, Some(best), Offers(offers, installed, Some(best.app)))
      else Resolution(Ask, best.phrase, Some(best), offer)
  }

  /** Nothing any piece or alias suggests for another app is in the way of the best match. */
  ghost predicate Unrivalled(best: Match, all: seq<Match>) {
    || (forall c | c in all && c.app != best.app :: c.score < RIVAL)
    || (forall c | c in all && c.app != best.app :: best.score - c.score >= MARGIN)
  }

  lemma {:induction false} RivalIsSecond(ms: seq<Match>, all: seq<Match>)
    requires Ranked(ms, all) && ms != []
    ensures Rival(ms[1..], ms[0].app) == if |ms| > 1 then Some(ms[1]) else None
  {
  }

  lemma {:induction false} BestIsFirst(ms: seq<Match>, all: seq<Match>, c: Match)
    requires Ranked(ms, all) && c in all
    ensures ms != [] && !Better(c, ms[0]) && c.score <= ms[0].score
    ensures c.app != ms[0].app ==> |ms| > 1 && c.score <= ms[1].score
  {
    var i := EntryAt(ms, c.app);
    hide EntryOf;
    assert i > 0 ==> Before(ms[0], ms[i]);
    assert i > 1 ==> Before(ms[1], ms[i]);
  }

  /** The rival the code looks at decides about all of them. */
  lemma {:induction false} ClearMeansUnrivalled(ms: seq<Match>, all: seq<Match>)
    requires Ranked(ms, all) && ms != []
    ensures Clear(ms[0], Rival(ms[1..], ms[0].app)) <==> Unrivalled(ms[0], all)
  {
    RivalIsSecond(ms, all);
    hide Rival;
    forall c | c in all && c.app != ms[0].app ensures |ms| > 1 && c.score <= ms[1].score {
      BestIsFirst(ms, all, c);
    }
    if |ms| > 1 {
      assert ms[1] in all && ms[0].app != ms[1].app;
    }
    hide Ranked;
  }

  /** "Sure" exactly when the best candidate of all is installed, sounds sure, and no candidate of another
      app rivals it. */
  lemma {:induction false} SureExactly(ms: seq<Match>, all: seq<Match>, offers: seq<Match>, rest: string, installed: int -> bool)
    requires Ranked(ms, all)
    ensures Resolve(ms, offers, rest, installed).status == Sure
       <==> ms != [] && ms[0].score >= SURE && installed(ms[0].app) && Unrivalled(ms[0], all)
    ensures Resolve(ms, offers, rest, installed).status == Sure ==>
              && Resolve(ms, offers, rest, installed).best == Some(ms[0])
              && forall c | c in all :: !Better(c, ms[0])
  {
    if ms != [] {
      ClearMeansUnrivalled(ms, all);
      hide Clear;
      hide Unrivalled;
      hide Rival;
      forall c | c in all ensures !Better(c, ms[0]) {
        BestIsFirst(ms, all, c);
      }
      hide Ranked;
    }
  }

  /** "Missing" exactly when all this holds of an app that is not installed; it is named, and not offered. */
  lemma {:induction false} MissingExactly(ms: seq<Match>, all: seq<Match>, offers: seq<Match>, rest: string, installed: int -> bool)
    requires Ranked(ms, all)
    ensures var r := Resolve(ms, offers, rest, installed);
            && (r.status == Missing <==> ms != [] && ms[0].score >= SURE && !installed(ms[0].app) && Unrivalled(ms[0], all))
            && (r.status == Missing ==> r.best == Some(ms[0]) && forall m | m in r.candidates :: installed(m.app))
            && (r.status == Ask <==> ms != [] && ms[0].score >= ASK && !(ms[0].score >= SURE && Unrivalled(ms[0], all)))
            && (r.status == Ask ==> r.best == Some(ms[0]) && forall m | m in r.candidates :: installed(m.app))
  {
    if ms != [] {
      ClearMeansUnrivalled(ms, all);
      hide Clear;
      hide Unrivalled;
      hide Rival;
      hide Ranked;
      OffersAreInstalled(offers, installed, Some(ms[0].app));
      OffersAreInstalled(offers, installed, None);
      hide Offers;
    }
  }

  /** Whoever names an app by the very words of its name or an alias is understood: an app so named leads. */
  lemma {:induction false} ExactNameLeads(ear: Ear, words: seq<string>, whole: bool, index: seq<Alias>, ms: seq<Match>, p: string, i: nat)
    requires Sane(ear) && Ranked(ms, Candidates(ear, Pieces(words, whole), index))
    requires p in Pieces(words, whole) && i < |index| && index[i].norm == p
    ensures ms != [] && ms[0].score == 1.0
    ensures exists k: nat :: k < |index| && index[k].norm == ms[0].phrase && index[k].app == ms[0].app
  {
    var pieces := Pieces(words, whole);
    var all := Candidates(ear, pieces, index);
    var c := Match(index[i].app, 1.0, p);
    hide Pieces;
    ScoreMeans(ear, p, index[i]);
    var g: nat :| g < |pieces| && pieces[g] == p;
    CandidatesAre(ear, pieces, index, c);
    hide Candidates;
    assert Heard(ear, pieces, index, c, g, i);
    BestIsFirst(ms, all, c);
    assert ms[0] in all;
    hide Ranked;
    CandidatesAre(ear, pieces, index, ms[0]);
    var h: nat, k: nat :| Heard(ear, pieces, index, ms[0], h, k);
    ScoreMeans(ear, pieces[h], index[k]);
    hide ScoreOf;
  }

  /** Nothing is even asked about unless some candidate reaches the asking line. */
  lemma {:induction false} UnknownExactly(ms: seq<Match>, all: seq<Match>, offers: seq<Match>, rest: string, installed: int -> bool)
    requires Ranked(ms, all)
    ensures Resolve(ms, offers, rest, installed).status == Unknown <==> forall c | c in all :: c.score < ASK
  {
    forall c | c in all ensures ms != [] && c.score <= ms[0].score {
      BestIsFirst(ms, all, c);
    }
    if ms != [] {
      assert ms[0] in all;
    }
    hide Ranked;
    hide Offers;
    hide Rival;
  }

  // ---------------------------------------------------------------- questions

  datatype Pending = Pending(close: bool, phrase: string, choices: seq<int>, expires: real)

  datatype Attempt = Attempt(close: bool, phrase: string, app: Option<int>, at: real)

  datatype Choice = Choice(close: bool, app: int, phrase: string)

  function AppsOf(ms: seq<Match>): seq<int> {
    if ms == [] then [] else [ms[0].app] + AppsOf(ms[1..])
  }

  /** The best match of a reply that is one of the choices and sounds sure. */
  function FirstNamed(ms: seq<Match>, choices: seq<int>): Option<int> {
    if ms == [] then None
    else if ms[0].app in choices && ms[0].score >= SURE then Some(ms[0].app)
    else FirstNamed(ms[1..], choices)
  }

  class Questions {
    var pending: map<string, Pending>
    var last: map<string, Attempt>

    constructor ()
      ensures pending == map[] && last == map[]
    {
      pending, last := map[], map[];
    }

    /** A question stays open for five minutes; any other outcome closes it. */
    method NoteAttempt(chat: string, close: bool, r: Resolution, now: real)
      modifies this
      ensures pending == if (r.status == Ask || r.status == Missing) && r.candidates != []
                         then old(pending)[chat := Pending(close, r.phrase, AppsOf(r.candidates), now + PENDING_SECONDS)]
                         else old(pending) - {chat}
      ensures r.phrase == "" ==> last == old(last)
      ensures r.phrase != "" ==>
                last == old(last)[chat := Attempt(close, r.phrase, if r.status == Sure && r.best.Some? then Some(r.best.value.app) else None, now)]
    {
      if r.phrase != "" {
        var app := if r.best.Some? && r.status == Sure then Some(r.best.value.app) else None;
        last := last[chat := Attempt(close, r.phrase, app, now)];
      }
      if (r.status == Ask || r.status == Missing) && r.candidates != [] {
        pending := pending[chat := Pending(close, r.phrase, AppsOf(r.candidates), now + PENDING_SECONDS)];
      } else {
        pending := pending - {chat};
      }
    }

    method NotePicked(chat: string, close: bool, phrase: string, app: int, now: real)
      modifies this
      ensures pending == old(pending) - {chat}
      ensures last == old(last)[chat := Attempt(close, phrase, Some(app), now)]
    {
      pending := pending - {chat};
      last := last[chat := Attempt(close, phrase, Some(app), now)];
    }

    method Reorder(chat: string, order: seq<int>)
      modifies this`pending
      ensures pending == if chat in old(pending) then old(pending)[chat := old(pending)[chat].(choices := order)] else old(pending)
    {
      if chat in pending {
        pending := pending[chat := pending[chat].(choices := order)];
      }
    }

    /** An answer picks one of the stored choices while the question is open, and closes it: a second
        answer finds nothing. `pick` is a number or yes in the reply; `named` are the matches of the
        reply as a name, at most three words long. */
    method Answer(chat: string, pick: Option<nat>, named: Option<seq<Match>>, now: real) returns (r: Option<Choice>)
      modifies this`pending
      ensures r.Some? ==>
                && chat in old(pending) && now <= old(pending)[chat].expires
                && r.value.app in old(pending)[chat].choices
                && r.value.close == old(pending)[chat].close && r.value.phrase == old(pending)[chat].phrase
                && pending == old(pending) - {chat}
      ensures r.Some? && pick.Some? && pick.value < |old(pending)[chat].choices| ==> r.value.app == old(pending)[chat].choices[pick.value]
      ensures (&& chat in old(pending) && now <= old(pending)[chat].expires
               && pick.Some? && pick.value < |old(pending)[chat].choices|) ==> r.Some?
      ensures r.Some? && !(pick.Some? && pick.value < |old(pending)[chat].choices|) ==>
                named.Some? && FirstNamed(named.value, old(pending)[chat].choices) == Some(r.value.app)
      ensures r.None? && chat in old(pending) && now <= old(pending)[chat].expires ==>
                named.None? || FirstNamed(named.value, old(pending)[chat].choices) == None
      ensures r.None? ==>
                pending == if chat in old(pending) && now <= old(pending)[chat].expires then old(pending) else old(pending) - {chat}
    {
      if chat !in pending || pending[chat].expires < now {
        pending := pending - {chat};
        return None;
      }
      var p := pending[chat];
      var app: Option<int> := if pick.Some? && pick.value < |p.choices| then Some(p.choices[pick.value]) else None;
      if app.None? && named.Some? {
        var i := 0;
        while i < |named.value|
          invariant i <= |named.value| && app.None?
          invariant FirstNamed(named.value, p.choices) == FirstNamed(named.value[i..], p.choices)
        {
          assert named.value[i..][1..] == named.value[i + 1..];
          var m := named.value[i];
          if m.app in p.choices && m.score >= SURE {
            app := Some(m.app);
            break;
          }
          i := i + 1;
        }
      }
      if app.None? {
        return None;
      }
      pending := pending - {chat};
      r := Some(Choice(p.close, app.value, p.phrase));
    }

    /** "I said X", within a quarter of an hour of the attempt it corrects: never the same app again. */
    method Correct(chat: string, res: Resolution, now: real) returns (r: Option<Choice>)
      modifies this
      ensures r.Some? <==>
                && chat in old(last) && now - old(last)[chat].at <= CORRECTION_SECONDS
                && res.status == Sure && res.best.Some? && Some(res.best.value.app) != old(last)[chat].app
      ensures r.Some? ==>
                && r.value == Choice(old(last)[chat].close, res.best.value.app, old(last)[chat].phrase)
                && pending == old(pending) - {chat}
                && last == old(last)[chat := Attempt(r.value.close, r.value.phrase, Some(r.value.app), now)]
      ensures r.None? ==> pending == old(pending) && last == old(last)
    {
      if chat !in last || now - last[chat].at > CORRECTION_SECONDS {
        return None;
      }
      if res.status != Sure || res.best.None? || Some(res.best.value.app) == last[chat].app {
        return None;
      }
      var a := last[chat];
      pending := pending - {chat};
      last := last[chat := Attempt(a.close, a.phrase, Some(res.best.value.app), now)];
      r := Some(Choice(a.close, res.best.value.app, a.phrase));
    }
  }
}
