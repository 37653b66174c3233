/** Secret redaction: every known secret, longest first, then every secret-shaped stretch of the text,
    is overwritten by a mask. The same pass, with its own mask, hides the secrets named in a goal. */
module Redaction {
  import opened Text

  const MASK := "***REDACTED***"
  const BULLETS := "•••"
  const MIN_KNOWN_SECRET_LEN := 6

  // ------------------------------------------------------- the known-secret pass

  predicate NoneEmpty(known: seq<string>) {
    forall i | 0 <= i < |known| :: known[i] != ""
  }

  /** What overwriting the known secrets, in the given order, makes of a text. */
  function MaskAll(known: seq<string>, t: string, m: string): string
    requires NoneEmpty(known)
  {
    if known == [] then t else MaskAll(known[1..], Replace(t, known[0], m), m)
  }

  ghost predicate LongestFirst(known: seq<string>) {
    forall i, j | 0 <= i < j < |known| :: |known[i]| >= |known[j]|
  }

  ghost predicate AllClear(known: seq<string>, m: string) {
    forall i | 0 <= i < |known| :: Clear(known[i], m)
  }

  lemma {:induction false} MaskAllKeepsOut(known: seq<string>, t: string, m: string, u: string)
    requires NoneEmpty(known) && Clear(u, m) && (u in known || !Contains(t, u))
    ensures !Contains(MaskAll(known, t, m), u)
  {
    if known != [] {
      if u == known[0] || !Contains(t, u) {
        ReplaceLeavesNone(t, known[0], m, u);
      }
      MaskAllKeepsOut(known[1..], Replace(t, known[0], m), m, u);
    }
  }

  lemma {:induction false} MaskAllNothingToDo(known: seq<string>, t: string, m: string)
    requires forall i | 0 <= i < |known| :: known[i] != "" && !Contains(t, known[i])
    ensures MaskAll(known, t, m) == t
  {
    if known != [] {
      ReplaceAbsent(t, known[0], m);
      MaskAllNothingToDo(known[1..], t, m);
    }
  }

  /** The known-secret pass is idempotent. */
  lemma MaskAllIdempotent(known: seq<string>, t: string, m: string)
    requires AllClear(known, m)
    ensures MaskAll(known, MaskAll(known, t, m), m) == MaskAll(known, t, m)
  {
    forall i | 0 <= i < |known| ensures !Contains(MaskAll(known, t, m), known[i]) {
      MaskAllKeepsOut(known, t, m, known[i]);
    }
    MaskAllNothingToDo(known, MaskAll(known, t, m), m);
  }

  // ------------------------------------------------------------ the pattern pass

  datatype Span = Span(lo: nat, hi: nat)

  /** Ordered, disjoint stretches of a text: what a regular expression's matches are. */
  ghost predicate Spans(spans: seq<Span>, n: nat) {
    && (forall i | 0 <= i < |spans| :: spans[i].lo <= spans[i].hi <= n)
    && (forall i, j | 0 <= i < j < |spans| :: spans[i].hi <= spans[j].lo)
  }

  /** `rx.sub(m, t)` for the matches `spans`. */
  function Overwrite(t: string, spans: seq<Span>, m: string): string
    requires Spans(spans, |t|)
    decreases |spans|
  {
    if spans == [] then t
    else
      var last := spans[|spans| - 1];
      Overwrite(t[..last.lo], spans[..|spans| - 1], m) + m + t[last.hi..]
  }

  /** How far the overwriting of the first i stretches has moved what follows them. */
  function Shift(spans: seq<Span>, m: string, i: nat): int
    requires i <= |spans|
  {
    if i == 0 then 0 else Shift(spans, m, i - 1) + |m| - (spans[i - 1].hi - spans[i - 1].lo)
  }

  lemma {:induction false} ShiftOfFirst(spans: seq<Span>, m: string, n: nat, i: nat)
    requires i <= n <= |spans|
    ensures Shift(spans[..n], m, i) == Shift(spans, m, i)
  {
    if i > 0 {
      ShiftOfFirst(spans, m, n, i - 1);
    }
  }

  /** Where the text between the stretches i - 1 and i starts and ends. */
  function GapFrom(spans: seq<Span>, i: nat): nat
    requires i <= |spans|
  {
    if i == 0 then 0 else spans[i - 1].hi
  }

  function GapTo(t: string, spans: seq<Span>, i: nat): nat
    requires i <= |spans|
  {
    if i < |spans| then spans[i].lo else |t|
  }

  /** `out` is t with the i-th gap where the shift puts it, and the mask behind each gap but the last. */
  ghost predicate GapStays(t: string, spans: seq<Span>, m: string, out: string, i: nat)
    requires i <= |spans|
  {
    var lo, hi, shift := GapFrom(spans, i), GapTo(t, spans, i), Shift(spans, m, i);
    && lo <= hi <= |t| && 0 <= lo + shift && hi + shift <= |out| && out[lo + shift..hi + shift] == t[lo..hi]
    && (i < |spans| ==> hi + shift + |m| <= |out| && out[hi + shift..hi + shift + |m|] == m)
  }

  /** What lies between the stretches stays, in order, with one mask for each stretch, and nothing else. */
  lemma {:induction false} OverwriteIs(t: string, spans: seq<Span>, m: string, i: nat)
    requires Spans(spans, |t|) && i <= |spans|
    ensures |Overwrite(t, spans, m)| == |t| + Shift(spans, m, |spans|)
    ensures GapStays(t, spans, m, Overwrite(t, spans, m), i)
    decreases |spans|
  {
    if spans != [] {
      var n := |spans| - 1;
      var last := spans[n];
      var front := Overwrite(t[..last.lo], spans[..n], m);
      OverwriteIs(t[..last.lo], spans[..n], m, if i <= n then i else n);
      assert Overwrite(t, spans, m) == front + m + t[last.hi..];
      hide Overwrite;
      hide GapStays;
      ShiftOfFirst(spans, m, n, n);
      LastGap(t, spans, m, front);
      if i <= n {
        ShiftOfFirst(spans, m, n, i);
        GapInFront(t, spans, m, front, i);
      }
    }
  }

  lemma {:induction false} LastGap(t: string, spans: seq<Span>, m: string, front: string)
    requires Spans(spans, |t|) && spans != [] && |front| == spans[|spans| - 1].lo + Shift(spans, m, |spans| - 1)
    ensures var out := front + m + t[spans[|spans| - 1].hi..];
            |out| == |t| + Shift(spans, m, |spans|) && GapStays(t, spans, m, out, |spans|)
  {
  }

  lemma {:induction false} GapInFront(t: string, spans: seq<Span>, m: string, front: string, i: nat)
    requires Spans(spans, |t|) && spans != [] && i < |spans|
    requires var last := spans[|spans| - 1];
             && |front| == last.lo + Shift(spans, m, |spans| - 1) && Shift(spans[..|spans| - 1], m, i) == Shift(spans, m, i)
             && GapStays(t[..last.lo], spans[..|spans| - 1], m, front, i)
    ensures GapStays(t, spans, m, front + m + t[spans[|spans| - 1].hi..], i)
  {
    hide Shift;
    var n := |spans| - 1;
    var lo, hi, shift := GapFrom(spans, i), GapTo(t, spans, i), Shift(spans, m, i);
    assert front + m + t[spans[n].hi..] == front + (m + t[spans[n].hi..]);
    assert GapFrom(spans[..n], i) == lo && GapTo(t[..spans[n].lo], spans[..n], i) == hi;
    SliceOfFirst(front, m + t[spans[n].hi..], lo + shift, hi + shift);
    SliceOfFirst(t[..spans[n].lo], t[spans[n].lo..], lo, hi);
    assert t[..spans[n].lo] + t[spans[n].lo..] == t;
    if i < n {
      SliceOfFirst(front, m + t[spans[n].hi..], hi + shift, hi + shift + |m|);
    }
  }

  lemma {:induction false} SliceOfFirst(a: string, b: string, lo: nat, hi: nat)
    requires lo <= hi <= |a|
    ensures (a + b)[lo..hi] == a[lo..hi]
  {
  }

  /** Wherever u stands in t, it shares a character with one of the stretches. */
  ghost predicate Touched(t: string, spans: seq<Span>, u: string) {
    forall k: nat | k + |u| <= |t| && At(t, u, k) ::
      exists i | 0 <= i < |spans| :: spans[i].lo < k + |u| && k < spans[i].hi
  }

  lemma {:induction false} TouchedFront(t: string, spans: seq<Span>, u: string)
    requires Spans(spans, |t|) && spans != [] && Touched(t, spans, u)
    ensures Touched(t[..spans[|spans| - 1].lo], spans[..|spans| - 1], u)
  {
    var n := |spans| - 1;
    var front := t[..spans[n].lo];
    forall k: nat | k + |u| <= |front| && At(front, u, k)
      ensures exists i | 0 <= i < n :: spans[..n][i].lo < k + |u| && k < spans[..n][i].hi
    {
      assert front[k..k + |u|] == t[k..k + |u|];
      assert At(t, u, k);
      var i :| 0 <= i < |spans| && spans[i].lo < k + |u| && k < spans[i].hi;
      assert spans[..n][i] == spans[i];
    }
  }

  lemma {:induction false} UntouchedTail(t: string, spans: seq<Span>, u: string)
    requires Spans(spans, |t|) && spans != [] && Touched(t, spans, u)
    ensures !Contains(t[spans[|spans| - 1].hi..], u)
  {
    var lo := spans[|spans| - 1].hi;
    var tail := t[lo..];
    forall k | 0 <= k <= |tail| && At(tail, u, k) ensures false {
      assert tail[k..k + |u|] == t[lo + k..lo + k + |u|];
      assert At(t, u, lo + k);
    }
  }

  /** A text clear of the mask that the stretches touch wherever it stands is gone. */
  lemma {:induction false} OverwriteRemoves(t: string, spans: seq<Span>, m: string, u: string)
    requires Spans(spans, |t|) && Clear(u, m) && Touched(t, spans, u)
    ensures !Contains(Overwrite(t, spans, m), u)
    decreases |spans|
  {
    if spans != [] {
      var last := spans[|spans| - 1];
      TouchedFront(t, spans, u);
      UntouchedTail(t, spans, u);
      hide Touched;
      OverwriteRemoves(t[..last.lo], spans[..|spans| - 1], m, u);
      MaskCreatesNothing(Overwrite(t[..last.lo], spans[..|spans| - 1], m), m, t[last.hi..], u);
    }
  }

  /** A pattern is whatever finds ordered, disjoint stretches in any text. */
  ghost predicate IsPattern(p: string -> seq<Span>) {
    forall t :: Spans(p(t), |t|)
  }

  ghost predicate AllPatterns(patterns: seq<string -> seq<Span>>) {
    forall i | 0 <= i < |patterns| :: IsPattern(patterns[i])
  }

  ghost function PatternPass(patterns: seq<string -> seq<Span>>, t: string, m: string): string
    requires AllPatterns(patterns)
  {
    if patterns == [] then t
    else PatternPass(patterns[1..], Overwrite(t, patterns[0](t), m), m)
  }

  lemma {:induction false} PatternPassKeepsOut(patterns: seq<string -> seq<Span>>, t: string, m: string, u: string)
    requires AllPatterns(patterns) && Clear(u, m) && !Contains(t, u)
    ensures !Contains(PatternPass(patterns, t, m), u)
  {
    if patterns != [] {
      OverwriteRemoves(t, patterns[0](t), m, u);
      PatternPassKeepsOut(patterns[1..], Overwrite(t, patterns[0](t), m), m, u);
    }
  }

  /** The j-th pattern, when its turn comes, touches u wherever it then stands. */
  ghost predicate TouchedBy(patterns: seq<string -> seq<Span>>, t: string, m: string, u: string, j: nat)
    requires AllPatterns(patterns)
  {
    j < |patterns| && var before := PatternPass(patterns[..j], t, m); Touched(before, patterns[j](before), u)
  }

  /** So no text clear of the mask is left if some pattern touches it wherever it stands. */
  lemma {:induction false} PatternPassRemoves(patterns: seq<string -> seq<Span>>, t: string, m: string, u: string, j: nat)
    requires AllPatterns(patterns) && Clear(u, m) && TouchedBy(patterns, t, m, u, j)
    ensures !Contains(PatternPass(patterns, t, m), u)
  {
    var next := Overwrite(t, patterns[0](t), m);
    if j == 0 {
      assert PatternPass(patterns[..0], t, m) == t;
      OverwriteRemoves(t, patterns[0](t), m, u);
      PatternPassKeepsOut(patterns[1..], next, m, u);
    } else {
      assert patterns[..j][1..] == patterns[1..][..j - 1];
      assert PatternPass(patterns[..j], t, m) == PatternPass(patterns[1..][..j - 1], next, m);
      hide Touched;
      PatternPassRemoves(patterns[1..], next, m, u, j - 1);
    }
  }

  // ---------------------------------------------------- which secrets are safe

  /** A secret free of '*' that is no part of "REDACTED" is clear of the redactor's mask. */
  lemma PlainSecretIsClear(u: string)
    requires u != "" && '*' !in u && !Contains("REDACTED", u)
    ensures Clear(u, MASK)
  {
    forall d | -14 < d < |u| ensures Differs(u, MASK, d) {
      if d + 14 <= |u| {
        assert u[d + 13] != MASK[13];
      } else if 0 <= d {
        assert u[d] != MASK[0];
      } else if |u| - d > 11 {
        assert u[|u| - 1] != MASK[|u| - 1 - d];
      } else if d > -3 {
        assert u[0] != MASK[-d];
      } else {
        InsideRedacted(u, d);
      }
    }
  }

  lemma InsideRedacted(u: string, d: int)
    requires u != "" && -14 < d <= -3 && |u| - d <= 11
    requires !Contains("REDACTED", u)
    ensures Differs(u, MASK, d)
  {
    var j := -d - 3;
    assert !At("REDACTED", u, j);
    assert "REDACTED"[j..j + |u|] != u;
    var k :| 0 <= k < |u| && "REDACTED"[j..j + |u|][k] != u[k];
    assert MASK[k - d] == "REDACTED"[j + k];
  }

  lemma NoBulletIsClear(u: string)
    requires u != "" && '•' !in u
    ensures Clear(u, BULLETS)
  {
    forall d | -3 < d < |u| ensures Differs(u, BULLETS, d) {
      var k := if d < 0 then 0 else d;
      assert u[k] != BULLETS[k - d];
    }
  }

  // ------------------------------------------- a secret containing another one

  /** Every occurrence of `v` in a + s + b lies in `a`, in `b`, or inside `s`. */
  ghost predicate Isolated(a: string, s: string, b: string, v: string) {
    forall p | At(a + s + b, v, p) ::
      p + |v| <= |a| || p >= |a| + |s| || (|a| <= p && p + |v| <= |a| + |s|)
  }

  /** Masking one secret on both sides of `s` leaves `s` isolated from the others. */
  lemma IsolationKept(a: string, s: string, b: string, u: string, v: string, m: string)
    requires u != "" && Clear(v, m) && Isolated(a, s, b, v)
    ensures Isolated(Replace(a, u, m), s, Replace(b, u, m), v)
  {
    var x0, x, y, tail := LastPiece(a, u, m);
    var head, z1, z, w := FirstPiece(b, u, m);
    hide Replace;
    forall p | At((x + tail) + s + (head + z), v, p)
      ensures p + |v| <= |x + tail| || p >= |x + tail| + |s| || (|x + tail| <= p && p + |v| <= |x + tail| + |s|)
    {
      BetweenMasks(x0, x, tail + s + head, z, z1, v, m, p, tail, s, head);
      if p >= |x| && p + |v| <= |x + tail + s + head| {
        Regroup5(x, tail, s, head, z);
        Regroup5(y, tail, s, head, w);
        Reframe(x, y, tail + s + head, z, w, v, p);
      }
    }
  }

  lemma {:induction false} Regroup5(a: string, b: string, c: string, d: string, e: string)
    ensures (a + b) + c + (d + e) == a + (b + c + d) + e
  {
  }

  /** Masks at both ends of a stretch: an occurrence is before, inside or after it. */
  lemma BetweenMasks(x0: string, x: string, mid: string, z: string, z1: string, v: string, m: string, p: int,
                     tail: string, s: string, head: string)
    requires Clear(v, m) && mid == tail + s + head && At((x + tail) + s + (head + z), v, p)
    requires x == "" || x == x0 + m
    requires z == "" || z == m + z1
    ensures p + |v| <= |x| || p >= |x|
    ensures p + |v| <= |x + mid| || p >= |x + mid|
  {
    Regroup5(x, tail, s, head, z);
    assert x + mid + z == x + (mid + z);
    if x == x0 + m { ClearSplit(x0, m, mid + z, v, p); }
    if z == m + z1 {
      assert x + mid + z == (x + mid) + m + z1;
      ClearSplit(x + mid, m, z1, v, p);
    }
  }

  lemma {:induction false} Reframe(x: string, y: string, mid: string, z: string, w: string, v: string, p: int)
    requires At(x + mid + z, v, p) && p >= |x| && p + |v| <= |x + mid|
    ensures At(y + mid + w, v, p - |x| + |y|)
  {
    AtLeft(x + mid, z, v, p);
    AtRight(x, mid, v, p);
    AtRight(y, mid, v, p - |x| + |y|);
    AtLeft(y + mid, w, v, p - |x| + |y|);
  }

  /** No occurrence of a secret that is not shorter than an isolated `s` crosses an end of `s`. */
  lemma IsolatedSeams(a: string, s: string, b: string, u: string)
    requires |u| >= |s| && Isolated(a, s, b, u)
    ensures SeamFree(a, s + b, u) && SeamFree(s, b, u)
    ensures u != s ==> !Contains(s, u)
  {
    assert a + s + b == a + (s + b);
    forall p | At(s + b, u, p) ensures p + |u| <= |s| || p >= |s| {
      AtRight(a, s + b, u, |a| + p);
    }
    if Contains(s, u) {
      var k :| 0 <= k <= |s| && At(s, u, k);
      assert s[0..|s|] == s;
    }
  }

  lemma ReplaceThree(a: string, s: string, b: string, u: string, m: string)
    requires u != "" && SeamFree(a, s + b, u) && SeamFree(s, b, u)
    ensures Replace(a + s + b, u, m) == Replace(a, u, m) + Replace(s, u, m) + Replace(b, u, m)
  {
    hide Replace;
    assert a + s + b == a + (s + b);
    ReplaceConcat(a, s + b, u, m);
    ReplaceConcat(s, b, u, m);
    assert Replace(a, u, m) + (Replace(s, u, m) + Replace(b, u, m)) == Replace(a, u, m) + Replace(s, u, m) + Replace(b, u, m);
  }

  lemma {:induction false} MaskAllAcrossMask(known: seq<string>, a: string, b: string, m: string)
    requires AllClear(known, m)
    ensures MaskAll(known, a + m + b, m) == MaskAll(known, a, m) + m + MaskAll(known, b, m)
  {
    if known != [] {
      ReplaceAcrossMask(a, m, b, known[0]);
      MaskAllAcrossMask(known[1..], Replace(a, known[0], m), Replace(b, known[0], m), m);
    }
  }

  /** Longest first masks a secret whole: when no other secret overlaps it partially, nothing of it is
      left, whatever shorter secrets it contains. */
  lemma {:induction false} LongestFirstMasksWhole(known: seq<string>, a: string, s: string, b: string, m: string)
    requires LongestFirst(known) && AllClear(known, m) && s in known
    requires forall i | 0 <= i < |known| :: Isolated(a, s, b, known[i])
    ensures MaskAll(known, a + s + b, m) == MaskAll(known, a, m) + m + MaskAll(known, b, m)
  {
    var u, rest := known[0], known[1..];
    var a', b' := Replace(a, u, m), Replace(b, u, m);
    if u == s {
      IsolatedSeams(a, s, b, s);
      ReplaceThree(a, s, b, s, m);
      ReplaceSelf(s, m);
      MaskAllAcrossMask(rest, a', b', m);
    } else {
      var j :| 0 <= j < |known| && known[j] == s;
      assert rest[j - 1] == s && |u| >= |s|;
      IsolatedSeams(a, s, b, u);
      ReplaceThree(a, s, b, u, m);
      ReplaceAbsent(s, u, m);
      forall i | 0 <= i < |rest| ensures Isolated(a', s, b', rest[i]) {
        assert rest[i] == known[i + 1];
        IsolationKept(a, s, b, u, rest[i], m);
      }
      LongestFirstMasksWhole(rest, a', s, b', m);
    }
  }

  /** The order is what does it: the shorter secret first leaves the rest of the longer one readable. */
  lemma {:induction false} ShorterFirstLeaks(p: string, s: string, q: string)
    requires s != "" && Find(p + s + q, s) == |p| && !Contains(q, s)
    requires Clear(s, MASK) && Clear(p + s + q, MASK)
    ensures MaskAll([p + s + q, s], p + s + q, MASK) == MASK
    ensures MaskAll([s, p + s + q], p + s + q, MASK) == p + MASK + q
  {
    var long := p + s + q;
    ReplaceSelf(long, MASK);
    NotInMask(s, MASK);
    ReplaceAbsent(MASK, s, MASK);
    assert [long, s][1..] == [s];
    assert MaskAll([s], MASK, MASK) == MASK;
    ReplaceStep(p, s, q, MASK);
    ReplaceAbsent(q, s, MASK);
    ShorterThanItself(p + MASK + q, p, s, q);
    assert [s, long][1..] == [long];
    assert MaskAll([long], p + MASK + q, MASK) == p + MASK + q;
  }

  lemma {:induction false} ShorterThanItself(t: string, p: string, s: string, q: string)
    requires s != "" && Clear(p + s + q, MASK) && t == p + MASK + q
    ensures Replace(t, p + s + q, MASK) == t
  {
    var long := p + s + q;
    MaskCreatesNothing(p, MASK, q, long);
    ReplaceAbsent(t, long, MASK);
  }

  // -------------------------------------------------- where the promise ends

  lemma {:induction false} MaskAllOne(u: string, t: string, m: string)
    requires u != ""
    ensures MaskAll([u], t, m) == Replace(t, u, m)
  {
    assert [u][1..] == [];
  }

  lemma {:induction false} OverhangOf(m: string, w: string, y: string, z: string)
    requires m == w + y && y != ""
    ensures Contains(MaskAll([y + z], y + z + z, m), y + z)
  {
    MaskAllOne(y + z, y + z + z, m);
    OverhangReturns(w, y, z);
  }

  /** A secret that starts with an end of the mask comes back out of the mask. */
  lemma {:induction false} OverhangSurvives(w: string, y: string, z: string)
    requires MASK == w + y && y != ""
    ensures Contains(MaskAll([y + z], y + z + z, MASK), y + z)
  {
    OverhangOf(MASK, w, y, z);
  }

  /** A secret that is part of the mask is never hidden by it. */
  lemma {:induction false} PartOfMaskSurvives(u: string)
    requires u != "" && Contains(MASK, u)
    ensures Contains(MaskAll([u], u, MASK), u)
  {
    MaskAllOne(u, u, MASK);
    ReplaceSelf(u, MASK);
    hide Replace;
  }

  /** A secret is kept out of every text exactly when it is clear of the mask: it does not begin with an end
      of the mask, end with a start of it, contain it, or lie within it. The same for the goal's mask. */
  lemma {:induction false} HiddenExactly(u: string, m: string)
    requires u != "" && (m == MASK || m == BULLETS)
    ensures Clear(u, m) <==> forall t :: !Contains(MaskAll([u], t, m), u)
  {
    assert m[0] == m[|m| - 1];
    ClearExactly(u, m);
    hide Replace;
    hide MaskAll;
    hide Contains;
    hide Clear;
    if Clear(u, m) {
      forall t ensures !Contains(MaskAll([u], t, m), u) {
        MaskAllOne(u, t, m);
      }
    } else {
      var t :| Contains(Replace(t, u, m), u);
      MaskAllOne(u, t, m);
    }
  }

  /** Among any known secrets, those clear of the mask are hidden whatever the others are; any other one
      is readable in some output when it stands alone. */
  lemma {:induction false} HiddenAmongAll(u: string)
    requires u != ""
    ensures Clear(u, MASK) <==> forall known, t | NoneEmpty(known) && u in known :: !Contains(MaskAll(known, t, MASK), u)
  {
    HiddenExactly(u, MASK);
    hide MaskAll;
    hide Contains;
    hide Clear;
    if Clear(u, MASK) {
      forall known, t | NoneEmpty(known) && u in known ensures !Contains(MaskAll(known, t, MASK), u) {
        MaskAllKeepsOut(known, t, MASK, u);
      }
    } else {
      var t :| Contains(MaskAll([u], t, MASK), u);
      assert NoneEmpty([u]) && u in [u];
    }
  }

  // ------------------------------------------------------------- the redactor

  predicate Descending(list: seq<string>) {
    forall i | 0 < i < |list| :: |list[i - 1]| >= |list[i]|
  }

  lemma {:induction false} DescendingIsLongestFirst(list: seq<string>)
    requires Descending(list)
    ensures LongestFirst(list)
  {
    if list != [] {
      var rest := list[1..];
      assert forall i | 0 < i < |rest| :: rest[i - 1] == list[i] && rest[i] == list[i + 1];
      DescendingIsLongestFirst(rest);
      forall i, j | 0 <= i < j < |list| ensures |list[i]| >= |list[j]| {
        assert list[j] == rest[j - 1] && list[1] == rest[0];
        if i > 0 { assert list[i] == rest[i - 1]; }
      }
    }
  }

  /** A stable sort by descending length, one element at a time. */
  function InsertByLength(s: string, sorted: seq<string>): (r: seq<string>)
    requires Descending(sorted)
    ensures Descending(r) && multiset(r) == multiset{s} + multiset(sorted)
    ensures r != [] && (r[0] == s || (sorted != [] && r[0] == sorted[0]))
  {
    if sorted == [] || |s| >= |sorted[0]| then [s] + sorted
    else
      assert sorted == [sorted[0]] + sorted[1..];
      [sorted[0]] + InsertByLength(s, sorted[1..])
  }

  function SortByLength(list: seq<string>): (r: seq<string>)
    ensures Descending(r) && multiset(r) == multiset(list)
  {
    if list == [] then []
    else
      assert list == [list[0]] + list[1..];
      InsertByLength(list[0], SortByLength(list[1..]))
  }

  class Redactor {
    var known: seq<string>

    ghost predicate Valid()
      reads this
    {
      && LongestFirst(known)
      && (forall i | 0 <= i < |known| :: |known[i]| >= MIN_KNOWN_SECRET_LEN)
      && (forall i, j | 0 <= i < j < |known| :: known[i] != known[j])
    }

    constructor ()
      ensures Valid() && known == []
    {
      known := [];
    }

    method Add(secrets: seq<string>)
      requires Valid()
      modifies this
      ensures Valid()
      ensures forall s :: s in known <==> s in old(known) || (s in secrets && |s| >= MIN_KNOWN_SECRET_LEN)
    {
      var list := known;
      for i := 0 to |secrets|
        invariant forall k | 0 <= k < |list| :: |list[k]| >= MIN_KNOWN_SECRET_LEN
        invariant forall k, l | 0 <= k < l < |list| :: list[k] != list[l]
        invariant forall s :: s in list <==> s in old(known) || (s in secrets[..i] && |s| >= MIN_KNOWN_SECRET_LEN)
      {
        var s := secrets[i];
        if |s| >= MIN_KNOWN_SECRET_LEN && s !in list {
          list := list + [s];
        }
        assert secrets[..i + 1] == secrets[..i] + [s];
      }
      known := SortByLength(list);
      DescendingIsLongestFirst(known);
      SameElements(list, known);
    }

    method Redact(text: string, patterns: seq<string -> seq<Span>>) returns (out: string)
      requires Valid() && AllPatterns(patterns)
      ensures out == PatternPass(patterns, MaskAll(known, text, MASK), MASK)
      ensures forall u | u in known && Clear(u, MASK) :: !Contains(out, u)
      ensures forall u, j | Clear(u, MASK) && TouchedBy(patterns, MaskAll(known, text, MASK), MASK, u, j) :: !Contains(out, u)
    {
      out := text;
      for i := 0 to |known|
        invariant MaskAll(known[i..], out, MASK) == MaskAll(known, text, MASK)
      {
        assert known[i..][1..] == known[i + 1..];
        if Contains(out, known[i]) {
          out := Replace(out, known[i], MASK);
        } else {
          ReplaceAbsent(out, known[i], MASK);
        }
      }
      ghost var masked := out;
      for j := 0 to |patterns|
        invariant PatternPass(patterns[j..], out, MASK) == PatternPass(patterns, masked, MASK)
      {
        assert patterns[j..][1..] == patterns[j + 1..];
        assert IsPattern(patterns[j]);
        out := Overwrite(out, patterns[j](out), MASK);
      }
      forall u | u in known && Clear(u, MASK) ensures !Contains(out, u) {
        MaskAllKeepsOut(known, text, MASK, u);
        PatternPassKeepsOut(patterns, masked, MASK, u);
      }
      forall u, j | Clear(u, MASK) && TouchedBy(patterns, masked, MASK, u, j) ensures !Contains(out, u) {
        PatternPassRemoves(patterns, masked, MASK, u, j);
      }
    }
  }

  /** A rearrangement has the same elements, each as often. */
  lemma SameElements(a: seq<string>, b: seq<string>)
    requires multiset(a) == multiset(b)
    ensures forall s :: s in a <==> s in b
    ensures (forall k, l | 0 <= k < l < |a| :: a[k] != a[l]) ==> (forall k, l | 0 <= k < l < |b| :: b[k] != b[l])
  {
    assert forall s :: s in a <==> s in multiset(a);
    assert forall s :: s in b <==> s in multiset(b);
    if forall k, l | 0 <= k < l < |a| :: a[k] != a[l] {
      DistinctMeansOnce(a);
      forall k, l | 0 <= k < l < |b| ensures b[k] != b[l] {
        assert b == b[..k] + [b[k]] + b[k + 1..l] + [b[l]] + b[l + 1..];
        assert multiset(b)[b[k]] <= 1;
      }
    }
  }

  lemma {:induction false} DistinctMeansOnce(a: seq<string>)
    requires forall k, l | 0 <= k < l < |a| :: a[k] != a[l]
    ensures forall s :: multiset(a)[s] <= 1
  {
    if a != [] {
      DistinctMeansOnce(a[1..]);
      assert a == [a[0]] + a[1..];
      assert a[0] !in a[1..];
    }
  }

  lemma SortedNoneEmpty(list: seq<string>)
    requires NoneEmpty(list)
    ensures NoneEmpty(SortByLength(list)) && forall s :: s in list <==> s in SortByLength(list)
  {
    var r := SortByLength(list);
    SameElements(list, r);
    forall i | 0 <= i < |r| ensures r[i] != "" {
      assert r[i] in list;
    }
  }

  /** No goal secret free of the mask's own character is left readable. */
  lemma GoalSecretsHidden(secrets: seq<string>, patterns: seq<string -> seq<Span>>, text: string)
    requires NoneEmpty(secrets) && AllPatterns(patterns) && NoneEmpty(SortByLength(secrets))
    ensures forall u | u in secrets && '•' !in u ::
              !Contains(PatternPass(patterns, MaskAll(SortByLength(secrets), text, BULLETS), BULLETS), u)
  {
    var order := SortByLength(secrets);
    SortedNoneEmpty(secrets);
    forall u | u in secrets && '•' !in u
      ensures !Contains(PatternPass(patterns, MaskAll(order, text, BULLETS), BULLETS), u)
    {
      NoBulletIsClear(u);
      MaskAllKeepsOut(order, text, BULLETS, u);
      PatternPassKeepsOut(patterns, MaskAll(order, text, BULLETS), BULLETS, u);
    }
  }

  /** The same pass hides the secrets a goal names: `secrets` are those values, `patterns` the known
      shapes and the card numbers. */
  method MaskGoal(text: string, secrets: seq<string>, patterns: seq<string -> seq<Span>>) returns (out: string)
    requires NoneEmpty(secrets) && AllPatterns(patterns)
    ensures NoneEmpty(SortByLength(secrets))
    ensures out == PatternPass(patterns, MaskAll(SortByLength(secrets), text, BULLETS), BULLETS)
    ensures forall u | u in secrets && '•' !in u :: !Contains(out, u)
    ensures forall u, j | Clear(u, BULLETS) && TouchedBy(patterns, MaskAll(SortByLength(secrets), text, BULLETS), BULLETS, u, j) ::
              !Contains(out, u)
  {
    SortedNoneEmpty(secrets);
    var order := SortByLength(secrets);
    out := text;
    for i := 0 to |order|
      invariant MaskAll(order[i..], out, BULLETS) == MaskAll(order, text, BULLETS)
    {
      assert order[i..][1..] == order[i + 1..];
      out := Replace(out, order[i], BULLETS);
    }
    ghost var masked := out;
    for j := 0 to |patterns|
      invariant PatternPass(patterns[j..], out, BULLETS) == PatternPass(patterns, masked, BULLETS)
    {
      assert patterns[j..][1..] == patterns[j + 1..];
      assert IsPattern(patterns[j]);
      out := Overwrite(out, patterns[j](out), BULLETS);
    }
    GoalSecretsHidden(secrets, patterns, text);
    forall u, j | Clear(u, BULLETS) && TouchedBy(patterns, masked, BULLETS, u, j) ensures !Contains(out, u) {
      PatternPassRemoves(patterns, masked, BULLETS, u, j);
    }
  }

  /** The redactor's promise for a plain secret. */
  lemma PlainSecretsNeverSurvive(known: seq<string>, patterns: seq<string -> seq<Span>>, text: string, u: string)
    requires NoneEmpty(known) && AllPatterns(patterns)
    requires u in known && '*' !in u && !Contains("REDACTED", u)
    ensures !Contains(PatternPass(patterns, MaskAll(known, text, MASK), MASK), u)
  {
    PlainSecretIsClear(u);
    MaskAllKeepsOut(known, text, MASK, u);
    PatternPassKeepsOut(patterns, MaskAll(known, text, MASK), MASK, u);
  }
}
