/** The string operations the agent's text code is built on: where a substring occurs, Python's
    `str.replace` (leftmost, non-overlapping) and `str.count`.

    The lemmas say when writing a mask over parts of a text cannot create a new occurrence of a word. */
module Text {

  /** `s` occurs in `t` at index `i`. */
  predicate At(t: string, s: string, i: int) {
    0 <= i && i + |s| <= |t| && t[i..i + |s|] == s
  }

  predicate Contains(t: string, s: string) {
    exists i | 0 <= i <= |t| :: At(t, s, i)
  }

  lemma {:induction false} SliceOfTail(t: string, lo: nat, hi: nat)
    requires 1 <= lo <= hi <= |t|
    ensures t[1..][lo - 1..hi - 1] == t[lo..hi]
  {
    var a, b := t[1..][lo - 1..hi - 1], t[lo..hi];
    forall k | 0 <= k < hi - lo ensures a[k] == b[k] {
      assert a[k] == t[1..][lo - 1 + k] == t[lo + k];
    }
  }

  lemma {:induction false} AtInTail(t: string, s: string)
    requires t != ""
    ensures forall i | 0 < i :: At(t, s, i) <==> At(t[1..], s, i - 1)
  {
    forall i | 0 < i ensures At(t, s, i) <==> At(t[1..], s, i - 1) {
      if i + |s| <= |t| { SliceOfTail(t, i, i + |s|); }
    }
  }

  /** The first index where `s` occurs, or |t| when it does not. */
  function Find(t: string, s: string): (r: nat)
    requires s != ""
    ensures r <= |t|
    ensures r < |t| ==> At(t, s, r)
    ensures forall i | i < r :: !At(t, s, i)
  {
    if t == "" then 0
    else if |s| <= |t| && t[..|s|] == s then 0
    else
      var r := Find(t[1..], s);
      AtInTail(t, s);
      r + 1
  }

  /** Python's `t.replace(s, m)`. */
  function Replace(t: string, s: string, m: string): string
    requires s != ""
    decreases |t|
  {
    var i := Find(t, s);
    if i == |t| then t else t[..i] + m + Replace(t[i + |s|..], s, m)
  }

  /** Python's `t.count(s)`: non-overlapping occurrences. */
  function Count(t: string, s: string): nat
    requires s != ""
    decreases |t|
  {
    var i := Find(t, s);
    if i == |t| then 0 else 1 + Count(t[i + |s|..], s)
  }

  // ------------------------------------------------------------------ masks

  /** Laid over each other with `m` starting at index `d` of `u`, the two disagree somewhere. */
  predicate Differs(u: string, m: string, d: int) {
    exists k | 0 <= k < |u| :: 0 <= k - d < |m| && u[k] != m[k - d]
  }

  /** No occurrence of `u` can share a character with a `m` written into a text. */
  ghost predicate Clear(u: string, m: string) {
    u != "" && forall d | -|m| < d < |u| :: Differs(u, m, d)
  }

  /** Where an occurrence of `u` and a written mask share characters, they agree on them. */
  lemma {:induction false} OverlapAgrees(a: string, m: string, b: string, u: string, p: int)
    requires At(a + m + b, u, p)
    ensures !Differs(u, m, |a| - p)
  {
    var r, d := a + m + b, |a| - p;
    forall k | 0 <= k < |u| && 0 <= k - d < |m| ensures u[k] == m[k - d] {
      assert r[p..p + |u|][k] == r[p + k];
    }
  }

  /** An occurrence of a word that is clear of the mask lies before it or after it. */
  lemma ClearSplit(a: string, m: string, b: string, u: string, p: int)
    requires Clear(u, m) && At(a + m + b, u, p)
    ensures p + |u| <= |a| || p >= |a| + |m|
  {
    OverlapAgrees(a, m, b, u, p);
  }

  /** Occurrences in a part of a text are occurrences in the text, shifted. */
  lemma {:induction false} AtLeft(x: string, y: string, u: string, i: int)
    requires i + |u| <= |x|
    ensures At(x + y, u, i) <==> At(x, u, i)
  {
    if 0 <= i { assert (x + y)[i..i + |u|] == x[i..i + |u|]; }
  }

  lemma {:induction false} AtRight(x: string, y: string, u: string, i: int)
    requires i >= |x|
    ensures At(x + y, u, i) <==> At(y, u, i - |x|)
  {
    if i + |u| <= |x + y| { assert (x + y)[i..i + |u|] == y[i - |x|..i - |x| + |u|]; }
  }

  lemma ContainsLeft(x: string, y: string, u: string)
    requires Contains(x, u)
    ensures Contains(x + y, u)
  {
    var i :| 0 <= i <= |x| && At(x, u, i);
    AtLeft(x, y, u, i);
  }

  lemma ContainsRight(x: string, y: string, u: string)
    requires Contains(y, u)
    ensures Contains(x + y, u)
  {
    var i :| 0 <= i <= |y| && At(y, u, i);
    AtRight(x, y, u, |x| + i);
  }

  /** Writing a mask between two texts that do not contain `u` does not create `u`. */
  lemma MaskCreatesNothing(a: string, m: string, b: string, u: string)
    requires Clear(u, m)
    ensures Contains(a + m + b, u) <==> Contains(a, u) || Contains(b, u)
  {
    assert a + m + b == a + (m + b);
    if Contains(a, u) {
      ContainsLeft(a, m + b, u);
    }
    if Contains(b, u) {
      ContainsRight(a + m, b, u);
    }
    if Contains(a + m + b, u) {
      var p :| 0 <= p <= |a + m + b| && At(a + m + b, u, p);
      ClearSplit(a, m, b, u, p);
      if p + |u| <= |a| {
        AtLeft(a, m + b, u, p);
      } else {
        AtRight(a + m, b, u, p);
      }
    }
  }

  /** Replacing leaves no occurrence of `u`, when `u` is what was replaced or was not there before. */
  lemma {:induction false} ReplaceLeavesNone(t: string, s: string, m: string, u: string)
    requires s != "" && Clear(u, m)
    requires u == s || !Contains(t, u)
    ensures !Contains(Replace(t, s, m), u)
    decreases |t|
  {
    var i := Find(t, s);
    if i < |t| {
      var a, rest := t[..i], t[i + |s|..];
      assert t == a + (s + rest) == (a + s) + rest;
      if Contains(a, u) {
        ContainsLeft(a, s + rest, u);
        var k :| 0 <= k <= |a| && At(a, u, k);
        AtLeft(a, s + rest, u, k);
      }
      if Contains(rest, u) {
        ContainsRight(a + s, rest, u);
      }
      ReplaceLeavesNone(rest, s, m, u);
      MaskCreatesNothing(a, m, Replace(rest, s, m), u);
    }
  }

  lemma {:induction false} ReplaceAbsent(t: string, s: string, m: string)
    requires s != "" && !Contains(t, s)
    ensures Replace(t, s, m) == t
  {
    var i := Find(t, s);
    assert i == |t| || At(t, s, i);
  }

  /** No occurrence of `u` in x + y crosses the seam. */
  ghost predicate SeamFree(x: string, y: string, u: string) {
    forall p | At(x + y, u, p) :: p + |u| <= |x| || p >= |x|
  }

  lemma {:induction false} FindIs(t: string, u: string, i: nat)
    requires u != "" && At(t, u, i) && forall k | 0 <= k < i :: !At(t, u, k)
    ensures Find(t, u) == i
  {
  }

  lemma FindInConcat(x: string, y: string, u: string)
    requires u != "" && SeamFree(x, y, u)
    ensures Find(x + y, u) == if Find(x, u) < |x| then Find(x, u) else |x| + Find(y, u)
  {
    var i, j := Find(x, u), Find(y, u);
    forall k | 0 <= k < i ensures !At(x + y, u, k) {
      if k + |u| <= |x| { AtLeft(x, y, u, k); }
    }
    if i < |x| {
      AtLeft(x, y, u, i);
      FindIs(x + y, u, i);
    } else {
      forall k | |x| <= k < |x| + j ensures !At(x + y, u, k) {
        AtRight(x, y, u, k);
      }
      if j < |y| {
        AtRight(x, y, u, |x| + j);
        FindIs(x + y, u, |x| + j);
      }
    }
  }

  /** One step of the scan: the text up to the first occurrence, the mask, and the rest. */
  lemma {:induction false} ReplaceStep(a: string, s: string, rest: string, m: string)
    requires s != "" && Find(a + s + rest, s) == |a|
    ensures Replace(a + s + rest, s, m) == a + m + Replace(rest, s, m)
  {
    var t := a + s + rest;
    assert t[..|a|] == a;
    assert t[|a| + |s|..] == rest;
  }

  lemma {:induction false} Occurrence(t: string, u: string)
    requires u != "" && Find(t, u) < |t|
    ensures var i := Find(t, u); i + |u| <= |t| && t == t[..i] + u + t[i + |u|..]
  {
    assert At(t, u, Find(t, u));
  }

  /** Without an occurrence across the seam, the two halves are replaced independently. */
  lemma {:induction false} ReplaceConcat(x: string, y: string, u: string, m: string)
    requires u != "" && SeamFree(x, y, u)
    ensures Replace(x + y, u, m) == Replace(x, u, m) + Replace(y, u, m)
    decreases |x|
  {
    var i, j := Find(x, u), Find(y, u);
    FindInConcat(x, y, u);
    hide SeamFree;
    hide At;
    hide Find;
    if i < |x| {
      hide Replace;
      Occurrence(x, u);
      var a, rest := x[..i], x[i + |u|..];
      SeamFreeTail(a + u, rest, y, u);
      ReplaceConcat(rest, y, u, m);
      ReplaceLeftStep(a, u, rest, y, m);
    } else if j < |y| {
      hide Replace;
      Occurrence(y, u);
      ReplaceRightStep(x, y[..j], u, y[j + |u|..], m);
    }
  }

  lemma {:induction false} Regroup(a: string, b: string, c: string, d: string)
    ensures a + b + c + d == a + b + (c + d)
    ensures a + (b + c + d) == (a + b) + c + d
  {
  }

  lemma ReplaceLeftStep(a: string, u: string, rest: string, y: string, m: string)
    requires u != "" && Find(a + u + rest, u) == |a| == Find(a + u + rest + y, u)
    requires Replace(rest + y, u, m) == Replace(rest, u, m) + Replace(y, u, m)
    ensures Replace(a + u + rest + y, u, m) == Replace(a + u + rest, u, m) + Replace(y, u, m)
  {
    hide Replace;
    Regroup(a, u, rest, y);
    ReplaceStep(a, u, rest + y, m);
    ReplaceStep(a, u, rest, m);
    Regroup(a, m, Replace(rest, u, m), Replace(y, u, m));
  }

  lemma {:induction false} ReplaceRightStep(x: string, a: string, u: string, rest: string, m: string)
    requires u != "" && Find(a + u + rest, u) == |a| && Find(x, u) == |x|
    requires Find(x + (a + u + rest), u) == |x| + |a|
    ensures Replace(x + (a + u + rest), u, m) == Replace(x, u, m) + Replace(a + u + rest, u, m)
  {
    assert Replace(x, u, m) == x;
    hide Replace;
    Regroup(x, a, u, rest);
    ReplaceStep(x + a, u, rest, m);
    ReplaceStep(a, u, rest, m);
    Regroup(x, a, m, Replace(rest, u, m));
  }

  lemma SeamFreeTail(head: string, rest: string, y: string, u: string)
    requires SeamFree(head + rest, y, u)
    ensures SeamFree(rest, y, u)
  {
    assert head + rest + y == head + (rest + y);
    forall p | At(rest + y, u, p) ensures p + |u| <= |rest| || p >= |rest| {
      AtRight(head, rest + y, u, |head| + p);
    }
  }

  // ------------------------------------------------ the texture of a replaced text

  /** What follows the last mask of a replaced text is the end of the original text. */
  lemma {:induction false} LastPiece(t: string, u: string, m: string) returns (x0: string, x: string, y: string, tail: string)
    requires u != ""
    ensures Replace(t, u, m) == x + tail && t == y + tail
    ensures (x == "" && y == "") || x == x0 + m
    decreases |t|
  {
    var i := Find(t, u);
    if i == |t| {
      x0, x, y, tail := "", "", "", t;
    } else {
      Occurrence(t, u);
      var a, rest := t[..i], t[i + |u|..];
      assert Replace(t, u, m) == a + m + Replace(rest, u, m);
      hide Replace;
      hide Find;
      var x0', x', y', tail' := LastPiece(rest, u, m);
      LastPieceStep(a, u, m, x', y', tail');
      x, y, tail := a + m + x', a + u + y', tail';
      x0 := if x' == "" && y' == "" then a else a + m + x0';
    }
  }

  lemma {:induction false} LastPieceStep(a: string, u: string, m: string, x: string, y: string, tail: string)
    ensures a + m + (x + tail) == a + m + x + tail
    ensures a + u + (y + tail) == a + u + y + tail
  {
  }

  /** What precedes the first mask of a replaced text is the start of the original text. */
  lemma FirstPiece(t: string, u: string, m: string) returns (head: string, z1: string, z: string, w: string)
    requires u != ""
    ensures Replace(t, u, m) == head + z && t == head + w
    ensures (z == "" && w == "") || z == m + z1
  {
    var i := Find(t, u);
    if i == |t| {
      head, z1, z, w := t, "", "", "";
      assert t + "" == t;
    } else {
      Occurrence(t, u);
      var rest := t[i + |u|..];
      head, w, z1 := t[..i], u + rest, Replace(rest, u, m);
      z := m + z1;
      assert Replace(t, u, m) == head + m + z1;
      hide Replace;
      hide Find;
      Regroup2(head, u, rest);
      Regroup2(head, m, z1);
    }
  }

  lemma {:induction false} Regroup2(a: string, b: string, c: string)
    ensures a + b + c == a + (b + c)
  {
  }

  lemma NotInMask(u: string, m: string)
    requires Clear(u, m)
    ensures !Contains(m, u)
  {
    MaskCreatesNothing("", m, "", u);
    assert "" + m + "" == m;
  }

  /** Replacing a word in a text that holds a mask works on both sides of the mask alone. */
  lemma ReplaceAcrossMask(a: string, m: string, b: string, u: string)
    requires Clear(u, m)
    ensures Replace(a + m + b, u, m) == Replace(a, u, m) + m + Replace(b, u, m)
  {
    hide Replace;
    MaskSeams(a, m, b, u);
    assert a + m + b == a + (m + b);
    ReplaceConcat(a, m + b, u, m);
    ReplaceConcat(m, b, u, m);
    NotInMask(u, m);
    ReplaceAbsent(m, u, m);
    assert Replace(a, u, m) + (m + Replace(b, u, m)) == Replace(a, u, m) + m + Replace(b, u, m);
  }

  lemma MaskSeams(a: string, m: string, b: string, u: string)
    requires Clear(u, m)
    ensures SeamFree(a, m + b, u) && SeamFree(m, b, u)
  {
    hide Clear;
    assert a + m + b == a + (m + b);
    forall p | At(a + (m + b), u, p) ensures p + |u| <= |a| || p >= |a| {
      ClearSplit(a, m, b, u, p);
    }
    assert "" + m + b == m + b;
    forall p | At(m + b, u, p) ensures p + |u| <= |m| || p >= |m| {
      ClearSplit("", m, b, u, p);
    }
  }

  lemma {:induction false} ReplaceSelf(u: string, m: string)
    requires u != ""
    ensures Replace(u, u, m) == m
  {
    assert At(u, u, 0);
    assert u[|u|..] == "";
    assert m + Replace("", u, m) == m;
  }

  // ------------------------------------------------- words that survive a mask

  lemma LongerIsAbsent(t: string, u: string)
    requires |t| < |u|
    ensures !Contains(t, u)
  {
  }

  lemma {:induction false} EarlierAgrees(u: string, n: nat, rest: string, p: nat)
    requires p < n < |u| && At(u[..n] + u + rest, u, p)
    ensures u[n] == u[0]
  {
    var t := u[..n] + u + rest;
    var w := t[p..p + |u|];
    assert w[0] == t[p] == u[p];
    assert w[n] == t[p + n] == u[p];
  }

  /** A start of a word that ends before a character unlike its first cannot bring forward an occurrence. */
  lemma {:induction false} FirstAfterStart(u: string, n: nat, rest: string)
    requires n < |u| && (n > 0 ==> u[n] != u[0])
    ensures Find(u[..n] + u + rest, u) == n
  {
    var t := u[..n] + u + rest;
    forall p | 0 <= p < n ensures !At(t, u, p) {
      if At(t, u, p) {
        EarlierAgrees(u, n, rest, p);
        assert false;
      }
    }
    assert At(t, u, n);
    FindIs(t, u, n);
  }

  /** A word that starts with an end of the mask comes back out of the mask. */
  lemma {:induction false} OverhangReturns(w: string, y: string, z: string)
    requires y != ""
    ensures Contains(Replace(y + z + z, y + z, w + y), y + z)
  {
    var u, m := y + z, w + y;
    FirstAfterStart(u, 0, z);
    assert u[..0] + u + z == "" + u + z == y + z + z;
    ReplaceStep("", u, z, m);
    LongerIsAbsent(z, u);
    ReplaceAbsent(z, u, m);
    hide Replace;
    assert "" + m + z == w + u;
    WholeAtEnd(w, u);
  }

  lemma {:induction false} WholeAtEnd(w: string, u: string)
    ensures Contains(w + u, u)
  {
    assert At(w + u, u, |w|);
  }

  lemma {:induction false} MaskCompletes(u: string, m: string, n: nat, rest: string)
    requires n < |u| && !Differs(u, m, n)
    requires if n + |m| < |u| then rest == u[n + |m|..] else rest == ""
    ensures Contains(u[..n] + m + rest, u)
  {
    var out := u[..n] + m + rest;
    forall k | 0 <= k < |u| ensures k < |out| && out[k] == u[k] {
      assert n <= k < n + |m| ==> m[k - n] == u[k];
    }
    assert out[0..0 + |u|] == u;
    assert At(out, u, 0);
  }

  /** A word that runs into a mask at index n of the word comes back when the mask completes it. */
  lemma {:induction false} RunningIntoReturns(u: string, m: string, n: nat) returns (t: string)
    requires 0 < n < |u| && m != "" && u[n] != u[0] && !Differs(u, m, n)
    ensures Contains(Replace(t, u, m), u)
  {
    var rest := if n + |m| < |u| then u[n + |m|..] else "";
    MaskCompletes(u, m, n, rest);
    hide Differs;
    t := u[..n] + u + rest;
    FirstAfterStart(u, n, rest);
    ReplaceStep(u[..n], u, rest, m);
    LongerIsAbsent(rest, u);
    ReplaceAbsent(rest, u, m);
    hide Replace;
  }

  /** A word inside the mask is what the mask writes. */
  lemma {:induction false} InsideReturns(u: string, m: string, d: int)
    requires u != "" && -|m| < d <= 0 && |u| - d <= |m| && !Differs(u, m, d)
    ensures Contains(Replace(u, u, m), u)
  {
    ReplaceSelf(u, m);
    hide Replace;
    assert m[-d..-d + |u|] == u by {
      forall k | 0 <= k < |u| ensures m[-d..-d + |u|][k] == u[k] {
        assert u[k] == m[k - d];
      }
    }
    assert At(m, u, -d);
  }

  lemma {:induction false} OverlapIsEnd(u: string, m: string, d: int)
    requires -|m| < d <= 0 && |u| - d > |m| && !Differs(u, m, d)
    ensures m[-d..] == u[..|m| + d]
  {
    forall k | 0 <= k < |m| + d ensures m[-d..][k] == u[k] {
      assert u[k] == m[k - d];
    }
  }

  /** Whatever is not clear of the mask survives it in some text -- for masks that end as they begin. */
  lemma {:induction false} Survivor(u: string, m: string, d: int) returns (t: string)
    requires u != "" && m != "" && m[0] == m[|m| - 1]
    requires -|m| < d < |u| && !Differs(u, m, d)
    ensures Contains(Replace(t, u, m), u)
  {
    if d <= 0 && |u| - d <= |m| {
      t := u;
      InsideReturns(u, m, d);
    } else if d <= 0 {
      OverlapIsEnd(u, m, d);
      hide Replace;
      var y, z := m[-d..], u[|m| + d..];
      assert u == y + z && m == m[..-d] + y;
      t := y + z + z;
      OverhangReturns(m[..-d], y, z);
    } else {
      assert u[d] == m[0];
      if u[0] == m[0] {
        hide Replace;
        hide Differs;
        var n := |m| - 1;
        assert u == [m[n]] + u[1..] && m == m[..n] + [m[n]];
        t := [m[n]] + u[1..] + u[1..];
        OverhangReturns(m[..n], [m[n]], u[1..]);
      } else {
        t := RunningIntoReturns(u, m, d);
      }
    }
  }

  /** Replacing a word removes it from every text exactly when the word is clear of the mask. */
  lemma {:induction false} ClearExactly(u: string, m: string)
    requires u != "" && m != "" && m[0] == m[|m| - 1]
    ensures Clear(u, m) <==> forall t :: !Contains(Replace(t, u, m), u)
  {
    hide Replace;
    hide Contains;
    if Clear(u, m) {
      forall t ensures !Contains(Replace(t, u, m), u) {
        ReplaceLeavesNone(t, u, m, u);
      }
    } else {
      var d :| -|m| < d < |u| && !Differs(u, m, d);
      var t := Survivor(u, m, d);
    }
  }
}
