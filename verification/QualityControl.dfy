/** The black check on a finished render: what the fades do to the picture, what can be measured as black,
    and which measured stretches the check calls unplanned.

    A frame is the footage times the light its fades let through. Nothing is assumed of the footage but
    that it is not black itself, and nothing of the measurement but that it reports black stretches, and
    every black stretch that is long enough. */
module QualityControl {
  import opened Timeline

  const BLACK := 0.1
  const MIN_BLACK_SECONDS := 0.4
  const TOLERATED_SECONDS := 1.0

  // -------------------------------------------------------------- the picture

  /** This fade lets through less than all of the picture. */
  predicate DimAt(f: Fade, t: real) {
    f.dark.from <= t <= f.dark.to && if f.out then t > f.dark.from else t < f.dark.from + f.seconds
  }

  /** The part of the picture one fade lets through. */
  function Factor(f: Fade, t: real): real {
    if t < f.dark.from || t > f.dark.to || f.seconds <= 0.0 then 1.0
    else if f.out then Max0(1.0 - (t - f.dark.from) / f.seconds)
    else Least(1.0, (t - f.dark.from) / f.seconds)
  }

  /** One fade after another. */
  function Both(a: real, b: real): real {
    a * b
  }

  function Through(fades: seq<Fade>, t: real): real {
    if fades == [] then 1.0 else Both(Through(fades[..|fades| - 1], t), Factor(fades[|fades| - 1], t))
  }

  /** The part of the footage that the finished edit shows at t. */
  function Light(plan: Plan, t: real): real {
    Through(Fades(plan), t)
  }

  ghost predicate SomeDim(fades: seq<Fade>, t: real) {
    exists k | 0 <= k < |fades| :: DimAt(fades[k], t)
  }

  ghost predicate Lasting(fades: seq<Fade>) {
    forall k | 0 <= k < |fades| :: fades[k].seconds > 0.0
  }

  lemma {:induction false} Scale(a: real, b: real, s: real)
    requires s > 0.0
    ensures a < b <==> a * s < b * s
  {
    assert b * s - a * s == (b - a) * s;
    if a < b {
      assert (b - a) * s > 0.0;
    } else {
      assert (a - b) * s >= 0.0;
    }
  }

  lemma {:induction false} Ratio(x: real, s: real)
    requires s > 0.0 && x >= 0.0
    ensures x / s >= 0.0 && (x / s < 1.0 <==> x < s) && (x / s > 0.0 <==> x > 0.0)
  {
    var q := x / s;
    assert q * s == x;
    Scale(0.0, q, s);
    Scale(q, 0.0, s);
    Scale(q, 1.0, s);
  }

  lemma {:induction false} FactorIs(f: Fade, t: real)
    requires f.seconds > 0.0
    ensures 0.0 <= Factor(f, t) <= 1.0 && (Factor(f, t) < 1.0 <==> DimAt(f, t))
  {
    if t >= f.dark.from {
      Ratio(t - f.dark.from, f.seconds);
    }
  }

  lemma {:induction false} BothWhole(a: real, b: real)
    requires 0.0 <= a <= 1.0 && 0.0 <= b <= 1.0
    ensures 0.0 <= Both(a, b) <= 1.0 && (Both(a, b) < 1.0 <==> a < 1.0 || b < 1.0)
  {
    assert a * b <= a * 1.0;
    assert a * b <= 1.0 * b;
  }

  lemma {:induction false} SomeDimLast(fades: seq<Fade>, t: real)
    requires fades != []
    ensures SomeDim(fades, t) <==> SomeDim(fades[..|fades| - 1], t) || DimAt(fades[|fades| - 1], t)
  {
    hide DimAt;
    var before := fades[..|fades| - 1];
    assert forall k | 0 <= k < |before| :: before[k] == fades[k];
  }

  /** The picture is dimmed exactly where some fade dims it. */
  lemma {:induction false} ThroughIs(fades: seq<Fade>, t: real)
    requires Lasting(fades)
    ensures 0.0 <= Through(fades, t) <= 1.0 && (Through(fades, t) < 1.0 <==> SomeDim(fades, t))
  {
    if fades != [] {
      hide DimAt;
      hide Factor;
      hide SomeDim;
      hide Both;
      var n := |fades| - 1;
      ThroughIs(fades[..n], t);
      assert fades[n].seconds > 0.0;
      hide Lasting;
      FactorIs(fades[n], t);
      SomeDimLast(fades, t);
      assert Through(fades, t) == Both(Through(fades[..n], t), Factor(fades[n], t));
      hide Through;
      BothWhole(Through(fades[..n], t), Factor(fades[n], t));
    }
  }

  lemma {:induction false} DipsLast(plan: Plan, n: nat)
    requires WellTyped(plan) && n <= |plan.clips|
    ensures Lasting(Dips(plan, n))
  {
    hide Ms;
    hide Offset;
    if n > 0 && plan.look.dip {
      DipsLast(plan, n - 1);
    }
  }

  lemma {:induction false} LightIs(plan: Plan, t: real)
    requires WellTyped(plan)
    ensures 0.0 <= Light(plan, t) <= 1.0 && (Light(plan, t) < 1.0 <==> SomeDim(Fades(plan), t))
  {
    DipsLast(plan, |plan.clips|);
    hide Dips;
    hide Offset;
    hide Ms;
    hide Total;
    assert Lasting(Fades(plan));
    hide Fades;
    ThroughIs(Fades(plan), t);
  }

  // ------------------------------------------------------------ what is measured

  predicate Within(plan: Plan, s: Interval) {
    0.0 <= s.from && s.to <= Offset(plan.clips, |plan.clips|)
  }

  function Seconds(s: Interval): real {
    s.to - s.from
  }

  predicate BlackAt(plan: Plan, footage: real -> real, t: real) {
    Light(plan, t) * footage(t) <= BLACK
  }

  ghost predicate AllBlack(plan: Plan, footage: real -> real, s: Interval) {
    forall t | s.from < t < s.to :: BlackAt(plan, footage, t)
  }

  /** Footage that is nowhere black itself. */
  ghost predicate Visible(footage: real -> real) {
    forall t :: BLACK < footage(t) <= 1.0
  }

  /** `black` is what a measurement reports of the render: nothing that is not black, and every black
      stretch of the least length as part of one reported stretch. */
  ghost predicate Measures(plan: Plan, footage: real -> real, black: seq<Interval>) {
    && (forall i | 0 <= i < |black| :: Within(plan, black[i]) && AllBlack(plan, footage, black[i]))
    && (forall s: Interval | Within(plan, s) && Seconds(s) >= MIN_BLACK_SECONDS && AllBlack(plan, footage, s) :: InOne(s, black))
  }

  // ------------------------------------------------------------------ the check

  predicate IsStray(s: Interval, windows: seq<Interval>) {
    Seconds(s) > TOLERATED_SECONDS && !InOne(s, windows)
  }

  function Strays(black: seq<Interval>, windows: seq<Interval>): seq<Interval> {
    if black == [] then []
    else
      var n := |black| - 1;
      Strays(black[..n], windows) + if IsStray(black[n], windows) then [black[n]] else []
  }

  method CheckBlack(plan: Plan, black: seq<Interval>, sourceBlack: bool) returns (ok: bool, stray: seq<Interval>)
    requires plan.clips != []
    ensures stray == Strays(black, Windows(plan)) && (ok <==> stray == [] || sourceBlack)
  {
    var allowed := AllowedDark(plan);
    stray := [];
    for i := 0 to |black|
      invariant stray == Strays(black[..i], allowed)
    {
      assert black[..i + 1][..i] == black[..i];
      if Seconds(black[i]) > TOLERATED_SECONDS && !InOne(black[i], allowed) {
        stray := stray + [black[i]];
      }
    }
    assert black[..|black|] == black;
    ok := stray == [] || sourceBlack;
  }

  lemma {:induction false} StraysMeans(black: seq<Interval>, windows: seq<Interval>)
    ensures Strays(black, windows) == [] <==> forall i | 0 <= i < |black| :: !IsStray(black[i], windows)
  {
    hide IsStray;
    if black != [] {
      var n := |black| - 1;
      StraysMeans(black[..n], windows);
      assert forall i | 0 <= i < n :: black[..n][i] == black[i];
    }
  }

  // ------------------------------------------------ which plans the check is fair to

  /** The fades dim the picture throughout. */
  ghost predicate Dim(plan: Plan, s: Interval) {
    Within(plan, s) && forall t | s.from < t < s.to :: Light(plan, t) < 1.0
  }

  /** Whatever the fades darken for longer than is tolerated lies in a window. */
  ghost predicate Fair(plan: Plan) {
    forall s: Interval | Dim(plan, s) && Seconds(s) > TOLERATED_SECONDS :: InOne(s, Windows(plan))
  }

  lemma {:induction false} BlackIsDim(plan: Plan, footage: real -> real, s: Interval)
    requires WellTyped(plan) && Visible(footage) && Within(plan, s) && AllBlack(plan, footage, s)
    ensures Dim(plan, s)
  {
    hide Light;
    hide Within;
    forall t | s.from < t < s.to ensures Light(plan, t) < 1.0 {
      LightIs(plan, t);
      assert BlackAt(plan, footage, t);
      assert Light(plan, t) == 1.0 ==> Light(plan, t) * footage(t) == footage(t);
    }
  }

  /** A fair plan is never refused: whatever the footage and however it is measured, no planned darkness
      is reported as unplanned. */
  lemma {:induction false} FairIsAccepted(plan: Plan, footage: real -> real, black: seq<Interval>)
    requires WellTyped(plan) && Fair(plan) && Visible(footage) && Measures(plan, footage, black)
    ensures Strays(black, Windows(plan)) == []
  {
    StraysMeans(black, Windows(plan));
    hide Windows;
    hide Strays;
    hide InOne;
    forall i | 0 <= i < |black| ensures !IsStray(black[i], Windows(plan)) {
      BlackIsDim(plan, footage, black[i]);
      hide Dim;
    }
  }

  /** Footage as dark as it can be without being black, wherever the plan dims it. */
  function Dusk(plan: Plan): real -> real {
    (t: real) => if BLACK < Light(plan, t) < 1.0 then BLACK / Light(plan, t) else 1.0
  }

  lemma {:induction false} DuskIs(plan: Plan, t: real)
    requires WellTyped(plan)
    ensures BLACK < Dusk(plan)(t) <= 1.0 && (BlackAt(plan, Dusk(plan), t) <==> Light(plan, t) < 1.0)
  {
    LightIs(plan, t);
    hide Light;
    var l := Light(plan, t);
    if BLACK < l < 1.0 {
      var q := BLACK / l;
      assert q * l == BLACK;
      Scale(BLACK, q, l);
      Scale(1.0, q, l);
    }
  }

  lemma {:induction false} DuskIsVisible(plan: Plan)
    requires WellTyped(plan)
    ensures Visible(Dusk(plan))
  {
    forall t ensures BLACK < Dusk(plan)(t) <= 1.0 {
      DuskIs(plan, t);
    }
  }

  /** An unfair plan is refused on some footage without any black of its own, however it is measured. */
  lemma {:induction false} UnfairIsRefused(plan: Plan, s: Interval, black: seq<Interval>)
    requires WellTyped(plan) && Dim(plan, s) && Seconds(s) > TOLERATED_SECONDS && !InOne(s, Windows(plan))
    requires Measures(plan, Dusk(plan), black)
    ensures Strays(black, Windows(plan)) != []
  {
    StraysMeans(black, Windows(plan));
    assert AllBlack(plan, Dusk(plan), s) by {
      hide Light;
      forall t | s.from < t < s.to ensures BlackAt(plan, Dusk(plan), t) {
        DuskIs(plan, t);
      }
    }
    hide Windows;
    hide Strays;
    hide Light;
    var i :| 0 <= i < |black| && Inside(s, black[i]);
    assert IsStray(black[i], Windows(plan)) by {
      NotInsideOut(s, black[i], Windows(plan));
    }
  }

  lemma {:induction false} NotInsideOut(s: Interval, wider: Interval, windows: seq<Interval>)
    requires Inside(s, wider) && !InOne(s, windows)
    ensures !InOne(wider, windows)
  {
  }

  // -------------------------------------------- there is always a measurement

  /** A fade of the plan: within the edit, and a fade in is over when its stretch is. */
  predicate Placed(plan: Plan, f: Fade) {
    Within(plan, f.dark) && (!f.out ==> f.dark.to <= f.dark.from + f.seconds)
  }

  ghost predicate AllPlaced(plan: Plan, fades: seq<Fade>) {
    forall k | 0 <= k < |fades| :: Placed(plan, fades[k])
  }

  lemma {:induction false} DipsArePlaced(plan: Plan, i: nat)
    requires WellTyped(plan) && Valid(plan) && i < |plan.clips|
    ensures Placed(plan, DipIn(plan, i)) && Placed(plan, DipOut(plan, i))
  {
    OffsetsGrow(plan, 0, i);
    OffsetsGrow(plan, i, i + 1);
    OffsetsGrow(plan, i + 1, |plan.clips|);
    MsIsMonotone(0.0, Max0(Length(plan.clips[i]) - Half(plan)));
    hide Total;
    hide Valid;
  }

  lemma {:induction false} AllDipsPlaced(plan: Plan, n: nat)
    requires WellTyped(plan) && Valid(plan) && n <= |plan.clips|
    ensures AllPlaced(plan, Dips(plan, n))
  {
    hide Placed;
    hide Valid;
    if n > 0 && plan.look.dip {
      AllDipsPlaced(plan, n - 1);
      DipsArePlaced(plan, n - 1);
      hide DipIn;
      hide DipOut;
    }
  }

  lemma {:induction false} FadesArePlaced(plan: Plan)
    requires WellTyped(plan) && Valid(plan)
    ensures AllPlaced(plan, Fades(plan))
  {
    AllDipsPlaced(plan, |plan.clips|);
    OffsetsGrow(plan, 0, |plan.clips|);
    MsIsMonotone(0.0, Max0(Total(plan) - plan.look.fadeOut));
    hide Ms;
    hide Total;
    hide Valid;
    hide Dips;
    assert Placed(plan, FadeIn(plan)) && Placed(plan, FadeOut(plan));
    hide Placed;
    hide FadeIn;
    hide FadeOut;
  }

  /** A moment after x before which no further fade begins. */
  function BeforeNext(fades: seq<Fade>, x: real, end: real): (r: real)
    requires x < end
    ensures x < r <= end
    ensures forall k | 0 <= k < |fades| :: fades[k].dark.from <= x || fades[k].dark.from >= r
  {
    if fades == [] then end
    else
      var n := |fades| - 1;
      var r := BeforeNext(fades[..n], x, end);
      assert forall k | 0 <= k < n :: fades[..n][k] == fades[k];
      if x < fades[n].dark.from < r then fades[n].dark.from else r
  }

  /** A moment before x after which no further fade ends. */
  function AfterLast(fades: seq<Fade>, x: real, start: real): (r: real)
    requires start < x
    ensures start <= r < x
    ensures forall k | 0 <= k < |fades| :: fades[k].dark.to >= x || fades[k].dark.to <= r
  {
    if fades == [] then start
    else
      var n := |fades| - 1;
      var r := AfterLast(fades[..n], x, start);
      assert forall k | 0 <= k < n :: fades[..n][k] == fades[k];
      if r < fades[n].dark.to < x then fades[n].dark.to else r
  }

  /** From the start of one fade to the end of another. */
  function Hull(fades: seq<Fade>, k: nat, l: nat): Interval
    requires k < |fades| && l < |fades|
  {
    Interval(fades[k].dark.from, fades[l].dark.to)
  }

  /** Every dim stretch is part of one that runs from the start of a fade to the end of one. */
  lemma {:induction false} DimHasHull(plan: Plan, s: Interval) returns (k: nat, l: nat)
    requires WellTyped(plan) && Valid(plan) && Dim(plan, s) && s.from < s.to
    ensures k < |Fades(plan)| && l < |Fades(plan)| && Dim(plan, Hull(Fades(plan), k, l)) && Inside(s, Hull(Fades(plan), k, l))
    ensures Fades(plan)[k].dark.from < Fades(plan)[k].dark.to
  {
    var fades := Fades(plan);
    FadesArePlaced(plan);
    hide Light;
    hide Fades;
    hide Valid;
    var t := (s.from + BeforeNext(fades, s.from, s.to)) / 2.0;
    var u := (s.to + AfterLast(fades, s.to, s.from)) / 2.0;
    LightIs(plan, t);
    LightIs(plan, u);
    k :| 0 <= k < |fades| && DimAt(fades[k], t);
    l :| 0 <= l < |fades| && DimAt(fades[l], u);
    var hull := Hull(fades, k, l);
    assert Placed(plan, fades[k]) && Placed(plan, fades[l]);
    assert Inside(s, hull);
    forall x | hull.from < x < hull.to ensures Light(plan, x) < 1.0 {
      LightIs(plan, x);
      if x <= t {
        assert DimAt(fades[k], x);
      } else if x >= u {
        assert DimAt(fades[l], x);
      }
    }
  }

  ghost function HullsFrom(plan: Plan, fades: seq<Fade>, k: nat, n: nat): seq<Interval>
    requires k < |fades| && n <= |fades|
  {
    if n == 0 then []
    else HullsFrom(plan, fades, k, n - 1) + if Dim(plan, Hull(fades, k, n - 1)) then [Hull(fades, k, n - 1)] else []
  }

  ghost function Hulls(plan: Plan, fades: seq<Fade>, n: nat): seq<Interval>
    requires n <= |fades|
  {
    if n == 0 then [] else Hulls(plan, fades, n - 1) + HullsFrom(plan, fades, n - 1, |fades|)
  }

  ghost predicate AllDim(plan: Plan, list: seq<Interval>) {
    forall i | 0 <= i < |list| :: Dim(plan, list[i])
  }

  lemma {:induction false} HullsFromAreDim(plan: Plan, fades: seq<Fade>, k: nat, n: nat)
    requires k < |fades| && n <= |fades|
    ensures AllDim(plan, HullsFrom(plan, fades, k, n))
  {
    hide Dim;
    if n > 0 {
      HullsFromAreDim(plan, fades, k, n - 1);
    }
  }

  lemma {:induction false} HullsAreDim(plan: Plan, fades: seq<Fade>, n: nat)
    requires n <= |fades|
    ensures AllDim(plan, Hulls(plan, fades, n))
  {
    hide Dim;
    hide HullsFrom;
    if n > 0 {
      HullsAreDim(plan, fades, n - 1);
      HullsFromAreDim(plan, fades, n - 1, |fades|);
    }
  }

  lemma {:induction false} HullIsFrom(plan: Plan, fades: seq<Fade>, k: nat, l: nat, n: nat) returns (i: nat)
    requires k < |fades| && l < n <= |fades| && Dim(plan, Hull(fades, k, l))
    ensures i < |HullsFrom(plan, fades, k, n)| && HullsFrom(plan, fades, k, n)[i] == Hull(fades, k, l)
  {
    hide Dim;
    hide Hull;
    if l < n - 1 {
      i := HullIsFrom(plan, fades, k, l, n - 1);
    } else {
      i := |HullsFrom(plan, fades, k, n - 1)|;
    }
  }

  lemma {:induction false} HullIsListed(plan: Plan, fades: seq<Fade>, k: nat, l: nat, n: nat) returns (i: nat)
    requires k < n <= |fades| && l < |fades| && Dim(plan, Hull(fades, k, l))
    ensures i < |Hulls(plan, fades, n)| && Hulls(plan, fades, n)[i] == Hull(fades, k, l)
  {
    hide Dim;
    hide Hull;
    if k < n - 1 {
      i := HullIsListed(plan, fades, k, l, n - 1);
    } else {
      i := HullIsFrom(plan, fades, k, l, |fades|);
      i := |Hulls(plan, fades, n - 1)| + i;
    }
  }

  /** The darkest visible footage can be measured. */
  lemma {:induction false} DuskIsMeasured(plan: Plan) returns (black: seq<Interval>)
    requires WellTyped(plan) && Valid(plan)
    ensures Measures(plan, Dusk(plan), black)
  {
    var fades := Fades(plan);
    black := Hulls(plan, fades, |fades|);
    DuskIsVisible(plan);
    hide Light;
    hide Fades;
    hide Dusk;
    hide Valid;
    HullsAreDim(plan, fades, |fades|);
    hide Hulls;
    hide HullsFrom;
    forall i | 0 <= i < |black| ensures Within(plan, black[i]) && AllBlack(plan, Dusk(plan), black[i]) {
      DimIsBlackAtDusk(plan, black[i]);
    }
    forall s: Interval | Within(plan, s) && Seconds(s) >= MIN_BLACK_SECONDS && AllBlack(plan, Dusk(plan), s)
      ensures InOne(s, black)
    {
      BlackIsDim(plan, Dusk(plan), s);
      var k, l := DimHasHull(plan, s);
      var i := HullIsListed(plan, fades, k, l, |fades|);
      assert Inside(s, black[i]);
    }
  }

  lemma {:induction false} DimIsBlackAtDusk(plan: Plan, s: Interval)
    requires WellTyped(plan) && Dim(plan, s)
    ensures AllBlack(plan, Dusk(plan), s)
  {
    hide Light;
    forall t | s.from < t < s.to ensures BlackAt(plan, Dusk(plan), t) {
      DuskIs(plan, t);
    }
  }

  /** Planned darkness is never reported as unplanned -- on any footage without black of its own, however
      measured -- exactly when the plan is fair: when whatever its fades darken for longer than a second lies
      in one window. */
  lemma {:induction false} FairExactly(plan: Plan)
    requires WellTyped(plan) && Valid(plan)
    ensures Fair(plan)
       <==> forall footage: real -> real, black | Visible(footage) && Measures(plan, footage, black) ::
              Strays(black, Windows(plan)) == []
  {
    hide Measures;
    hide Windows;
    hide Strays;
    hide Dim;
    hide InOne;
    hide Visible;
    hide Dusk;
    hide Valid;
    if Fair(plan) {
      hide Fair;
      forall footage: real -> real, black | Visible(footage) && Measures(plan, footage, black)
        ensures Strays(black, Windows(plan)) == []
      {
        FairIsAccepted(plan, footage, black);
      }
    } else {
      var s: Interval :| Dim(plan, s) && Seconds(s) > TOLERATED_SECONDS && !InOne(s, Windows(plan));
      DuskIsVisible(plan);
      var black := DuskIsMeasured(plan);
      UnfairIsRefused(plan, s, black);
    }
  }

  // -------------------------------------------------- a condition to check

  /** The k-th fade darkens something, and wherever a fade ends between its start and the end of the l-th,
      another one darkens. */
  predicate Joined(fades: seq<Fade>, k: nat, l: nat)
    requires k < |fades| && l < |fades|
  {
    var s := Hull(fades, k, l);
    && fades[k].dark.from < fades[k].dark.to
    && (forall m | 0 <= m < |fades| :: s.from < fades[m].dark.to < s.to ==>
          exists g | 0 <= g < |fades| :: DimAt(fades[g], fades[m].dark.to))
  }

  /** No two fades are joined over more than a second outside every window: finitely many comparisons. */
  predicate JoinsAreAllowed(plan: Plan) {
    var fades := Fades(plan);
    forall k, l | 0 <= k < |fades| && 0 <= l < |fades| ::
      Joined(fades, k, l) && Seconds(Hull(fades, k, l)) > TOLERATED_SECONDS ==> InOne(Hull(fades, k, l), Windows(plan))
  }

  /** Of the fades that are over by t, one that ended last. */
  lemma {:induction false} LastOver(fades: seq<Fade>, k: nat, t: real) returns (a: nat)
    requires k < |fades| && fades[k].dark.to <= t
    ensures a < |fades| && fades[a].dark.to <= t
    ensures forall m | 0 <= m < |fades| :: fades[m].dark.to <= t ==> fades[m].dark.to <= fades[a].dark.to
  {
    a := k;
    for i := 0 to |fades|
      invariant a < |fades| && fades[a].dark.to <= t
      invariant forall m | 0 <= m < i :: fades[m].dark.to <= t ==> fades[m].dark.to <= fades[a].dark.to
    {
      if fades[a].dark.to < fades[i].dark.to <= t {
        a := i;
      }
    }
  }

  /** A fade that is still dark where it ends is taken over by the fade in after the cut, unless the edit is over. */
  ghost predicate TakenOver(fades: seq<Fade>, f: Fade) {
    exists h | 0 <= h < |fades| :: !fades[h].out && fades[h].dark.from == f.dark.to < fades[h].dark.to
  }

  ghost predicate AllTakenOver(fades: seq<Fade>, end: real) {
    forall g | 0 <= g < |fades| :: DimAt(fades[g], fades[g].dark.to) && fades[g].dark.to < end ==> TakenOver(fades, fades[g])
  }

  /** Every dip is the fade in or the fade out of some clip. */
  lemma {:induction false} DipsAreOf(plan: Plan, f: Fade, n: nat) returns (i: nat)
    requires n <= |plan.clips| && f in Dips(plan, n)
    ensures plan.look.dip && i < n && ((f == DipIn(plan, i) && i > 0) || (f == DipOut(plan, i) && i + 1 < |plan.clips|))
  {
    hide DipIn;
    hide DipOut;
    if f in Dips(plan, n - 1) {
      i := DipsAreOf(plan, f, n - 1);
    } else {
      i := n - 1;
    }
  }

  lemma {:induction false} DipIsTakenOver(plan: Plan, f: Fade)
    requires WellTyped(plan) && Valid(plan) && f in Dips(plan, |plan.clips|)
    requires DimAt(f, f.dark.to) && f.dark.to < Offset(plan.clips, |plan.clips|)
    ensures TakenOver(Fades(plan), f)
  {
    var n := |plan.clips|;
    var i := DipsAreOf(plan, f, n);
    assert GoodClip(plan, plan.clips[i]);
    assert f.dark.to == Offset(plan.clips, i + 1) && i + 1 < n;
    assert GoodClip(plan, plan.clips[i + 1]);
    DipsAreThere(plan, i + 1, n);
    var next := DipIn(plan, i + 1);
    assert next.dark.from == f.dark.to < next.dark.to && !next.out;
    hide Offset;
    hide Ms;
    hide DipIn;
    hide DipOut;
    hide Valid;
    hide Dips;
    var h :| 0 <= h < |Dips(plan, n)| && Dips(plan, n)[h] == next;
    assert Fades(plan)[h] == next;
  }

  lemma {:induction false} FadesAreTakenOver(plan: Plan)
    requires WellTyped(plan) && Valid(plan)
    ensures AllTakenOver(Fades(plan), Offset(plan.clips, |plan.clips|))
  {
    var fades, end := Fades(plan), Offset(plan.clips, |plan.clips|);
    forall g | 0 <= g < |fades| && DimAt(fades[g], fades[g].dark.to) && fades[g].dark.to < end
      ensures TakenOver(fades, fades[g])
    {
      hide Dips;
      hide Ms;
      hide Offset;
      hide Valid;
      assert fades[g] != FadeIn(plan) && fades[g] != FadeOut(plan);
      hide FadeIn;
      hide FadeOut;
      assert fades[g] in Dips(plan, |plan.clips|);
      DipIsTakenOver(plan, fades[g]);
    }
  }

  /** Joined fades leave no gap. */
  lemma {:induction false} JoinedCovers(plan: Plan, fades: seq<Fade>, k: nat, l: nat, t: real) returns (g: nat)
    requires k < |fades| && l < |fades| && Joined(fades, k, l) && Hull(fades, k, l).from < t < Hull(fades, k, l).to
    requires AllPlaced(plan, fades) && AllTakenOver(fades, Offset(plan.clips, |plan.clips|))
    ensures g < |fades| && DimAt(fades[g], t)
  {
    assert Placed(plan, fades[k]) && Placed(plan, fades[l]);
    if DimAt(fades[k], t) {
      return k;
    }
    var a := LastOver(fades, k, t);
    var p := fades[a].dark.to;
    g :| 0 <= g < |fades| && DimAt(fades[g], p);
    assert Placed(plan, fades[g]);
    if fades[g].dark.to <= t {
      assert fades[g].dark.to == p;
      assert TakenOver(fades, fades[g]);
      g :| 0 <= g < |fades| && !fades[g].out && fades[g].dark.from == p < fades[g].dark.to;
      assert Placed(plan, fades[g]);
    }
  }

  lemma {:induction false} JoinedIsDim(plan: Plan, k: nat, l: nat)
    requires WellTyped(plan) && Valid(plan) && k < |Fades(plan)| && l < |Fades(plan)| && Joined(Fades(plan), k, l)
    ensures Dim(plan, Hull(Fades(plan), k, l))
  {
    var fades := Fades(plan);
    FadesArePlaced(plan);
    FadesAreTakenOver(plan);
    hide Valid;
    hide Fades;
    hide Light;
    hide Joined;
    assert Placed(plan, fades[k]) && Placed(plan, fades[l]);
    forall t | Hull(fades, k, l).from < t < Hull(fades, k, l).to ensures Light(plan, t) < 1.0 {
      var g := JoinedCovers(plan, fades, k, l, t);
      LightIs(plan, t);
    }
  }

  lemma {:induction false} DimIsJoined(plan: Plan, k: nat, l: nat)
    requires WellTyped(plan) && k < |Fades(plan)| && l < |Fades(plan)| && Dim(plan, Hull(Fades(plan), k, l))
    requires Fades(plan)[k].dark.from < Fades(plan)[k].dark.to
    ensures Joined(Fades(plan), k, l)
  {
    var fades := Fades(plan);
    hide Light;
    hide Fades;
    forall m | 0 <= m < |fades| && Hull(fades, k, l).from < fades[m].dark.to < Hull(fades, k, l).to
      ensures exists g | 0 <= g < |fades| :: DimAt(fades[g], fades[m].dark.to)
    {
      LightIs(plan, fades[m].dark.to);
    }
  }

  /** A plan is fair exactly when its joined fades are allowed. */
  lemma {:induction false} FairIsJoinsAllowed(plan: Plan)
    requires WellTyped(plan) && Valid(plan)
    ensures Fair(plan) <==> JoinsAreAllowed(plan)
  {
    var fades := Fades(plan);
    hide Windows;
    hide Fades;
    hide Dim;
    hide Joined;
    hide InOne;
    if Fair(plan) {
      forall k: nat, l: nat | k < |fades| && l < |fades| && Joined(fades, k, l) && Seconds(Hull(fades, k, l)) > TOLERATED_SECONDS
        ensures InOne(Hull(fades, k, l), Windows(plan))
      {
        JoinedIsDim(plan, k, l);
      }
    }
    if JoinsAreAllowed(plan) {
      forall s: Interval | Dim(plan, s) && Seconds(s) > TOLERATED_SECONDS ensures InOne(s, Windows(plan)) {
        var k, l := DimHasHull(plan, s);
        DimIsJoined(plan, k, l);
        InOneOfAll(s, Hull(fades, k, l), Windows(plan));
      }
    }
  }

  lemma {:induction false} InOneOfAll(s: Interval, wider: Interval, windows: seq<Interval>)
    requires Inside(s, wider) && InOne(wider, windows)
    ensures InOne(s, windows)
  {
  }

  /** Planned darkness is never reported as unplanned -- on any footage without black of its own, however
      measured -- exactly when no two of the plan's fades are joined over more than a second outside every
      window. */
  lemma {:induction false} NeverUnplannedExactly(plan: Plan)
    requires WellTyped(plan) && Valid(plan)
    ensures JoinsAreAllowed(plan)
       <==> forall footage: real -> real, black | Visible(footage) && Measures(plan, footage, black) ::
              Strays(black, Windows(plan)) == []
  {
    FairExactly(plan);
    hide Measures;
    hide Windows;
    hide Strays;
    hide Visible;
    FairIsJoinsAllowed(plan);
    hide JoinsAreAllowed;
    hide Fair;
  }

  // ------------------------------------------------ darkness that runs together

  /** The dips of clip k meet: it goes dark again before it has come out of the dark. */
  predicate Meets(plan: Plan, k: nat)
    requires k < |plan.clips|
  {
    DipOut(plan, k).dark.from < DipIn(plan, k).dark.to
  }

  /** From the fade out before cut i to the end of the fade in after cut j. */
  function Stretch(plan: Plan, i: nat, j: nat): Interval
    requires 0 < i <= j < |plan.clips|
  {
    Interval(DipOut(plan, i - 1).dark.from, DipIn(plan, j).dark.to)
  }

  lemma {:induction false} DipsAreThere(plan: Plan, i: nat, n: nat)
    requires plan.look.dip && i < n <= |plan.clips|
    ensures i > 0 ==> DipIn(plan, i) in Dips(plan, n)
    ensures i + 1 < |plan.clips| ==> DipOut(plan, i) in Dips(plan, n)
  {
    hide DipIn;
    hide DipOut;
    if i < n - 1 {
      DipsAreThere(plan, i, n - 1);
    }
  }

  lemma {:induction false} DimmedBy(plan: Plan, f: Fade, t: real)
    requires WellTyped(plan) && plan.look.dip && f in Dips(plan, |plan.clips|) && DimAt(f, t)
    ensures Light(plan, t) < 1.0
  {
    LightIs(plan, t);
    hide Light;
    hide Dips;
    hide DimAt;
    var k :| 0 <= k < |Dips(plan, |plan.clips|)| && Dips(plan, |plan.clips|)[k] == f;
    assert Fades(plan)[k] == f;
  }

  lemma {:induction false} DimAtDipOut(plan: Plan, i: nat, t: real)
    requires WellTyped(plan) && plan.look.dip && i + 1 < |plan.clips|
    requires DipOut(plan, i).dark.from < t <= Offset(plan.clips, i + 1)
    ensures Light(plan, t) < 1.0
  {
    DipsAreThere(plan, i, |plan.clips|);
    hide Ms;
    hide Light;
    DimmedBy(plan, DipOut(plan, i), t);
  }

  lemma {:induction false} DimAtDipIn(plan: Plan, i: nat, t: real)
    requires WellTyped(plan) && plan.look.dip && 0 < i < |plan.clips|
    requires Offset(plan.clips, i) <= t < DipIn(plan, i).dark.to
    ensures Light(plan, t) < 1.0
  {
    DipsAreThere(plan, i, |plan.clips|);
    hide Ms;
    hide Light;
    DimmedBy(plan, DipIn(plan, i), t);
  }

  lemma {:induction false} DimInStretch(plan: Plan, i: nat, j: nat, t: real)
    requires WellTyped(plan) && plan.look.dip && 0 < i <= j < |plan.clips|
    requires forall k | i <= k < j :: Meets(plan, k)
    requires Stretch(plan, i, j).from < t < Stretch(plan, i, j).to
    ensures Light(plan, t) < 1.0
    decreases j
  {
    hide Light;
    hide Ms;
    if t >= Offset(plan.clips, j) {
      DimAtDipIn(plan, j, t);
    } else if j == i {
      DimAtDipOut(plan, i - 1, t);
    } else if t < DipIn(plan, j - 1).dark.to {
      DimInStretch(plan, i, j - 1, t);
    } else {
      assert Meets(plan, j - 1);
      DimAtDipOut(plan, j - 1, t);
    }
  }

  /** Dips that meet leave no gap: the whole stretch is dim. */
  lemma {:induction false} StretchIsDim(plan: Plan, i: nat, j: nat)
    requires WellTyped(plan) && Valid(plan) && plan.look.dip && 0 < i <= j < |plan.clips|
    requires forall k | i <= k < j :: Meets(plan, k)
    ensures Dim(plan, Stretch(plan, i, j))
  {
    DipsArePlaced(plan, i - 1);
    DipsArePlaced(plan, j);
    forall t | Stretch(plan, i, j).from < t < Stretch(plan, i, j).to ensures Light(plan, t) < 1.0 {
      DimInStretch(plan, i, j, t);
    }
    hide Light;
    hide Meets;
    hide DipIn;
    hide DipOut;
    hide Valid;
  }

  /** The window of cut c holds the stretch: neither end is further from the cut than a transition and the
      slack. */
  predicate Reaches(plan: Plan, s: Interval, c: nat)
    requires c <= |plan.clips|
  {
    && Offset(plan.clips, c) - s.from <= plan.look.transition + SLACK
    && s.to - Offset(plan.clips, c) <= plan.look.transition + SLACK
  }

  predicate FadeHolds(plan: Plan, s: Interval) {
    || (plan.look.fadeIn != 0.0 && s.to <= plan.look.fadeIn + SLACK)
    || (plan.look.fadeOut != 0.0 && s.from >= Total(plan) - plan.look.fadeOut - SLACK)
  }

  lemma {:induction false} ReachesIsInside(plan: Plan, s: Interval, c: nat)
    requires c <= |plan.clips|
    ensures Inside(s, DipWindow(plan, c)) <==> Reaches(plan, s, c)
  {
  }

  /** The windows, one by one. */
  lemma {:induction false} WindowsAre(plan: Plan, s: Interval)
    requires WellTyped(plan) && Valid(plan) && plan.look.dip && Within(plan, s)
    ensures InOne(s, Windows(plan))
       <==> FadeHolds(plan, s) || exists c | 0 < c < |plan.clips| :: Reaches(plan, s, c)
  {
    var n := |plan.clips| - 1;
    MsIsClose(Offset(plan.clips, |plan.clips|));
    assert Total(plan) + 1.0 >= Offset(plan.clips, |plan.clips|);
    hide Ms;
    hide Offset;
    hide Valid;
    FadeWindowsAre(plan, s);
    DipWindowsAre(plan, s, n);
    hide FadeWindows;
    hide DipWindows;
    hide FadeHolds;
    hide Reaches;
    InEither(s, FadeWindows(plan), DipWindows(plan, n));
  }

  lemma {:induction false} InEither(s: Interval, a: seq<Interval>, b: seq<Interval>)
    ensures InOne(s, a + b) <==> InOne(s, a) || InOne(s, b)
  {
    hide Inside;
    var all := a + b;
    assert forall i | 0 <= i < |a| :: all[i] == a[i];
    assert forall i | 0 <= i < |b| :: all[|a| + i] == b[i];
    if InOne(s, all) {
      var i :| 0 <= i < |all| && Inside(s, all[i]);
      assert if i < |a| then Inside(s, a[i]) else Inside(s, b[i - |a|]);
    }
  }

  lemma {:induction false} FadeWindowsAre(plan: Plan, s: Interval)
    requires 0.0 <= s.from && s.to <= Total(plan) + 1.0
    ensures InOne(s, FadeWindows(plan)) <==> FadeHolds(plan, s)
  {
    hide Total;
    var first := Interval(0.0, plan.look.fadeIn + SLACK);
    var last := Interval(Total(plan) - plan.look.fadeOut - SLACK, Total(plan) + 1.0);
    InEither(s, if plan.look.fadeIn != 0.0 then [first] else [], if plan.look.fadeOut != 0.0 then [last] else []);
    assert InOne(s, [first]) <==> Inside(s, [first][0]);
    assert InOne(s, [last]) <==> Inside(s, [last][0]);
  }

  lemma {:induction false} DipWindowsAre(plan: Plan, s: Interval, n: nat)
    requires n <= |plan.clips|
    ensures InOne(s, DipWindows(plan, n)) <==> exists c | 0 < c <= n :: Reaches(plan, s, c)
  {
    if n > 0 {
      DipWindowsAre(plan, s, n - 1);
      ReachesIsInside(plan, s, n);
      InEither(s, DipWindows(plan, n - 1), [DipWindow(plan, n)]);
      assert InOne(s, [DipWindow(plan, n)]) <==> Inside(s, [DipWindow(plan, n)][0]);
      hide Reaches;
      hide DipWindow;
      hide Inside;
      hide InOne;
    }
  }

  /** A cut outside the stretch reaches it only if the nearest cut inside does. */
  lemma {:induction false} NearestReaches(plan: Plan, i: nat, j: nat, c: nat)
    requires WellTyped(plan) && Valid(plan) && 0 < i <= j < |plan.clips| && 0 < c < |plan.clips|
    requires Reaches(plan, Stretch(plan, i, j), c)
    ensures Reaches(plan, Stretch(plan, i, j), if c < i then i else if c > j then j else c)
  {
    MsIsClose(Max0(Length(plan.clips[i - 1]) - Half(plan)));
    DipsArePlaced(plan, j);
    if c < i {
      OffsetsGrow(plan, c, i);
      assert GoodClip(plan, plan.clips[i - 1]);
    } else if c > j {
      OffsetsGrow(plan, j, c);
      assert GoodClip(plan, plan.clips[j]);
      OffsetsGrow(plan, i, j);
    }
    hide Valid;
    hide Ms;
    hide Total;
  }

  /** A stretch of dips lies in one window, of any kind, exactly when a fade's window holds it or one of its own
      cuts is within a transition and the slack of both its ends. */
  lemma {:induction false} StretchIsAllowedExactly(plan: Plan, i: nat, j: nat)
    requires WellTyped(plan) && Valid(plan) && plan.look.dip && 0 < i <= j < |plan.clips|
    ensures InOne(Stretch(plan, i, j), Windows(plan))
       <==> FadeHolds(plan, Stretch(plan, i, j)) || exists c | i <= c <= j :: Reaches(plan, Stretch(plan, i, j), c)
  {
    var s := Stretch(plan, i, j);
    DipsArePlaced(plan, i - 1);
    DipsArePlaced(plan, j);
    assert Within(plan, s);
    WindowsAre(plan, s);
    hide Windows;
    hide Valid;
    hide FadeHolds;
    hide Stretch;
    hide Reaches;
    if c: nat :| 0 < c < |plan.clips| && Reaches(plan, s, c) {
      NearestReaches(plan, i, j, c);
    }
  }

  /** Two cuts with one clip between them: the clip and the shorter of the two fades around it must fit
      into a transition and the slack -- unless a fade's window holds it all. */
  lemma {:induction false} MeetingDipsAllowedExactly(plan: Plan, i: nat)
    requires WellTyped(plan) && Valid(plan) && plan.look.dip && 0 < i && i + 1 < |plan.clips|
    ensures var s := Stretch(plan, i, i + 1);
            (InOne(s, Windows(plan)) <==>
               || FadeHolds(plan, s)
               || Length(plan.clips[i]) + Least(Offset(plan.clips, i) - s.from, s.to - Offset(plan.clips, i + 1))
                    <= plan.look.transition + SLACK)
  {
    var s := Stretch(plan, i, i + 1);
    StretchIsAllowedExactly(plan, i, i + 1);
    MsIsClose(Max0(Length(plan.clips[i - 1]) - Half(plan)));
    assert GoodClip(plan, plan.clips[i - 1]) && GoodClip(plan, plan.clips[i]) && GoodClip(plan, plan.clips[i + 1]);
    assert Reaches(plan, s, i) <==> Length(plan.clips[i]) + (s.to - Offset(plan.clips, i + 1)) <= plan.look.transition + SLACK;
    assert Reaches(plan, s, i + 1) <==> Length(plan.clips[i]) + (Offset(plan.clips, i) - s.from) <= plan.look.transition + SLACK;
    hide Windows;
    hide FadeHolds;
    hide Reaches;
    hide Valid;
    hide Ms;
    hide Stretch;
  }

  /** Dips that meet over more than a second outside every window are refused: some footage without any black
      in it comes out with a stretch that every measurement finds and the check calls unplanned. */
  lemma {:induction false} MeetingDipsAreRefused(plan: Plan, i: nat, j: nat)
    requires WellTyped(plan) && Valid(plan) && plan.look.dip && 0 < i <= j < |plan.clips|
    requires forall k | i <= k < j :: Meets(plan, k)
    requires Seconds(Stretch(plan, i, j)) > TOLERATED_SECONDS && !InOne(Stretch(plan, i, j), Windows(plan))
    ensures Visible(Dusk(plan)) && exists black :: Measures(plan, Dusk(plan), black)
    ensures forall black | Measures(plan, Dusk(plan), black) :: Strays(black, Windows(plan)) != []
  {
    StretchIsDim(plan, i, j);
    DuskIsVisible(plan);
    var some := DuskIsMeasured(plan);
    hide Measures;
    hide Windows;
    hide Strays;
    hide Dim;
    hide Dusk;
    hide Valid;
    hide Stretch;
    forall black | Measures(plan, Dusk(plan), black) ensures Strays(black, Windows(plan)) != [] {
      UnfairIsRefused(plan, Stretch(plan, i, j), black);
    }
  }

  /** Ten seconds with a clip of a second and a half in the middle. */
  const QuickCut := Plan(1, [Clip(0, 0.0, 5.0), Clip(0, 5.0, 6.5), Clip(0, 6.5, 10.0)], [], Look(0.0, 0.0, true, 2.0))

  lemma {:induction false} QuickCutIs()
    ensures WellTyped(QuickCut) && Valid(QuickCut) && Meets(QuickCut, 1)
    ensures Stretch(QuickCut, 1, 2) == Interval(4.0, 7.5)
    ensures Offset(QuickCut.clips, 1) == 5.0 && Offset(QuickCut.clips, 2) == 6.5
  {
    assert Offset(QuickCut.clips, 1) == 5.0;
    assert Offset(QuickCut.clips, 2) == 6.5;
    assert Offset(QuickCut.clips, 3) == 10.0;
    assert Total(QuickCut) == 10.0;
    assert Ms(4.0) == 4.0 && Ms(0.5) == 0.5;
  }

  /** There is such a plan. */
  lemma {:induction false} PlannedDarknessCanBeRefused() returns (plan: Plan)
    ensures WellTyped(plan) && Valid(plan)
    ensures Visible(Dusk(plan)) && exists black :: Measures(plan, Dusk(plan), black)
    ensures forall black | Measures(plan, Dusk(plan), black) :: Strays(black, Windows(plan)) != []
  {
    plan := QuickCut;
    QuickCutIs();
    hide Windows;
    hide Valid;
    hide Stretch;
    hide Measures;
    hide Strays;
    hide Dusk;
    hide Offset;
    hide Visible;
    MeetingDipsAllowedExactly(plan, 1);
    MeetingDipsAreRefused(plan, 1, 2);
  }
}
