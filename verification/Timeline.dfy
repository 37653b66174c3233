/** An edit plan, the darkness its render puts on the output timeline, and the windows in which quality
    control allows darkness. Times are exact; where the program rounds to milliseconds, so does the model. */
module Timeline {

  const MAX_TOTAL_SECONDS := 1800.0
  const SLACK := 0.3

  /** To the nearest millisecond. */
  function Ms(x: real): real {
    (x * 1000.0 + 0.5).Floor as real / 1000.0
  }

  lemma {:induction false} MsIsClose(x: real)
    ensures x - 0.0005 <= Ms(x) <= x + 0.0005
  {
  }

  lemma {:induction false} MsIsMonotone(x: real, y: real)
    requires x <= y
    ensures Ms(x) <= Ms(y) && (y - x >= 0.001 ==> Ms(x) < Ms(y))
  {
    var a, b := (x * 1000.0 + 0.5).Floor, (y * 1000.0 + 0.5).Floor;
    assert a <= b && (y - x >= 0.001 ==> a < b);
  }

  // --------------------------------------------------------------------- plan

  datatype Clip = Clip(source: nat, start: real, end: real)

  datatype Caption = Caption(start: real, end: real, text: string)

  datatype Look = Look(fadeIn: real, fadeOut: real, dip: bool, transition: real)

  datatype Plan = Plan(sources: nat, clips: seq<Clip>, captions: seq<Caption>, look: Look)

  function Length(c: Clip): real {
    c.end - c.start
  }

  /** Where the n-th clip starts on the output timeline. */
  function Offset(clips: seq<Clip>, n: nat): real
    requires n <= |clips|
  {
    if n == 0 then 0.0 else Offset(clips, n - 1) + Length(clips[n - 1])
  }

  function Total(plan: Plan): real {
    Ms(Offset(plan.clips, |plan.clips|))
  }

  /** The limits of the single fields. */
  predicate WellTyped(plan: Plan) {
    && plan.clips != []
    && 0.0 <= plan.look.fadeIn <= 5.0 && 0.0 <= plan.look.fadeOut <= 5.0 && 0.1 <= plan.look.transition <= 2.0
    && (forall i | 0 <= i < |plan.captions| :: plan.captions[i].start >= 0.0)
  }

  predicate GoodClip(plan: Plan, c: Clip) {
    c.source < plan.sources && c.end > c.start
  }

  predicate GoodCaption(plan: Plan, c: Caption) {
    c.end > c.start && c.start < Total(plan)
  }

  ghost predicate Valid(plan: Plan) {
    && (forall i | 0 <= i < |plan.clips| :: GoodClip(plan, plan.clips[i]))
    && Total(plan) <= MAX_TOTAL_SECONDS
    && (forall i | 0 <= i < |plan.captions| :: GoodCaption(plan, plan.captions[i]))
  }

  /** What the plan's own check accepts. */
  method Consistent(plan: Plan) returns (ok: bool)
    ensures ok <==> Valid(plan)
  {
    hide Total;
    for i := 0 to |plan.clips|
      invariant forall k | 0 <= k < i :: GoodClip(plan, plan.clips[k])
    {
      var c := plan.clips[i];
      if c.source >= plan.sources || c.end <= c.start {
        assert !GoodClip(plan, plan.clips[i]);
        return false;
      }
    }
    var total := Total(plan);
    if total > MAX_TOTAL_SECONDS {
      return false;
    }
    for i := 0 to |plan.captions|
      invariant forall k | 0 <= k < i :: GoodCaption(plan, plan.captions[k])
    {
      var c := plan.captions[i];
      if c.end <= c.start || c.start >= total {
        assert !GoodCaption(plan, plan.captions[i]);
        return false;
      }
    }
    ok := true;
  }

  lemma {:induction false} OffsetsGrow(plan: Plan, i: nat, j: nat)
    requires Valid(plan) && i <= j <= |plan.clips|
    ensures Offset(plan.clips, i) <= Offset(plan.clips, j) && (i < j ==> Offset(plan.clips, i) < Offset(plan.clips, j))
  {
    hide Total;
    if i < j {
      OffsetsGrow(plan, i, j - 1);
      assert GoodClip(plan, plan.clips[j - 1]);
    }
  }

  // ----------------------------------------------------------------- darkness

  datatype Interval = Interval(from: real, to: real)

  predicate Inside(a: Interval, b: Interval) {
    b.from <= a.from && a.to <= b.to
  }

  predicate InOne(a: Interval, windows: seq<Interval>) {
    exists i | 0 <= i < |windows| :: Inside(a, windows[i])
  }

  function Max0(x: real): real {
    if x < 0.0 then 0.0 else x
  }

  function Least(x: real, y: real): real {
    if x < y then x else y
  }

  function Half(plan: Plan): real {
    plan.look.transition / 2.0
  }

  /** A fade of the filter graph: the stretch it darkens, its length, and whether it ends or starts in black. */
  datatype Fade = Fade(dark: Interval, seconds: real, out: bool)

  /** Clip i comes out of the black of a dip, but never past its own end. */
  function DipIn(plan: Plan, i: nat): Fade
    requires i < |plan.clips|
  {
    var start := Offset(plan.clips, i);
    Fade(Interval(start, start + Least(Half(plan), Length(plan.clips[i]))), Half(plan), false)
  }

  /** Clip i goes into the black of a dip and stays there to its end; a short clip does so from its start. */
  function DipOut(plan: Plan, i: nat): Fade
    requires i < |plan.clips|
  {
    Fade(Interval(Offset(plan.clips, i) + Ms(Max0(Length(plan.clips[i]) - Half(plan))), Offset(plan.clips, i + 1)),
         Half(plan), true)
  }

  function Dips(plan: Plan, n: nat): seq<Fade>
    requires n <= |plan.clips|
  {
    if n == 0 || !plan.look.dip then []
    else
      Dips(plan, n - 1)
      + (if n - 1 > 0 then [DipIn(plan, n - 1)] else [])
      + (if n < |plan.clips| then [DipOut(plan, n - 1)] else [])
  }

  function FadeIn(plan: Plan): Fade {
    Fade(Interval(0.0, Least(plan.look.fadeIn, Offset(plan.clips, |plan.clips|))), plan.look.fadeIn, false)
  }

  function FadeOut(plan: Plan): Fade {
    Fade(Interval(Ms(Max0(Total(plan) - plan.look.fadeOut)), Offset(plan.clips, |plan.clips|)), plan.look.fadeOut, true)
  }

  /** All the darkness the render places: the dips, clip by clip, then the fade in and the fade out. */
  function Fades(plan: Plan): seq<Fade> {
    Dips(plan, |plan.clips|)
    + (if plan.look.fadeIn != 0.0 then [FadeIn(plan)] else [])
    + (if plan.look.fadeOut != 0.0 then [FadeOut(plan)] else [])
  }

  /** The fades of the filter graph, clip by clip. */
  method BuildFades(plan: Plan) returns (fades: seq<Fade>)
    ensures fades == Fades(plan)
  {
    hide Ms;
    fades := [];
    var at := 0.0;
    var n := |plan.clips|;
    for i := 0 to n
      invariant at == Offset(plan.clips, i) && fades == Dips(plan, i)
    {
      var length := Length(plan.clips[i]);
      var before := fades;
      if plan.look.dip && i > 0 {
        fades := fades + [Fade(Interval(at, at + Least(Half(plan), length)), Half(plan), false)];
      }
      if plan.look.dip && i < n - 1 {
        fades := fades + [Fade(Interval(at + Ms(Max0(length - Half(plan))), at + length), Half(plan), true)];
      }
      at := at + length;
      assert before + [] == before && before + [] + [] == before;
    }
    var total := Total(plan);
    if plan.look.fadeIn != 0.0 {
      fades := fades + [Fade(Interval(0.0, Least(plan.look.fadeIn, at)), plan.look.fadeIn, false)];
    }
    if plan.look.fadeOut != 0.0 {
      fades := fades + [Fade(Interval(Ms(Max0(total - plan.look.fadeOut)), at), plan.look.fadeOut, true)];
    }
  }

  // ------------------------------------------------------------------ windows

  /** Around the start of clip i. */
  function DipWindow(plan: Plan, i: nat): Interval
    requires i <= |plan.clips|
  {
    var t := Offset(plan.clips, i);
    Interval(t - plan.look.transition - SLACK, t + plan.look.transition + SLACK)
  }

  function DipWindows(plan: Plan, n: nat): seq<Interval>
    requires n <= |plan.clips|
  {
    if n == 0 then [] else DipWindows(plan, n - 1) + [DipWindow(plan, n)]
  }

  function FadeWindows(plan: Plan): seq<Interval> {
    (if plan.look.fadeIn != 0.0 then [Interval(0.0, plan.look.fadeIn + SLACK)] else [])
    + (if plan.look.fadeOut != 0.0 then [Interval(Total(plan) - plan.look.fadeOut - SLACK, Total(plan) + 1.0)] else [])
  }

  function Windows(plan: Plan): seq<Interval> {
    FadeWindows(plan) + if plan.look.dip && plan.clips != [] then DipWindows(plan, |plan.clips| - 1) else []
  }

  method AllowedDark(plan: Plan) returns (windows: seq<Interval>)
    requires plan.clips != []
    ensures windows == Windows(plan)
  {
    hide Total;
    windows := [];
    var total := Total(plan);
    if plan.look.fadeIn != 0.0 {
      windows := windows + [Interval(0.0, plan.look.fadeIn + SLACK)];
    }
    if plan.look.fadeOut != 0.0 {
      windows := windows + [Interval(total - plan.look.fadeOut - SLACK, total + 1.0)];
    }
    assert windows == FadeWindows(plan);
    if plan.look.dip {
      var t := 0.0;
      for i := 0 to |plan.clips| - 1
        invariant t == Offset(plan.clips, i) && windows == FadeWindows(plan) + DipWindows(plan, i)
      {
        t := t + Length(plan.clips[i]);
        windows := windows + [Interval(t - plan.look.transition - SLACK, t + plan.look.transition + SLACK)];
      }
    }
  }

  lemma {:induction false} DipWindowIsThere(plan: Plan, i: nat, n: nat)
    requires 0 < i <= n <= |plan.clips|
    ensures |DipWindows(plan, n)| == n && DipWindows(plan, n)[i - 1] == DipWindow(plan, i)
  {
    if i < n {
      DipWindowIsThere(plan, i, n - 1);
    } else if n > 1 {
      DipWindowIsThere(plan, n - 1, n - 1);
    }
  }

  lemma InDipWindow(plan: Plan, a: Interval, i: nat)
    requires plan.look.dip && 0 < i < |plan.clips| && Inside(a, DipWindow(plan, i))
    ensures InOne(a, Windows(plan))
  {
    hide Total;
    DipWindowIsThere(plan, i, |plan.clips| - 1);
    assert Windows(plan)[|FadeWindows(plan)| + i - 1] == DipWindow(plan, i);
  }

  lemma DipInIsAllowed(plan: Plan, i: nat)
    requires WellTyped(plan) && Valid(plan) && plan.look.dip && 0 < i < |plan.clips|
    ensures InOne(DipIn(plan, i).dark, Windows(plan))
  {
    hide Total;
    assert Inside(DipIn(plan, i).dark, DipWindow(plan, i));
    hide Windows;
    InDipWindow(plan, DipIn(plan, i).dark, i);
  }

  lemma DipOutIsAllowed(plan: Plan, i: nat)
    requires WellTyped(plan) && Valid(plan) && plan.look.dip && i + 1 < |plan.clips|
    ensures InOne(DipOut(plan, i).dark, Windows(plan))
  {
    MsIsClose(Max0(Length(plan.clips[i]) - Half(plan)));
    hide Total;
    hide Ms;
    assert Inside(DipOut(plan, i).dark, DipWindow(plan, i + 1));
    hide Windows;
    InDipWindow(plan, DipOut(plan, i).dark, i + 1);
  }

  lemma {:induction false} DipsAreAllowed(plan: Plan, n: nat)
    requires WellTyped(plan) && Valid(plan) && n <= |plan.clips|
    ensures forall k | 0 <= k < |Dips(plan, n)| :: InOne(Dips(plan, n)[k].dark, Windows(plan))
  {
    hide Total;
    hide InOne;
    hide Windows;
    if n > 0 && plan.look.dip {
      DipsAreAllowed(plan, n - 1);
      if n - 1 > 0 {
        DipInIsAllowed(plan, n - 1);
      }
      if n < |plan.clips| {
        DipOutIsAllowed(plan, n - 1);
      }
      hide DipIn;
      hide DipOut;
      hide Valid;
    }
  }

  lemma FadesAreAllowed(plan: Plan)
    requires WellTyped(plan) && Valid(plan)
    ensures plan.look.fadeIn != 0.0 ==> InOne(FadeIn(plan).dark, Windows(plan))
    ensures plan.look.fadeOut != 0.0 ==> InOne(FadeOut(plan).dark, Windows(plan))
  {
    var end := Offset(plan.clips, |plan.clips|);
    MsIsClose(end);
    MsIsClose(Max0(Total(plan) - plan.look.fadeOut));
    OffsetsGrow(plan, 0, |plan.clips|);
    MsIsMonotone(0.0, end);
    hide Offset;
    hide DipWindows;
    if plan.look.fadeIn != 0.0 {
      assert Inside(FadeIn(plan).dark, Windows(plan)[0]);
    }
    if plan.look.fadeOut != 0.0 {
      var k := if plan.look.fadeIn != 0.0 then 1 else 0;
      assert Windows(plan)[k] == Interval(Total(plan) - plan.look.fadeOut - SLACK, Total(plan) + 1.0);
      hide Windows;
      assert Total(plan) >= 0.0;
      hide Ms;
      assert Inside(FadeOut(plan).dark, Windows(plan)[k]);
    }
  }

  /** Every stretch of darkness the render places lies inside a window quality control allows -- for clips
      of any length. */
  lemma {:induction false} DarknessIsAllowed(plan: Plan)
    requires WellTyped(plan) && Valid(plan)
    ensures forall k | 0 <= k < |Fades(plan)| :: InOne(Fades(plan)[k].dark, Windows(plan))
  {
    DipsAreAllowed(plan, |plan.clips|);
    FadesAreAllowed(plan);
    hide InOne;
    hide Windows;
    hide Dips;
    hide FadeIn;
    hide FadeOut;
    hide Valid;
  }

  // ----------------------------------------------------- other views of the plan

  /** The clip durations of the exported timeline, in frames. */
  function Frames(clips: seq<Clip>, n: nat, fps: real): real
    requires n <= |clips|
  {
    if n == 0 then 0.0 else Frames(clips, n - 1, fps) + Ms(Length(clips[n - 1]) * fps)
  }

  /** The exported timeline is as long as the edit: to half a thousandth of a frame a clip. */
  lemma {:induction false} ExportIsAsLong(clips: seq<Clip>, n: nat, fps: real)
    requires n <= |clips|
    ensures -(n as real) * 0.0005 <= Frames(clips, n, fps) - Offset(clips, n) * fps <= n as real * 0.0005
  {
    if n > 0 {
      ExportIsAsLong(clips, n - 1, fps);
      MsIsClose(Length(clips[n - 1]) * fps);
      hide Ms;
      assert Offset(clips, n) * fps == Offset(clips, n - 1) * fps + Length(clips[n - 1]) * fps;
      assert n as real == (n - 1) as real + 1.0;
    }
  }

  /** A subtitle as written: from its start to its end or the end of the edit. */
  function Cue(plan: Plan, c: Caption): Interval {
    Interval(c.start, Least(c.end, Total(plan)))
  }

  /** Every cue is a non-empty stretch of the edit, and stays one in milliseconds when it is at least one
      millisecond long. */
  lemma {:induction false} CuesAreInTheEdit(plan: Plan, i: nat)
    requires WellTyped(plan) && Valid(plan) && i < |plan.captions|
    ensures var cue := Cue(plan, plan.captions[i]);
            && 0.0 <= cue.from < cue.to <= Total(plan)
            && (cue.to - cue.from >= 0.001 ==> Ms(cue.from) < Ms(cue.to) <= Total(plan))
  {
    var cue := Cue(plan, plan.captions[i]);
    assert GoodCaption(plan, plan.captions[i]);
    MsIsMonotone(cue.from, cue.to);
    MsIsMonotone(cue.to, Total(plan));
    MsTwice(Offset(plan.clips, |plan.clips|));
  }

  lemma {:induction false} MsTwice(x: real)
    ensures Ms(Ms(x)) == Ms(x)
  {
    var n := (x * 1000.0 + 0.5).Floor;
    assert Ms(x) * 1000.0 == n as real;
    assert (n as real + 0.5).Floor == n;
  }
}
