/** Two alarms and how often they sound: memory pressure with hysteresis and a cooldown, and the notices
    that the PC's own AI is down or back. Both are step functions over what is measured, and the lemmas
    speak about whole runs of measurements. */
module Alerts {
  import opened Options

  // ---------------------------------------------------------- memory pressure

  const HYSTERESIS_POINTS := 5.0
  const ALERT_COOLDOWN_SECONDS := 1800.0

  datatype Level = Normal | Moderate | High | Critical

  datatype Limits = Limits(moderate: real, high: real, critical: real, vramHigh: real, vramCritical: real)

  /** `vram` is missing on a PC without a graphics card. */
  datatype Reading = Reading(at: real, ram: real, vram: Option<real>)

  function LevelFor(limits: Limits, r: Reading): Level {
    if r.ram >= limits.critical || (r.vram.Some? && r.vram.value >= limits.vramCritical) then Critical
    else if r.ram >= limits.high || (r.vram.Some? && r.vram.value >= limits.vramHigh) then High
    else if r.ram >= limits.moderate then Moderate
    else Normal
  }

  datatype Pressure = Pressure(level: Level, lastAlert: Option<real>)

  const CALM := Pressure(Normal, None)

  function NewLevel(limits: Limits, level: Level, r: Reading): Level {
    var plain := LevelFor(limits, r);
    if level == Critical && plain != Critical
       && (r.ram > limits.critical - HYSTERESIS_POINTS
           || (r.vram.Some? && r.vram.value > limits.vramCritical - HYSTERESIS_POINTS))
    then Critical else plain
  }

  function Alarms(limits: Limits, p: Pressure, r: Reading): bool {
    && NewLevel(limits, p.level, r) == Critical && p.level != Critical
    && (p.lastAlert.None? || r.at - p.lastAlert.value >= ALERT_COOLDOWN_SECONDS)
  }

  /** A measurement that failed changes nothing. */
  function Refresh(limits: Limits, p: Pressure, r: Option<Reading>): Pressure {
    if r.None? then p
    else Pressure(NewLevel(limits, p.level, r.value), if Alarms(limits, p, r.value) then Some(r.value.at) else p.lastAlert)
  }

  function Watch(limits: Limits, readings: seq<Option<Reading>>): Pressure {
    if readings == [] then CALM
    else Refresh(limits, Watch(limits, readings[..|readings| - 1]), readings[|readings| - 1])
  }

  predicate AlertsAt(limits: Limits, readings: seq<Option<Reading>>, i: nat)
    requires i < |readings|
  {
    readings[i].Some? && Alarms(limits, Watch(limits, readings[..i]), readings[i].value)
  }

  /** RAM and video memory both at least five points below their critical lines. */
  predicate ClearlyBetter(limits: Limits, r: Reading) {
    && r.ram <= limits.critical - HYSTERESIS_POINTS
    && (r.vram.Some? ==> r.vram.value <= limits.vramCritical - HYSTERESIS_POINTS)
  }

  /** "critical" is left exactly on a reading clearly below the lines, and entered exactly on or above one. */
  lemma {:induction false} CriticalIsSticky(limits: Limits, p: Pressure, r: Reading)
    ensures Refresh(limits, p, Some(r)).level == Critical
       <==> LevelFor(limits, r) == Critical || (p.level == Critical && !ClearlyBetter(limits, r))
    ensures p.level == Critical ==> (Refresh(limits, p, Some(r)).level != Critical <==> ClearlyBetter(limits, r))
    ensures Refresh(limits, p, Some(r)).level != Critical ==> Refresh(limits, p, Some(r)).level == LevelFor(limits, r)
  {
  }

  lemma WatchAt(limits: Limits, readings: seq<Option<Reading>>, i: nat)
    requires i < |readings|
    ensures Watch(limits, readings[..i + 1]) == Refresh(limits, Watch(limits, readings[..i]), readings[i])
  {
    assert readings[..i + 1][..i] == readings[..i];
  }

  /** Between an alert and now, the last alert is the last one sounded. */
  lemma {:induction false} LastAlertIs(limits: Limits, readings: seq<Option<Reading>>, i: nat, n: nat)
    requires i < n <= |readings| && AlertsAt(limits, readings, i)
    ensures var p := Watch(limits, readings[..n]);
            && p.lastAlert.Some? && p.lastAlert.value >= readings[i].value.at
    decreases n
  {
    hide Watch;
    WatchAt(limits, readings, n - 1);
    if i < n - 1 {
      LastAlertIs(limits, readings, i, n - 1);
    }
  }

  lemma {:induction false} WhoAlerted(limits: Limits, readings: seq<Option<Reading>>, n: nat) returns (j: nat)
    requires n <= |readings| && Watch(limits, readings[..n]).lastAlert.Some?
    ensures j < n && AlertsAt(limits, readings, j) && readings[j].value.at == Watch(limits, readings[..n]).lastAlert.value
  {
    if n > 0 {
      WatchAt(limits, readings, n - 1);
      hide Watch;
      if AlertsAt(limits, readings, n - 1) {
        j := n - 1;
      } else {
        j := WhoAlerted(limits, readings, n - 1);
      }
    }
  }

  /** A reading is alerted exactly when it makes the level critical and no alert was sounded in the half hour
      before it. */
  lemma {:induction false} AlertsExactly(limits: Limits, readings: seq<Option<Reading>>, i: nat)
    requires i < |readings| && readings[i].Some?
    ensures AlertsAt(limits, readings, i)
       <==> && Watch(limits, readings[..i]).level != Critical && Watch(limits, readings[..i + 1]).level == Critical
            && forall j | 0 <= j < i && AlertsAt(limits, readings, j) ::
                 readings[i].value.at - readings[j].value.at >= ALERT_COOLDOWN_SECONDS
  {
    var p := Watch(limits, readings[..i]);
    WatchAt(limits, readings, i);
    forall j | 0 <= j < i && AlertsAt(limits, readings, j) ensures p.lastAlert.Some? && p.lastAlert.value >= readings[j].value.at {
      LastAlertIs(limits, readings, j, i);
    }
    if p.lastAlert.Some? {
      var j := WhoAlerted(limits, readings, i);
    }
    hide Watch;
  }

  /** Any two critical alerts are at least half an hour apart, whatever is measured in between. */
  lemma AlertsAreApart(limits: Limits, readings: seq<Option<Reading>>, i: nat, j: nat)
    requires i < j < |readings| && AlertsAt(limits, readings, i) && AlertsAt(limits, readings, j)
    ensures readings[j].value.at - readings[i].value.at >= ALERT_COOLDOWN_SECONDS
  {
    LastAlertIs(limits, readings, i, j);
  }

  /** While no reading is clearly better, critical stays critical. */
  lemma {:induction false} StaysCritical(limits: Limits, readings: seq<Option<Reading>>, i: nat, n: nat)
    requires i < n <= |readings| && Watch(limits, readings[..i + 1]).level == Critical
    requires forall k | i < k < n :: readings[k].Some? ==> !ClearlyBetter(limits, readings[k].value)
    ensures Watch(limits, readings[..n]).level == Critical
    decreases n
  {
    if i < n - 1 {
      StaysCritical(limits, readings, i, n - 1);
      WatchAt(limits, readings, n - 1);
      hide Watch;
      if readings[n - 1].Some? {
        CriticalIsSticky(limits, Watch(limits, readings[..n - 1]), readings[n - 1].value);
      }
    }
  }

  /** Hovering around the line is one alert: between two alerts the memory was clearly better once. */
  lemma AlertsAreSeparate(limits: Limits, readings: seq<Option<Reading>>, i: nat, j: nat)
    requires i < j < |readings| && AlertsAt(limits, readings, i) && AlertsAt(limits, readings, j)
    ensures exists k :: i < k < j && readings[k].Some? && ClearlyBetter(limits, readings[k].value)
  {
    WatchAt(limits, readings, i);
    if forall k | i < k < j :: readings[k].Some? ==> !ClearlyBetter(limits, readings[k].value) {
      StaysCritical(limits, readings, i, j);
      assert false;
    }
  }

  class ResourcePressure {
    const limits: Limits
    var level: Level
    var lastAlert: Option<real>
    /** The alerts the owner hears. */
    var alerts: seq<real>

    function State(): Pressure
      reads this
    {
      Pressure(level, lastAlert)
    }

    constructor (limits: Limits)
      ensures State() == CALM && alerts == [] && this.limits == limits
    {
      this.limits := limits;
      level, lastAlert, alerts := Normal, None, [];
    }

    method Update(r: Reading)
      modifies this
      ensures State() == Refresh(limits, old(State()), Some(r))
      ensures alerts == old(alerts) + if Alarms(limits, old(State()), r) then [r.at] else []
    {
      var plain := LevelFor(limits, r);
      var now := plain;
      if level == Critical && plain != Critical {
        if r.ram > limits.critical - HYSTERESIS_POINTS
           || (r.vram.Some? && r.vram.value > limits.vramCritical - HYSTERESIS_POINTS) {
          now := Critical;
        }
      }
      if now != level && now == Critical {
        if lastAlert.None? || r.at - lastAlert.value >= ALERT_COOLDOWN_SECONDS {
          lastAlert := Some(r.at);
          alerts := alerts + [r.at];
        }
      }
      level := now;
    }
  }

  // -------------------------------------------------------- the PC's own AI

  /** One round of provider checks: it may fail, or not know the PC's own AI. */
  datatype Check = Failed | Absent | Up | Down

  datatype Notice = IsDown | IsBack

  datatype Health = Health(downChecks: nat, told: bool, notices: seq<Notice>)

  const WELL := Health(0, false, [])

  function Notify(h: Health, c: Check): Health {
    if c == Failed || c == Absent then h
    else
      var downs := if c == Down then h.downChecks + 1 else 0;
      if downs == 2 && !h.told then Health(downs, true, h.notices + [IsDown])
      else if c == Up && h.told then Health(downs, false, h.notices + [IsBack])
      else Health(downs, h.told, h.notices)
  }

  function Checks(checks: seq<Check>): Health {
    if checks == [] then WELL else Notify(Checks(checks[..|checks| - 1]), checks[|checks| - 1])
  }

  /** How many checks in a row have found it down; rounds without a result do not count. */
  function Streak(checks: seq<Check>): nat {
    if checks == [] then 0
    else
      var n := Streak(checks[..|checks| - 1]);
      match checks[|checks| - 1] case Down => n + 1 case Up => 0 case _ => n
  }

  /** The outages so far that lasted for two checks or more. */
  function Outages(checks: seq<Check>): nat {
    if checks == [] then 0
    else
      Outages(checks[..|checks| - 1])
      + if checks[|checks| - 1] == Down && Streak(checks) == 2 then 1 else 0
  }

  function Count(notices: seq<Notice>, n: Notice): nat {
    if notices == [] then 0
    else Count(notices[..|notices| - 1], n) + if notices[|notices| - 1] == n then 1 else 0
  }

  ghost predicate Alternating(notices: seq<Notice>) {
    forall i | 0 <= i < |notices| :: notices[i] == if i % 2 == 0 then IsDown else IsBack
  }

  /** Down and back strictly alternate; exactly one "down" per outage of two or more checks; and the owner
      has been told exactly while such an outage lasts. */
  lemma {:induction false} OneNoticePerOutage(checks: seq<Check>)
    ensures var h := Checks(checks);
            && h.downChecks == Streak(checks) && (h.told <==> Streak(checks) >= 2)
            && Alternating(h.notices) && (h.told <==> |h.notices| % 2 == 1)
            && Count(h.notices, IsDown) == Outages(checks)
  {
    if checks != [] {
      var before := checks[..|checks| - 1];
      OneNoticePerOutage(before);
      var h, c := Checks(before), checks[|checks| - 1];
      assert Checks(checks) == Notify(h, c);
      assert Streak(checks) == if c == Down then Streak(before) + 1 else if c == Up then 0 else Streak(before);
      assert Outages(checks) == Outages(before) + if c == Down && Streak(checks) == 2 then 1 else 0;
      hide Checks;
      hide Streak;
      hide Outages;
      NoticesStep(h, c);
    }
  }

  lemma {:induction false} NoticesStep(h: Health, c: Check)
    requires Alternating(h.notices) && (h.told <==> |h.notices| % 2 == 1)
    ensures var n := Notify(h, c);
            && Alternating(n.notices) && (n.told <==> |n.notices| % 2 == 1)
            && Count(n.notices, IsDown) == Count(h.notices, IsDown) + if n.told && !h.told then 1 else 0
  {
    CountAppend(h.notices, IsDown);
    CountAppend(h.notices, IsBack);
    hide Count;
  }

  lemma {:induction false} CountAppend(notices: seq<Notice>, n: Notice)
    ensures Count(notices + [n], IsDown) == Count(notices, IsDown) + if n == IsDown then 1 else 0
  {
    assert (notices + [n])[..|notices|] == notices;
  }

  class HealthWatch {
    var downChecks: nat
    var told: bool
    var notices: seq<Notice>

    function State(): Health
      reads this
    {
      Health(downChecks, told, notices)
    }

    constructor ()
      ensures State() == WELL
    {
      downChecks, told, notices := 0, false, [];
    }

    method Round(c: Check)
      modifies this
      ensures State() == Notify(old(State()), c)
    {
      if c == Failed || c == Absent {
        return;
      }
      downChecks := if c == Down then downChecks + 1 else 0;
      if downChecks == 2 && !told {
        told := true;
        notices := notices + [IsDown];
      } else if c == Up && told {
        told := false;
        notices := notices + [IsBack];
      }
    }
  }
}
