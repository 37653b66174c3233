/** Project memory: entries named by project, kind and key; older entries Nova wrote itself roll off.

    The table is a set of rows. Rows are ordered by the time of their last change, then by id, newest first. */
module Memory {
  import opened Options
  import opened Strings

  const KINDS := {"decision", "fact", "known_issue", "task", "finding"}
  const OWNER_KINDS := {"decision", "fact"}
  const MAX_CONTENT := 1200
  const MAX_KEY := 200

  function Keep(kind: string): Option<nat> {
    if kind == "task" then Some(30) else if kind == "finding" then Some(20) else None
  }

  datatype Row = Row(id: nat, project: string, kind: string, key: string, content: string, at: int)

  datatype Table = Table(rows: set<Row>, nextId: nat, clock: int)

  const EMPTY := Table({}, 1, 0)

  // ------------------------------------------------------------------ newest first

  predicate Newer(r: Row, q: Row) {
    r.at > q.at || (r.at == q.at && r.id > q.id)
  }

  predicate In(r: Row, project: string, kind: string) {
    r.project == project && r.kind == kind
  }

  function Group(rows: set<Row>, project: string, kind: string): set<Row> {
    set r | r in rows && In(r, project, kind)
  }

  function NewerThan(group: set<Row>, q: Row): set<Row> {
    set r | r in group && Newer(r, q)
  }

  function Rank(group: set<Row>, q: Row): nat {
    |NewerThan(group, q)|
  }

  function Newest(group: set<Row>, keep: nat): set<Row> {
    set r | r in group && Rank(group, r) < keep
  }

  ghost predicate Distinct(rows: set<Row>) {
    forall r, q | r in rows && q in rows && r.id == q.id :: r == q
  }

  lemma Smaller<T>(a: set<T>, b: set<T>, x: T)
    requires a <= b && x in b && x !in a
    ensures |a| < |b|
  {
    assert a <= b - {x};
    Subset(a, b - {x});
  }

  lemma {:induction false} Subset<T>(a: set<T>, b: set<T>)
    requires a <= b
    ensures |a| <= |b|
  {
    if a != {} {
      var x :| x in a;
      Subset(a - {x}, b - {x});
    }
  }

  lemma NewerRanksLower(group: set<Row>, r: Row, q: Row)
    requires r in group && Newer(r, q)
    ensures Rank(group, r) < Rank(group, q)
  {
    Smaller(NewerThan(group, r), NewerThan(group, q), r);
  }

  lemma RanksDiffer(group: set<Row>, r: Row, q: Row)
    requires Distinct(group) && r in group && q in group && Rank(group, r) == Rank(group, q)
    ensures r == q
  {
    hide Rank;
    if Newer(r, q) {
      NewerRanksLower(group, r, q);
    } else if Newer(q, r) {
      NewerRanksLower(group, q, r);
    }
  }

  lemma OneMoreAtMost(group: set<Row>, keep: nat)
    requires Distinct(group) && keep > 0
    ensures |Newest(group, keep)| <= |Newest(group, keep - 1)| + 1
  {
    hide Rank;
    if q :| q in group && Rank(group, q) == keep - 1 {
      forall r | r in Newest(group, keep) && r !in Newest(group, keep - 1) ensures r == q {
        RanksDiffer(group, r, q);
      }
      hide Distinct;
      Subset(Newest(group, keep), Newest(group, keep - 1) + {q});
    } else {
      assert Newest(group, keep) <= Newest(group, keep - 1);
      Subset(Newest(group, keep), Newest(group, keep - 1));
    }
  }

  /** Among rows with different ids, the first `keep` are at most `keep`. */
  lemma {:induction false} NewestAreFew(group: set<Row>, keep: nat)
    requires Distinct(group)
    ensures |Newest(group, keep)| <= keep
  {
    if keep == 0 {
      assert Newest(group, 0) == {};
    } else {
      hide Newest;
      NewestAreFew(group, keep - 1);
      OneMoreAtMost(group, keep);
    }
  }

  /** Whatever is left out is older than whatever is kept. */
  lemma OnlyTheOldestGo(group: set<Row>, keep: nat, kept: Row, gone: Row)
    requires Distinct(group) && kept in Newest(group, keep) && gone in group && gone !in Newest(group, keep)
    ensures Newer(kept, gone)
  {
    if Newer(gone, kept) {
      NewerRanksLower(group, gone, kept);
    }
  }

  /** Nothing goes while the group is within its limit. */
  lemma FewAreAllKept(group: set<Row>, keep: nat)
    requires |group| <= keep
    ensures Newest(group, keep) == group
  {
    forall r | r in group ensures Rank(group, r) < keep {
      Smaller(NewerThan(group, r), group, r);
    }
  }

  // ------------------------------------------------------------------- operations

  datatype Refusal = UnknownKind | SecretRefused | EmptyMemory

  datatype Result<T> = Ok(value: T) | Err(error: Refusal)

  function Take(s: string, n: nat): string {
    if |s| <= n then s else s[..n]
  }

  /** What is stored of a content: one line, cut, without secrets -- or why it is not stored. */
  function Stored(kind: string, content: string, redact: string -> string): Result<string> {
    if kind !in KINDS then Err(UnknownKind)
    else
      var text := Take(Trim(Collapse(content)), MAX_CONTENT);
      var masked := redact(text);
      if masked != text && kind in OWNER_KINDS then Err(SecretRefused)
      else if masked == "" then Err(EmptyMemory)
      else Ok(masked)
  }

  /** A tidy content is stored as it is, masked -- unless its kind is unknown, a secret is in what the owner wants
      kept, or nothing is left. */
  lemma {:induction false} StoredExactly(kind: string, content: string, redact: string -> string)
    requires OneLine(content) && Trimmed(content) && |content| <= MAX_CONTENT
    ensures Stored(kind, content, redact)
         == if kind !in KINDS then Err(UnknownKind)
            else if redact(content) != content && kind in {"decision", "fact"} then Err(SecretRefused)
            else if redact(content) == "" then Err(EmptyMemory)
            else Ok(redact(content))
  {
    OneLineStays(content);
    assert "" + content + "" == content;
    TrimIs("", content, "");
    hide Collapse;
    hide Trim;
  }

  /** What the table holds is the masked form of one short line; what the owner wanted kept was free of secrets. */
  ghost predicate Masked(kind: string, content: string, redact: string -> string) {
    && kind in KINDS && content != ""
    && exists text :: OneLine(text) && |text| <= MAX_CONTENT && content == redact(text) && (kind in OWNER_KINDS ==> content == text)
  }

  lemma {:induction false} StoredIsMasked(kind: string, content: string, redact: string -> string)
    ensures Stored(kind, content, redact).Ok? ==> Masked(kind, Stored(kind, content, redact).value, redact)
  {
    var line := Collapse(content);
    CollapseIsOneLine(content);
    TrimLeftKeeps(line);
    TrimRightKeeps(TrimLeft(line));
    var text := Take(Trim(line), MAX_CONTENT);
    assert OneLine(text);
    hide Collapse;
    hide Trim;
    hide OneLine;
  }

  ghost predicate AllMasked(rows: set<Row>, redact: string -> string) {
    forall r | r in rows :: Masked(r.kind, r.content, redact)
  }

  lemma {:induction false} WriteIsMasked(t: Table, project: string, kind: string, key: string, text: string, now: int, redact: string -> string)
    requires AllMasked(t.rows, redact) && Masked(kind, text, redact)
    ensures AllMasked(Write(t, project, kind, key, text, now).rows, redact)
  {
    hide Masked;
    hide Rank;
    hide Keep;
  }

  /** Over any operations, no content is in the table as it came: only masked, on one line, and short. */
  lemma {:induction false} EveryRowIsMasked(ops: seq<Op>, redact: string -> string)
    ensures AllMasked(Run(ops, redact).rows, redact)
  {
    if ops != [] {
      var op := ops[|ops| - 1];
      var t := Run(ops[..|ops| - 1], redact);
      EveryRowIsMasked(ops[..|ops| - 1], redact);
      hide Run;
      hide Masked;
      hide Stored;
      if op.Put? {
        var stored := Stored(op.kind, op.content, redact);
        StoredIsMasked(op.kind, op.content, redact);
        if stored.Ok? {
          WriteIsMasked(t, op.project, op.kind, KeyOf(op.kind, stored.value, op.key), stored.value, op.now, redact);
        }
        hide Write;
        hide KeyOf;
      }
    }
  }

  /** An entry put without a key is named by its kind and the start of its text: it replaces exactly one that
      starts alike. */
  lemma {:induction false} KeylessExactly(kind: string, a: string, b: string)
    ensures KeyOf(kind, a, "") == KeyOf(kind, b, "") <==> Lower(Take(a, 80)) == Lower(Take(b, 80))
    ensures forall key | key != "" :: KeyOf(kind, a, key) == key
  {
    var start := kind + ":";
    hide Lower;
    assert (start + Lower(Take(a, 80)))[|start|..] == Lower(Take(a, 80));
    assert (start + Lower(Take(b, 80)))[|start|..] == Lower(Take(b, 80));
  }

  function KeyOf(kind: string, text: string, key: string): string {
    if key != "" then key else kind + ":" + Lower(Take(text, 80))
  }

  function RollOff(rows: set<Row>, project: string, kind: string): set<Row> {
    if Keep(kind).None? then rows
    else rows - Group(rows, project, kind) + Newest(Group(rows, project, kind), Keep(kind).value)
  }

  predicate Names(r: Row, project: string, kind: string, key: string) {
    In(r, project, kind) && r.key == Take(key, MAX_KEY)
  }

  function Write(t: Table, project: string, kind: string, key: string, text: string, now: int): Table {
    var same := set r | r in t.rows && Names(r, project, kind, key);
    if same == {} then
      var row := Row(t.nextId, project, kind, Take(key, MAX_KEY), text, now);
      Table(RollOff(t.rows + {row}, project, kind), t.nextId + 1, now)
    else
      var changed := set r | r in same :: r.(content := text, at := now);
      Table(RollOff(t.rows - same + changed, project, kind), t.nextId, now)
  }

  datatype Op =
    | Put(project: string, kind: string, content: string, key: string, now: int)
    | Resolve(project: string, kind: string, key: string)
    | Forget(project: string, id: nat)

  function Apply(t: Table, op: Op, redact: string -> string): Table {
    match op
    case Put(project, kind, content, key, now) =>
      var stored := Stored(kind, content, redact);
      if stored.Err? then t else Write(t, project, kind, KeyOf(kind, stored.value, key), stored.value, now)
    case Resolve(project, kind, key) =>
      t.(rows := set r | r in t.rows && !(In(r, project, kind) && r.key == key))
    case Forget(project, id) =>
      t.(rows := set r | r in t.rows && !(r.id == id && r.project == project))
  }

  function Run(ops: seq<Op>, redact: string -> string): Table {
    if ops == [] then EMPTY else Apply(Run(ops[..|ops| - 1], redact), ops[|ops| - 1], redact)
  }

  // ------------------------------------------------------------- over every run

  /** The clock of the writes does not go back. */
  ghost predicate InTime(t: Table, op: Op) {
    op.Put? ==> op.now >= t.clock
  }

  ghost predicate RunsInTime(ops: seq<Op>, redact: string -> string) {
    forall i | 0 <= i < |ops| :: InTime(Run(ops[..i], redact), ops[i])
  }

  ghost predicate Unique(rows: set<Row>) {
    forall r, q | r in rows && q in rows && In(r, q.project, q.kind) && r.key == q.key :: r == q
  }

  ghost predicate Dated(t: Table) {
    forall r | r in t.rows :: r.at <= t.clock && r.id < t.nextId
  }

  ghost predicate Limited(rows: set<Row>, project: string, kind: string) {
    Keep(kind).Some? ==> |Group(rows, project, kind)| <= Keep(kind).value
  }

  ghost predicate Sound(t: Table) {
    && Distinct(t.rows) && Unique(t.rows) && Dated(t)
    && forall project, kind :: Limited(t.rows, project, kind)
  }

  lemma {:induction false} RollOffKeepsOthers(rows: set<Row>, project: string, kind: string)
    ensures RollOff(rows, project, kind) <= rows
    ensures forall r | r in rows && !In(r, project, kind) :: r in RollOff(rows, project, kind)
    ensures Keep(kind).None? ==> RollOff(rows, project, kind) == rows
  {
  }

  lemma {:induction false} RollOffGroup(rows: set<Row>, project: string, kind: string)
    requires Keep(kind).Some?
    ensures Group(RollOff(rows, project, kind), project, kind) == Newest(Group(rows, project, kind), Keep(kind).value)
  {
    hide Keep;
    hide Rank;
  }

  lemma OtherGroupsStay(rows: set<Row>, more: set<Row>, p: string, k: string)
    requires Group(more, p, k) <= Group(rows, p, k) && Limited(rows, p, k)
    ensures Limited(more, p, k)
  {
    Subset(Group(more, p, k), Group(rows, p, k));
  }

  lemma RollOffLimits(rows: set<Row>, project: string, kind: string)
    requires Distinct(rows)
    requires forall p, k | p != project || k != kind :: Limited(rows, p, k)
    ensures forall p, k :: Limited(RollOff(rows, project, kind), p, k)
  {
    forall p, k ensures Limited(RollOff(rows, project, kind), p, k) {
      if p == project && k == kind {
        if Keep(kind).Some? {
          RollOffGroup(rows, project, kind);
          NewestAreFew(Group(rows, project, kind), Keep(kind).value);
        }
      } else {
        RollOffKeepsOthers(rows, project, kind);
        hide RollOff;
        hide Limited;
        OtherGroupsStay(rows, RollOff(rows, project, kind), p, k);
      }
    }
  }

  /** The rows just before the roll-off, and the one just written. */
  function Inserted(t: Table, project: string, kind: string, key: string, text: string, now: int): Row {
    Row(t.nextId, project, kind, Take(key, MAX_KEY), text, now)
  }

  ghost predicate Written(before: set<Row>, rows: set<Row>, row: Row) {
    && row in rows
    && (forall r | r in rows && r != row :: r in before)
    && (forall r | r in before && r !in rows :: In(r, row.project, row.kind) && r.key == row.key && r.id == row.id)
  }

  lemma {:induction false} InsertIsWritten(t: Table, project: string, kind: string, key: string, text: string, now: int)
    requires Sound(t) && now >= t.clock
    requires forall r | r in t.rows :: !Names(r, project, kind, key)
    ensures var row := Inserted(t, project, kind, key, text, now);
            Written(t.rows, t.rows + {row}, row) && Distinct(t.rows + {row}) && Unique(t.rows + {row})
            && forall r | r in t.rows :: Newer(row, r)
  {
  }

  lemma {:induction false} UpdateIsWritten(t: Table, prior: Row, text: string, now: int)
    requires Sound(t) && now >= t.clock && prior in t.rows
    ensures var row := prior.(content := text, at := now);
            var rows := t.rows - {prior} + {row};
            Written(t.rows, rows, row) && Distinct(rows) && Unique(rows)
  {
  }

  /** A table after a write, whether it inserted or replaced. */
  lemma WriteSplits(t: Table, project: string, kind: string, key: string, text: string, now: int)
    returns (rows: set<Row>, row: Row)
    requires Sound(t) && now >= t.clock
    ensures Written(t.rows, rows, row) && Distinct(rows) && Unique(rows)
    ensures Names(row, project, kind, key) && row.content == text && row.at == now
    ensures (forall r | r in rows && r != row :: Newer(row, r)) || |Group(rows, project, kind)| <= |Group(t.rows, project, kind)|
    ensures Write(t, project, kind, key, text, now).rows == RollOff(rows, project, kind)
    ensures row.id < Write(t, project, kind, key, text, now).nextId && Write(t, project, kind, key, text, now).clock == now
    ensures Write(t, project, kind, key, text, now).nextId >= t.nextId
  {
    var same := set r | r in t.rows && Names(r, project, kind, key);
    if same == {} {
      assert forall r | r in t.rows :: Names(r, project, kind, key) ==> r in same;
      row := Inserted(t, project, kind, key, text, now);
      rows := t.rows + {row};
      InsertIsWritten(t, project, kind, key, text, now);
    } else {
      var prior :| prior in same;
      assert same == {prior};
      row := prior.(content := text, at := now);
      assert (set r | r in same :: r.(content := text, at := now)) == {row};
      rows := t.rows - {prior} + {row};
      UpdateIsWritten(t, prior, text, now);
      SameSize(t.rows, prior, row, project, kind);
    }
  }

  lemma SameSize(before: set<Row>, prior: Row, row: Row, project: string, kind: string)
    requires prior in before && In(prior, project, kind) && In(row, project, kind)
    ensures |Group(before - {prior} + {row}, project, kind)| <= |Group(before, project, kind)|
  {
    var g := Group(before, project, kind);
    assert Group(before - {prior} + {row}, project, kind) == g - {prior} + {row};
    Subset(g - {prior} + {row}, g - {prior} + {row});
  }

  /** A write keeps the table sound: names stay unique, and no group of Nova's own grows past its limit. */
  lemma {:induction false} WriteIsSound(t: Table, project: string, kind: string, key: string, text: string, now: int)
    requires Sound(t) && now >= t.clock
    ensures Sound(Write(t, project, kind, key, text, now))
  {
    var rows, row := WriteSplits(t, project, kind, key, text, now);
    hide Write;
    hide Limited;
    OthersLimited(t.rows, rows, row);
    RollOffLimits(rows, project, kind);
    RollOffKeepsOthers(rows, project, kind);
    hide RollOff;
    var after := Write(t, project, kind, key, text, now);
    assert Dated(after);
  }

  lemma OthersLimited(before: set<Row>, rows: set<Row>, row: Row)
    requires Written(before, rows, row) && forall p, k :: Limited(before, p, k)
    ensures forall p, k | p != row.project || k != row.kind :: Limited(rows, p, k)
  {
    hide Limited;
    forall p, k | p != row.project || k != row.kind ensures Limited(rows, p, k) {
      OtherGroupsStay(before, rows, p, k);
    }
  }

  /** The entry just written survives its own roll-off, under its name and with its content. */
  lemma JustWrittenSurvives(t: Table, project: string, kind: string, key: string, text: string, now: int)
    requires Sound(t) && now >= t.clock
    ensures exists r | r in Write(t, project, kind, key, text, now).rows ::
              Names(r, project, kind, key) && r.content == text && r.at == now
  {
    var rows, row := WriteSplits(t, project, kind, key, text, now);
    hide Write;
    if Keep(kind).Some? {
      var group := Group(rows, project, kind);
      assert row in group;
      if forall r | r in rows && r != row :: Newer(row, r) {
        assert NewerThan(group, row) == {};
      } else {
        assert Limited(t.rows, project, kind);
        FewAreAllKept(group, Keep(kind).value);
      }
      assert row in Newest(group, Keep(kind).value);
    }
    assert row in RollOff(rows, project, kind);
  }

  /** What a write removes, apart from the entry it replaces, is older than everything left in the same
      group; and it is never the owner's. */
  lemma {:induction false} WriteRemovesOnlyTheOldest(t: Table, project: string, kind: string, key: string, text: string, now: int, gone: Row)
    requires Sound(t) && now >= t.clock
    requires gone in t.rows && gone !in Write(t, project, kind, key, text, now).rows && !Names(gone, project, kind, key)
    ensures In(gone, project, kind) && kind !in OWNER_KINDS
    ensures forall r | r in Group(Write(t, project, kind, key, text, now).rows, project, kind) :: Newer(r, gone)
  {
    var rows, row := WriteSplits(t, project, kind, key, text, now);
    hide Write;
    assert gone in rows;
    RollOffKeepsOthers(rows, project, kind);
    RollOffGroup(rows, project, kind);
    hide RollOff;
    var group := Group(rows, project, kind);
    forall r | r in Newest(group, Keep(kind).value) ensures Newer(r, gone) {
      OnlyTheOldestGo(group, Keep(kind).value, r, gone);
    }
  }

  lemma {:induction false} ApplyIsSound(t: Table, op: Op, redact: string -> string)
    requires Sound(t) && InTime(t, op)
    ensures Sound(Apply(t, op, redact))
  {
    match op
    case Put(project, kind, content, key, now) =>
      hide Sound;
      var stored := Stored(kind, content, redact);
      if stored.Ok? {
        WriteIsSound(t, project, kind, KeyOf(kind, stored.value, key), stored.value, now);
      }
    case _ =>
      var after := Apply(t, op, redact);
      assert after.rows <= t.rows;
      hide Apply;
      forall p, k ensures Limited(after.rows, p, k) {
        OtherGroupsStay(t.rows, after.rows, p, k);
      }
  }

  /** Over any sequence of operations, names are unique and tasks and findings within 30 and 20 a project. */
  lemma {:induction false} EveryRunIsSound(ops: seq<Op>, redact: string -> string)
    requires RunsInTime(ops, redact)
    ensures Sound(Run(ops, redact))
  {
    if ops == [] {
      EmptyIsSound();
    } else {
      var n := |ops| - 1;
      var before := ops[..n];
      assert forall i | 0 <= i < n :: before[..i] == ops[..i] && before[i] == ops[i];
      EveryRunIsSound(before, redact);
      hide Apply;
      hide Sound;
      ApplyIsSound(Run(before, redact), ops[n], redact);
    }
  }

  lemma {:induction false} EmptyIsSound()
    ensures Sound(EMPTY)
  {
    forall p, k ensures Limited({}, p, k) {
      assert Group({}, p, k) == {};
    }
  }

  /** Resolving under the very key of the put removes the entry -- exactly when that key was short enough
      to be stored whole. */
  lemma PutThenResolve(t: Table, project: string, kind: string, key: string, text: string, now: int, redact: string -> string)
    requires Sound(t) && now >= t.clock
    ensures (forall r | r in Apply(Write(t, project, kind, key, text, now), Resolve(project, kind, key), redact).rows ::
               !Names(r, project, kind, key))
       <==> |key| <= MAX_KEY
  {
    JustWrittenSurvives(t, project, kind, key, text, now);
    var after := Write(t, project, kind, key, text, now);
    hide Write;
    var row :| row in after.rows && Names(row, project, kind, key) && row.content == text && row.at == now;
    if |key| > MAX_KEY {
      assert |row.key| == MAX_KEY;
      assert row in Apply(after, Resolve(project, kind, key), redact).rows;
    }
  }

  // ------------------------------------------------------------------ the store

  class ProjectMemory {
    const redact: string -> string
    var rows: set<Row>
    var nextId: nat
    var clock: int

    function State(): Table
      reads this
    {
      Table(rows, nextId, clock)
    }

    ghost predicate Valid()
      reads this
    {
      Sound(State())
    }

    constructor (redact: string -> string)
      ensures Valid() && State() == EMPTY && this.redact == redact
    {
      this.redact := redact;
      rows, nextId, clock := {}, 1, 0;
      new;
      EmptyIsSound();
    }

    method Add(project: string, kind: string, content: string, key: string, now: int) returns (r: Result<nat>)
      requires Valid() && now >= clock
      modifies this
      ensures Valid() && State() == Apply(old(State()), Put(project, kind, content, key, now), redact)
      ensures r.Err? <==> Stored(kind, content, redact).Err?
      ensures r.Ok? ==> exists row | row in rows ::
                row.id == r.value && row.at == now && row.content == Stored(kind, content, redact).value
                && Names(row, project, kind, KeyOf(kind, row.content, key))
    {
      hide Sound;
      ApplyIsSound(State(), Put(project, kind, content, key, now), redact);
      var stored := Stored(kind, content, redact);
      if stored.Err? {
        return Err(stored.error);
      }
      var text := stored.value;
      var name := KeyOf(kind, text, key);
      JustWrittenSurvives(State(), project, kind, name, text, now);
      ghost var before := State();
      var same := set row | row in rows && Names(row, project, kind, name);
      if same == {} {
        rows := rows + {Row(nextId, project, kind, Take(name, MAX_KEY), text, now)};
        nextId := nextId + 1;
      } else {
        rows := rows - same + set row | row in same :: row.(content := text, at := now);
      }
      clock := now;
      RemoveOldest(project, kind);
      assert State() == Write(before, project, kind, name, text, now);
      hide Write;
      var row :| row in rows && Names(row, project, kind, name) && row.content == text && row.at == now;
      r := Ok(row.id);
    }

    method RemoveOldest(project: string, kind: string)
      modifies this`rows
      ensures rows == RollOff(old(rows), project, kind)
    {
      var keep := Keep(kind);
      if keep == None {
        return;
      }
      var group := Group(rows, project, kind);
      var gone := group - Newest(group, keep.value);
      rows := rows - gone;
    }

    method Drop(project: string, kind: string, key: string) returns (found: bool)
      requires Valid()
      modifies this`rows
      ensures Valid() && State() == Apply(old(State()), Resolve(project, kind, key), redact)
      ensures found <==> exists r | r in old(rows) :: In(r, project, kind) && r.key == key
    {
      ApplyIsSound(State(), Resolve(project, kind, key), redact);
      hide Sound;
      var gone := set r | r in rows && In(r, project, kind) && r.key == key;
      assert forall r | r in rows && In(r, project, kind) && r.key == key :: r in gone;
      found := gone != {};
      rows := rows - gone;
      assert rows == Apply(old(State()), Resolve(project, kind, key), redact).rows;
    }

    method ForgetEntry(project: string, id: nat) returns (found: bool)
      requires Valid()
      modifies this`rows
      ensures Valid() && State() == Apply(old(State()), Forget(project, id), redact)
      ensures found <==> exists r | r in old(rows) :: r.id == id && r.project == project
    {
      ApplyIsSound(State(), Forget(project, id), redact);
      hide Sound;
      var gone := set r | r in rows && r.id == id && r.project == project;
      assert forall r | r in rows && r.id == id && r.project == project :: r in gone;
      found := gone != {};
      rows := rows - gone;
      assert rows == Apply(old(State()), Forget(project, id), redact).rows;
    }
  }

  // ----------------------------------------------------------------- the context

  function JoinLines(lines: seq<string>): string {
    if lines == [] then "" else if |lines| == 1 then lines[0] else JoinLines(lines[..|lines| - 1]) + "\n" + lines[|lines| - 1]
  }

  lemma {:induction false} LongerNeedsMore(lines: seq<string>, n: nat, m: nat)
    requires n <= m <= |lines|
    ensures |JoinLines(lines[..n])| <= |JoinLines(lines[..m])|
    decreases m - n
  {
    if n < m {
      LongerNeedsMore(lines, n, m - 1);
      assert lines[..m][..m - 1] == lines[..m - 1];
    }
  }

  /** The first n lines are the longest run from the front that fits the budget, one per line. */
  ghost predicate LongestFit(lines: seq<string>, budget: int, n: nat) {
    && n <= |lines|
    && (n > 0 ==> |JoinLines(lines[..n])| <= budget)
    && (forall m | n < m <= |lines| :: |JoinLines(lines[..m])| > budget)
  }

  method Fit(lines: seq<string>, budget: int) returns (text: string)
    ensures exists n: nat :: LongestFit(lines, budget, n) && text == JoinLines(lines[..n])
  {
    var out: seq<string> := [];
    var used, n := 0, 0;
    while |out| < |lines|
      invariant n == |out| <= |lines| && out == lines[..n]
      invariant used == if n == 0 then 0 else |JoinLines(out)| + 1
      invariant n > 0 ==> |JoinLines(out)| <= budget
    {
      var line := lines[|out|];
      assert lines[..n + 1] == out + [line];
      assert (out + [line])[..n] == out;
      if used + |line| > budget {
        forall m | n < m <= |lines| ensures |JoinLines(lines[..m])| > budget {
          LongerNeedsMore(lines, n + 1, m);
        }
        break;
      }
      out := out + [line];
      used := used + |line| + 1;
      n := n + 1;
    }
    assert LongestFit(lines, budget, n);
    text := JoinLines(out);
  }
}
