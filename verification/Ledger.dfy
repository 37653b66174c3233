/** The idempotency ledger in front of every side effect of a task, and the gate that consults it.

    A side effect is named by a key: its action, target and exact parameters. The ledger entry is written
    PENDING right before the tool runs and DONE or FAILED right after; whatever happens in between --
    a crash, a restart, another provider proposing the same call -- the effect must not happen twice. */
module Ledger {

  datatype Status = Pending | Done | Failed

  /** How one call through the gate goes, as the world decides it. */
  datatype Fate =
    | Denied       // the precheck or the agent's skill list refuses it
    | Waiting      // the permission gate parks it for the owner
    | Worked       // the tool runs and reports success
    | Refused      // the tool runs, changes nothing and reports failure
    | Missed       // the tool runs and its effect happens, but it reports failure
    | DiedBefore   // the service dies after the entry is opened and before the effect
    | DiedAfter    // the service dies after the effect and before it is recorded

  datatype Reply = Stopped | Replayed | InDoubt | Ran(ok: bool) | Died

  /** The entries, and the effects that have really happened, oldest first. */
  datatype Books<Key> = Books(entries: map<Key, Status>, world: seq<Key>)

  predicate Effective(fate: Fate) {
    fate == Worked || fate == Missed || fate == DiedAfter
  }

  predicate May<Key(==)>(b: Books<Key>, key: Key) {
    key !in b.entries || b.entries[key] == Failed
  }

  function Call<Key(==)>(b: Books<Key>, key: Key, fate: Fate): (Books<Key>, Reply) {
    if fate.Denied? then (b, Stopped)
    else if key in b.entries && b.entries[key].Done? then (b, Replayed)
    else if key in b.entries && b.entries[key].Pending? then (b, InDoubt)
    else match fate
      case Worked => (Books(b.entries[key := Done], b.world + [key]), Ran(true))
      case Refused => (Books(b.entries[key := Failed], b.world), Ran(false))
      case Missed => (Books(b.entries[key := Failed], b.world + [key]), Ran(false))
      case DiedBefore => (Books(b.entries[key := Pending], b.world), Died)
      case DiedAfter => (Books(b.entries[key := Pending], b.world + [key]), Died)
      case _ => (b, Stopped)
  }

  datatype Attempt<Key> = Attempt(key: Key, fate: Fate)

  /** Any number of attempts, by any number of lives of the service. */
  function Run<Key(==)>(attempts: seq<Attempt<Key>>): Books<Key> {
    if attempts == [] then Books(map[], [])
    else
      var a := attempts[|attempts| - 1];
      Call(Run(attempts[..|attempts| - 1]), a.key, a.fate).0
  }

  function Answer<Key(==)>(attempts: seq<Attempt<Key>>, i: nat): Reply
    requires i < |attempts|
  {
    Call(Run(attempts[..i]), attempts[i].key, attempts[i].fate).1
  }

  function Times<Key(==)>(b: Books<Key>, key: Key): nat {
    multiset(b.world)[key]
  }

  /** How often a call was let through whose tool missed its own effect. */
  function Misses<Key(==)>(attempts: seq<Attempt<Key>>, key: Key): nat {
    if attempts == [] then 0
    else
      var before := attempts[..|attempts| - 1];
      Misses(before, key) + if attempts[|attempts| - 1] == Attempt(key, Missed) && May(Run(before), key) then 1 else 0
  }

  /** The entries account for the world: as long as the key may run, each of its effects was missed. */
  predicate Accounted<Key(==)>(b: Books<Key>, key: Key, misses: nat) {
    && (if May(b, key) then Times(b, key) == misses else misses <= Times(b, key) <= misses + 1)
    && (key in b.entries && b.entries[key].Done? ==> Times(b, key) == misses + 1)
    && (key !in b.entries ==> misses == 0)
  }

  lemma {:induction false} CallKeepsAccounts<Key>(b: Books<Key>, key: Key, fate: Fate, k: Key, misses: nat)
    requires Accounted(b, k, misses)
    ensures Accounted(Call(b, key, fate).0, k, misses + if key == k && fate == Missed && May(b, key) then 1 else 0)
  {
    CallCounts(b, key, fate, k);
    hide Times;
    var after := Call(b, key, fate).0;
    assert key != k ==> May(after, k) == May(b, k);
  }

  /** A call adds at most its own effect. */
  lemma {:induction false} CallCounts<Key>(b: Books<Key>, key: Key, fate: Fate, k: Key)
    ensures Times(Call(b, key, fate).0, k) == Times(b, k) + if k == key && May(b, key) && Effective(fate) then 1 else 0
  {
    assert multiset(b.world + [key]) == multiset(b.world) + multiset{key};
  }

  lemma {:induction false} EveryRunIsAccounted<Key>(attempts: seq<Attempt<Key>>, key: Key)
    ensures Accounted(Run(attempts), key, Misses(attempts, key))
  {
    if attempts != [] {
      var before := attempts[..|attempts| - 1];
      var a := attempts[|attempts| - 1];
      EveryRunIsAccounted(before, key);
      CallKeepsAccounts(Run(before), a.key, a.fate, key, Misses(before, key));
    }
  }

  /** A call of this key that leaves it closed: it worked, or the service died in it. */
  predicate Closes<Key(==)>(a: Attempt<Key>, key: Key) {
    a.key == key && a.fate in {Worked, DiedBefore, DiedAfter}
  }

  /** No call of this key before the n-th closed it. */
  ghost predicate OpenAt<Key>(attempts: seq<Attempt<Key>>, key: Key, n: nat) {
    forall i | 0 <= i < n && i < |attempts| :: !Closes(attempts[i], key)
  }

  lemma {:induction false} OpenAtNext<Key>(attempts: seq<Attempt<Key>>, key: Key, n: nat)
    requires n < |attempts|
    ensures OpenAt(attempts, key, n + 1) <==> OpenAt(attempts, key, n) && !Closes(attempts[n], key)
  {
    hide Closes;
  }

  lemma {:induction false} RunNext<Key>(attempts: seq<Attempt<Key>>, n: nat)
    requires n < |attempts|
    ensures Run(attempts[..n + 1]) == Call(Run(attempts[..n]), attempts[n].key, attempts[n].fate).0
  {
    assert attempts[..n + 1][..n] == attempts[..n];
  }

  /** The ledger lets a call run exactly when none closed its key before. */
  lemma {:induction false} MayExactlyWhenOpen<Key>(attempts: seq<Attempt<Key>>, key: Key, n: nat)
    requires n <= |attempts|
    ensures May(Run(attempts[..n]), key) <==> OpenAt(attempts, key, n)
  {
    if n > 0 {
      MayExactlyWhenOpen(attempts, key, n - 1);
      RunNext(attempts, n - 1);
      OpenAtNext(attempts, key, n - 1);
      hide Run;
      hide OpenAt;
    }
  }

  /** The one call that closed the key before the n-th. */
  ghost predicate ClosedBy<Key>(attempts: seq<Attempt<Key>>, key: Key, n: nat, j: nat) {
    j < n <= |attempts| && Closes(attempts[j], key) && OpenAt(attempts, key, j)
  }

  lemma {:induction false} WhoClosed<Key>(attempts: seq<Attempt<Key>>, key: Key, n: nat) returns (j: nat)
    requires n <= |attempts| && !May(Run(attempts[..n]), key)
    ensures ClosedBy(attempts, key, n, j)
    ensures Run(attempts[..n]).entries[key] == if attempts[j].fate.Worked? then Done else Pending
  {
    assert n > 0;
    MayExactlyWhenOpen(attempts, key, n - 1);
    RunNext(attempts, n - 1);
    hide Run;
    hide OpenAt;
    if May(Run(attempts[..n - 1]), key) {
      j := n - 1;
    } else {
      j := WhoClosed(attempts, key, n - 1);
    }
  }

  lemma {:induction false} ClosedOnce<Key>(attempts: seq<Attempt<Key>>, key: Key, n: nat, j: nat, k: nat)
    requires ClosedBy(attempts, key, n, j) && ClosedBy(attempts, key, n, k)
    ensures j == k
  {
    hide Closes;
  }

  /** The call the entry stands for: it worked, or the service died in it. */
  ghost predicate Earlier<Key>(attempts: seq<Attempt<Key>>, i: nat, worked: bool)
    requires i < |attempts|
  {
    exists j: nat :: ClosedBy(attempts, attempts[i].key, i, j) && (attempts[j].fate.Worked? <==> worked)
  }

  /** What a call that is not denied answers: that it worked earlier exactly when the one earlier call that closed
      its key worked, that it is in doubt exactly when the service died in that one; otherwise it waits for
      the owner or runs, and answers how that went. */
  lemma {:induction false} AnswersExactly<Key>(attempts: seq<Attempt<Key>>, i: nat)
    requires i < |attempts| && !attempts[i].fate.Denied?
    ensures Answer(attempts, i) == Replayed <==> Earlier(attempts, i, true)
    ensures Answer(attempts, i) == InDoubt <==> Earlier(attempts, i, false)
    ensures !Earlier(attempts, i, true) && !Earlier(attempts, i, false) ==>
              Answer(attempts, i) == match attempts[i].fate
                                     case Waiting => Stopped
                                     case Worked => Ran(true)
                                     case Refused => Ran(false)
                                     case Missed => Ran(false)
                                     case _ => Died
  {
    var key := attempts[i].key;
    MayExactlyWhenOpen(attempts, key, i);
    hide Run;
    if May(Run(attempts[..i]), key) {
      assert forall j: nat :: !ClosedBy(attempts, key, i, j);
    } else {
      var k := WhoClosed(attempts, key, i);
      forall j: nat | ClosedBy(attempts, key, i, j) ensures j == k {
        ClosedOnce(attempts, key, i, j, k);
      }
    }
  }

  /** The n-th call has its effect. */
  ghost predicate Happens<Key>(attempts: seq<Attempt<Key>>, key: Key, n: nat)
    requires n < |attempts|
  {
    attempts[n].key == key && Effective(attempts[n].fate) && OpenAt(attempts, key, n)
  }

  lemma {:induction false} TimesNext<Key>(attempts: seq<Attempt<Key>>, key: Key, n: nat)
    requires n < |attempts|
    ensures Times(Run(attempts[..n + 1]), key) == Times(Run(attempts[..n]), key) + if Happens(attempts, key, n) then 1 else 0
  {
    MayExactlyWhenOpen(attempts, key, n);
    RunNext(attempts, n);
    hide Run;
    CallCounts(Run(attempts[..n]), attempts[n].key, attempts[n].fate, key);
    hide Call;
    hide Times;
    hide OpenAt;
  }

  lemma {:induction false} WhereHappened<Key>(attempts: seq<Attempt<Key>>, key: Key, n: nat) returns (i: nat)
    requires n <= |attempts| && Times(Run(attempts[..n]), key) > 0
    ensures i < n && Happens(attempts, key, i)
  {
    assert n > 0;
    TimesNext(attempts, key, n - 1);
    hide Run;
    hide Happens;
    hide Times;
    if Happens(attempts, key, n - 1) {
      i := n - 1;
    } else {
      i := WhereHappened(attempts, key, n - 1);
    }
  }

  lemma {:induction false} TimesGrow<Key>(attempts: seq<Attempt<Key>>, key: Key, i: nat, n: nat)
    requires i <= n <= |attempts|
    ensures Times(Run(attempts[..n]), key) >= Times(Run(attempts[..i]), key)
    decreases n
  {
    hide Run;
    hide Happens;
    hide Times;
    if i < n {
      TimesNext(attempts, key, n - 1);
      TimesGrow(attempts, key, i, n - 1);
    }
  }

  /** A missed effect, and a later call that has the effect again. */
  ghost predicate Repeats<Key>(attempts: seq<Attempt<Key>>, key: Key, i: nat, j: nat) {
    i < j < |attempts| && attempts[i] == Attempt(key, Missed) && Happens(attempts, key, j)
  }

  lemma {:induction false} WhereRepeated<Key>(attempts: seq<Attempt<Key>>, key: Key, n: nat) returns (i: nat, j: nat)
    requires n <= |attempts| && Times(Run(attempts[..n]), key) > 1
    ensures Repeats(attempts, key, i, j)
  {
    assert n > 0;
    TimesNext(attempts, key, n - 1);
    hide Run;
    hide Times;
    if Happens(attempts, key, n - 1) {
      j := n - 1;
      i := WhereHappened(attempts, key, j);
      assert !Closes(attempts[i], key);
    } else {
      i, j := WhereRepeated(attempts, key, n - 1);
    }
  }

  /** Over any number of attempts and crashes a side effect happens at most once -- exactly unless a tool
      missed its own effect and a later call, with nothing in between that worked or was cut short, has it
      again. In all it happens once for each miss, and once more at most. */
  lemma {:induction false} AtMostOnce<Key>(attempts: seq<Attempt<Key>>, key: Key)
    ensures Times(Run(attempts), key) <= 1 <==> !exists i: nat, j: nat :: Repeats(attempts, key, i, j)
    ensures Misses(attempts, key) <= Times(Run(attempts), key) <= Misses(attempts, key) + 1
  {
    EveryRunIsAccounted(attempts, key);
    hide Run;
    hide Times;
    hide Misses;
    assert attempts[..|attempts|] == attempts;
    if Times(Run(attempts), key) > 1 {
      var i, j := WhereRepeated(attempts, key, |attempts|);
    }
    if i: nat, j: nat :| Repeats(attempts, key, i, j) {
      hide Repeats;
      RepeatedTwice(attempts, key, i, j);
    }
  }

  lemma {:induction false} RepeatedTwice<Key>(attempts: seq<Attempt<Key>>, key: Key, i: nat, j: nat)
    requires Repeats(attempts, key, i, j)
    ensures Times(Run(attempts), key) > 1
  {
    hide Run;
    hide Times;
    hide Closes;
    assert attempts[..|attempts|] == attempts;
    assert OpenAt(attempts, key, i);
    assert Happens(attempts, key, i);
    TimesNext(attempts, key, i);
    TimesNext(attempts, key, j);
    hide Happens;
    TimesGrow(attempts, key, i + 1, j);
    TimesGrow(attempts, key, j + 1, |attempts|);
  }

  /** At a call: it has an effect that has happened before exactly when the entry is FAILED although the effect
      is in the world, and the call has it. */
  lemma {:induction false} RepeatsAtCallExactly<Key>(attempts: seq<Attempt<Key>>, key: Key, fate: Fate)
    ensures var b := Run(attempts);
            (Times(b, key) > 0 && Times(Call(b, key, fate).0, key) > Times(b, key)
             <==> key in b.entries && b.entries[key].Failed? && key in b.world && Effective(fate))
  {
    EveryRunIsAccounted(attempts, key);
    CallCounts(Run(attempts), key, fate, key);
    hide Call;
    hide Run;
  }

  /** Those are really repeated. */
  lemma {:induction false} MissedEffectsRepeat<Key>(key: Key, n: nat)
    ensures var attempts := seq(n, _ => Attempt(key, Missed)) + [Attempt(key, Worked)];
            Misses(attempts, key) == n && Times(Run(attempts), key) == n + 1
  {
    var misses := seq(n, _ => Attempt(key, Missed));
    MissesAddUp(key, n);
    var attempts := misses + [Attempt(key, Worked)];
    assert attempts[..n] == misses;
    var b := Run(misses);
    assert multiset(b.world + [key]) == multiset(b.world) + multiset{key};
  }

  lemma {:induction false} MissesAddUp<Key>(key: Key, n: nat)
    ensures var misses := seq(n, _ => Attempt(key, Missed));
            Misses(misses, key) == n && Times(Run(misses), key) == n && May(Run(misses), key)
  {
    if n > 0 {
      MissesAddUp(key, n - 1);
      var misses := seq(n, _ => Attempt(key, Missed));
      assert misses[..n - 1] == seq(n - 1, _ => Attempt(key, Missed));
      var b := Run(misses[..n - 1]);
      assert multiset(b.world + [key]) == multiset(b.world) + multiset{key};
    }
  }

  /** Whoever is told that the call worked -- now or earlier -- is told the truth. */
  lemma {:induction false} SuccessIsReal<Key>(attempts: seq<Attempt<Key>>, i: nat)
    requires i < |attempts| && Answer(attempts, i) in {Replayed, Ran(true)}
    ensures Times(Run(attempts[..i + 1]), attempts[i].key) >= 1
  {
    EveryRunIsAccounted(attempts[..i + 1], attempts[i].key);
    assert attempts[..i + 1][..i] == attempts[..i];
  }

  /** Once a call worked or was cut short, nothing later runs it again: its entry and its effects stay. */
  lemma {:induction false} ClosedStaysClosed<Key>(attempts: seq<Attempt<Key>>, key: Key, i: nat)
    requires i <= |attempts| && !May(Run(attempts[..i]), key)
    ensures !May(Run(attempts), key) && Run(attempts).entries[key] == Run(attempts[..i]).entries[key]
    ensures Times(Run(attempts), key) == Times(Run(attempts[..i]), key)
    decreases |attempts|
  {
    if i == |attempts| {
      assert attempts[..i] == attempts;
    } else {
      var n := |attempts| - 1;
      var before := attempts[..n];
      assert before[..i] == attempts[..i];
      ClosedStaysClosed(before, key, i);
      hide Run;
      ClosedStep(Run(before), attempts[n], key);
      LastCall(attempts);
    }
  }

  lemma {:induction false} LastCall<Key>(attempts: seq<Attempt<Key>>)
    requires attempts != []
    ensures var a := attempts[|attempts| - 1];
            Run(attempts) == Call(Run(attempts[..|attempts| - 1]), a.key, a.fate).0
  {
  }

  lemma {:induction false} ClosedStep<Key>(b: Books<Key>, a: Attempt<Key>, key: Key)
    requires !May(b, key)
    ensures var after := Call(b, a.key, a.fate).0;
            !May(after, key) && after.entries[key] == b.entries[key] && Times(after, key) == Times(b, key)
  {
    CallCounts(b, a.key, a.fate, key);
    hide Times;
  }

  /** The gate every skill tool call passes through. */
  class Gate<Key(==)> {
    var entries: map<Key, Status>
    /** What has really happened; no program can read it. */
    ghost var world: seq<Key>

    ghost function State(): Books<Key>
      reads this
    {
      Books(entries, world)
    }

    constructor ()
      ensures State() == Books(map[], [])
    {
      entries := map[];
      world := [];
    }

    /** `able` says whether the tool can have its effect at all; without it, no success is reported.
        `fate` is what the world knows; the program sees only the reply. */
    method Invoke(key: Key, able: bool) returns (reply: Reply, fate: Fate)
      modifies this
      ensures (State(), reply) == Call(old(State()), key, fate)
      ensures !able ==> !Effective(fate)
    {
      var permitted: bool, approved: bool, dies: bool, ok: bool, happens: bool := *, *, *, *, *;
      if !permitted {
        return Stopped, Denied;
      }
      if key in entries && entries[key] == Done {
        return Replayed, Waiting;
      }
      if key in entries && entries[key] == Pending {
        return InDoubt, Waiting;
      }
      if !approved {
        return Stopped, Waiting;
      }
      ghost var before := entries;
      entries := entries[key := Pending];
      ok := ok && able;
      if ok || (happens && able) {
        world := world + [key];
        fate := if dies then DiedAfter else if ok then Worked else Missed;
      } else {
        fate := if dies then DiedBefore else Refused;
      }
      if dies {
        return Died, fate;
      }
      entries := entries[key := if ok then Done else Failed];
      assert entries == before[key := entries[key]];
      return Ran(ok), fate;
    }
  }
}
