/** Replaying a learned recipe: the calls of an earlier, verified run again, without a planner. */
module Replay {
  import opened Grounding
  import opened Operator
  import opened Options

  datatype Progress = Progress(slot: string, done: seq<Return>)

  datatype Ending = NoRecipe | OnHold | GaveUp | Finished(done: seq<Return>)

  /** These results are of the recipe's first calls, one each, in order, and all of them worked. */
  ghost predicate Follows(done: seq<Return>, calls: seq<Call>) {
    && |done| <= |calls|
    && forall i | 0 <= i < |done| :: done[i].call == calls[i] && done[i].result.ok
  }

  /** The effects a finished replay reports: exactly one for each call that changed something, in order. */
  lemma {:induction false} FollowsReportsAll(done: seq<Return>, calls: seq<Call>) returns (places: seq<nat>)
    requires Follows(done, calls) && |done| == |calls|
    ensures Calls(done) == calls
    ensures |EffectsOf(done)| == |places| && forall k, l | 0 <= k < l < |places| :: places[k] < places[l]
    ensures forall i | 0 <= i < |done| :: i in places <==> done[i].result.effect.Some?
    ensures forall k | 0 <= k < |places| :: places[k] < |done| && done[places[k]].result.effect.Some?
                                         && EffectsOf(done)[k] == Effect(calls[places[k]], done[places[k]].result.effect.value)
  {
    CallsAre(done, calls);
    places := EffectsAreReported(done);
    forall i | 0 <= i < |done| ensures i in places <==> done[i].result.effect.Some? {
      if i in places {
        var k :| 0 <= k < |places| && places[k] == i;
      }
    }
  }

  lemma {:induction false} CallsAre(done: seq<Return>, calls: seq<Call>)
    requires Follows(done, calls) && |done| == |calls|
    ensures Calls(done) == calls
  {
    if done != [] {
      var n := |done| - 1;
      CallsAre(done[..n], calls[..n]);
      assert calls == calls[..n] + [calls[n]];
    }
  }

  class Replayer {
    const slot: string
    const calls: seq<Call>
    /** Whether the recipe is still on file. */
    var known: bool
    var saved: Option<Progress>
    /** Every call that worked, and how many of them a crash kept from being saved. */
    ghost var worked: seq<Return>
    ghost var lost: nat

    function Done(): seq<Return>
      reads this
    {
      if saved.Some? && saved.value.slot == slot then saved.value.done else []
    }

    ghost predicate Valid()
      reads this
    {
      && Follows(Done(), calls)
      && (known ==> |worked| == |Done()| + lost && (lost == 0 ==> worked == Done()))
    }

    constructor (slot: string, calls: seq<Call>, saved: Option<Progress>)
      requires saved.Some? ==> saved.value.slot != slot
      ensures Valid() && known && worked == [] && lost == 0
    {
      this.slot, this.calls, this.saved := slot, calls, saved;
      known, worked, lost := true, [], 0;
    }

    /** One attempt; an approval wait or a restart continues after the calls already done. */
    method Run() returns (ending: Ending)
      requires Valid()
      modifies this
      ensures Valid()
      ensures ending == NoRecipe <==> !old(known)
      ensures ending.Finished? ==> known && |ending.done| == |calls| && Follows(ending.done, calls)
      ensures ending.Finished? && lost == 0 ==> worked == ending.done
      ensures ending.GaveUp? ==> !known && saved == None
      ensures ending.OnHold? ==> known && old(Done()) <= Done()
      ensures old(worked) <= worked
    {
      if !known {
        return NoRecipe;
      }
      var done := Done();
      while |done| < |calls|
        invariant |done| <= |calls| && known && Valid() && done == Done()
        invariant old(Done()) <= done && old(worked) <= worked
      {
        var call := calls[|done|];
        var parked: bool, refused: bool, dies: bool, result: Result := *, *, *, *;
        if parked {
          return OnHold;
        }
        if refused || !result.ok {
          known := false;
          saved := None;
          return GaveUp;
        }
        worked := worked + [Return(call, result)];
        if dies {
          lost := lost + 1;
          return OnHold;
        }
        done := done + [Return(call, result)];
        saved := Some(Progress(slot, done));
      }
      ending := Finished(done);
    }
  }
}
