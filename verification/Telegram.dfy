/** The long-polling protocol between the Telegram channel and the Bot API server.

    The server keeps a queue of updates. A request with an offset deletes ("confirms") every update below
    it, whether or not the answer arrives. The network may lose a request or its answer, a poll may be
    cancelled, the handling of an update may fail half-way through a batch, and the process may die. */
module Telegram {
  import opened Options

  const MAX_BACKOFF_SECONDS := 60

  // ------------------------------------------------------------ the server

  predicate Increasing(ids: seq<int>) {
    forall i, j | 0 <= i < j < |ids| :: ids[i] < ids[j]
  }

  /** How many updates at the front of the queue have an id below `offset`. */
  function Below(ids: seq<int>, offset: int): (n: nat)
    ensures n <= |ids|
    ensures forall i | 0 <= i < n :: ids[i] < offset
    ensures n < |ids| ==> ids[n] >= offset
  {
    if ids == [] || ids[0] >= offset then 0 else 1 + Below(ids[1..], offset)
  }

  datatype Failure = RetryAfter(seconds: nat) | Auth | Transient
  datatype Reply = Updates(ids: seq<int>) | Failed(why: Failure) | Cancelled

  class Server {
    /** Every update that ever arrived, by id. */
    var queue: seq<int>
    /** How many of them are deleted. */
    var confirmed: nat

    ghost predicate Valid()
      reads this
    {
      Increasing(queue) && confirmed <= |queue|
    }

    constructor (ids: seq<int>)
      requires Increasing(ids)
      ensures Valid() && queue == ids && confirmed == 0
    {
      queue, confirmed := ids, 0;
    }

    /** New updates arrive at any time, with higher ids. */
    method Arrive()
      requires Valid()
      modifies this`queue
      ensures Valid() && old(queue) <= queue
    {
      var news: bool := *;
      if news {
        var id: int := *;
        if queue == [] || id > queue[|queue| - 1] {
          queue := queue + [id];
        }
      }
    }

    /** getUpdates: any part of the exchange may fail, also after the server has acted on it. */
    method GetUpdates(offset: Option<int>) returns (reply: Reply)
      requires Valid()
      modifies this
      ensures Valid() && old(queue) <= queue
      ensures confirmed == old(confirmed) || (offset.Some? && confirmed == Below(queue, offset.value) > old(confirmed))
      ensures reply.Updates? && offset.Some? ==> confirmed >= Below(queue, offset.value)
      ensures reply.Updates? ==> confirmed + |reply.ids| <= |queue| && reply.ids == queue[confirmed..confirmed + |reply.ids|]
    {
      Arrive();
      var lost: bool, why: Failure := *, *;
      if lost {
        return Failed(why);
      }
      if offset.Some? && Below(queue, offset.value) > confirmed {
        confirmed := Below(queue, offset.value);
      }
      var silent: bool, cancelled: bool := *, *;
      if silent {
        return if cancelled then Cancelled else Failed(why);
      }
      var k: int := *;
      k := if 0 <= k <= |queue| - confirmed then k else |queue| - confirmed;
      reply := Updates(queue[confirmed..confirmed + k]);
    }
  }

  // ------------------------------------------------------- what is promised

  /** Between `first` and `first + |handed|` every update of the queue was handed over, once, in order. */
  predicate Delivered(queue: seq<int>, first: nat, handed: seq<int>) {
    first + |handed| <= |queue| && handed == queue[first..first + |handed|]
  }

  /** No update twice, none out of order, none left out below the last one, none confirmed unseen. */
  lemma {:induction false} EachUpdateOnceInOrder(queue: seq<int>, first: nat, handed: seq<int>, confirmed: nat)
    requires Increasing(queue) && Delivered(queue, first, handed) && first <= confirmed <= first + |handed|
    ensures Increasing(handed)
    ensures forall i, j | 0 <= i < |handed| && 0 <= j < |handed| && i != j :: handed[i] != handed[j]
    ensures forall k | first <= k < |queue| && handed != [] && queue[k] <= handed[|handed| - 1] :: queue[k] in handed
    ensures forall k | first <= k < confirmed :: queue[k] in handed
  {
    var n := |handed|;
    forall k | first <= k < first + n ensures queue[k] in handed {
      assert handed[k - first] == queue[k];
    }
    if n > 0 {
      assert handed[n - 1] == queue[first + n - 1];
      assert forall k | first + n <= k < |queue| :: queue[k] > handed[n - 1];
    }
  }

  lemma {:induction false} BelowIs(ids: seq<int>, n: nat, offset: int)
    requires Increasing(ids) && 0 < n <= |ids| && offset == ids[n - 1] + 1
    ensures Below(ids, offset) == n
  {
    assert ids[0] <= ids[n - 1];
    if n > 1 {
      BelowIs(ids[1..], n - 1, offset);
    } else if |ids| > 1 {
      assert ids[1] > ids[0];
    }
  }

  lemma {:induction false} OneMore(queue: seq<int>, first: nat, handed: seq<int>, id: int)
    requires Delivered(queue, first, handed) && first + |handed| < |queue| && id == queue[first + |handed|]
    ensures Delivered(queue, first, handed + [id])
  {
    var n := first + |handed|;
    assert queue[first..n + 1] == queue[first..n] + [queue[n]];
  }

  lemma {:induction false} StillDelivered(queue: seq<int>, more: seq<int>, first: nat, handed: seq<int>)
    requires queue <= more && Delivered(queue, first, handed)
    ensures Delivered(more, first, handed)
  {
    assert more[first..first + |handed|] == queue[first..first + |handed|];
  }

  lemma {:induction false} SoFar(queue: seq<int>, first: nat, handed: seq<int>)
    requires Delivered(queue, first, handed)
    ensures first + |handed| <= |queue|
  {
  }

  /** A request with the channel's offset is one for what follows the last update handed over. */
  lemma OffsetPointsBehind(queue: seq<int>, first: nat, handed: seq<int>)
    requires Increasing(queue) && Delivered(queue, first, handed) && handed != []
    ensures Below(queue, handed[|handed| - 1] + 1) == first + |handed|
  {
    var n := first + |handed|;
    assert handed[|handed| - 1] == queue[n - 1];
    BelowIs(queue, n, handed[|handed| - 1] + 1);
  }

  /** The waiting time after the n-th failure in a row. */
  function Backoff(n: nat): nat {
    if n == 0 then 1 else if 2 * Backoff(n - 1) <= MAX_BACKOFF_SECONDS then 2 * Backoff(n - 1) else MAX_BACKOFF_SECONDS
  }

  lemma {:induction false} BackoffGrowsToItsLimit(n: nat)
    ensures 1 <= Backoff(n) <= MAX_BACKOFF_SECONDS
    ensures n > 0 ==> Backoff(n - 1) <= Backoff(n)
    ensures n >= 6 ==> Backoff(n) == MAX_BACKOFF_SECONDS
  {
    if n > 0 {
      BackoffGrowsToItsLimit(n - 1);
      if n == 6 {
        assert Backoff(1) == 2;
        assert Backoff(2) == 4;
        assert Backoff(3) == 8;
        assert Backoff(4) == 16;
        assert Backoff(5) == 32;
      }
    }
  }

  lemma {:induction false} BackoffStep(n: nat)
    ensures Backoff(0) == 1
    ensures Backoff(n + 1) == if Backoff(n) * 2 <= MAX_BACKOFF_SECONDS then Backoff(n) * 2 else MAX_BACKOFF_SECONDS
  {
  }

  // ----------------------------------------------------------- the channel

  datatype Handling = Handled | Raised(why: Failure) | Crashed
  datatype Ending = Stopped(acknowledged: bool) | AuthFailed | Died | StillRunning

  class Channel {
    const server: Server
    var offset: Option<int>
    var connected: bool
    /** Updates handed to the core, in order. */
    var handed: seq<int>
    /** Where this channel started in the queue. */
    const first: nat
    /** Every wait after a failure: how many failures in a row preceded it, and its length. */
    ghost var waits: seq<(nat, nat)>
    /** Every failure of a poll or of a handler, and the pauses the server asked for. */
    ghost var errors: seq<Failure>
    ghost var rests: seq<nat>

    ghost predicate Valid()
      reads this, server
    {
      && server.Valid()
      && Delivered(server.queue, first, handed)
      && first <= server.confirmed <= first + |handed|
      && offset == (if handed == [] then None else Some(handed[|handed| - 1] + 1))
      && (forall i | 0 <= i < |waits| :: waits[i].1 == Backoff(waits[i].0))
    }

    constructor (server: Server)
      requires server.Valid()
      ensures Valid() && this.server == server && handed == [] && first == server.confirmed
    {
      this.server, first := server, server.confirmed;
      offset, connected, handed, waits, errors, rests := None, false, [], [], [], [];
    }

    /** `_fetch_or_stop`: one long poll. Whatever comes back is what follows the last one handed over. */
    method Fetch() returns (reply: Reply)
      requires Valid()
      modifies this, server
      ensures Valid() && handed == old(handed) && waits == old(waits) && rests == old(rests)
      ensures old(server.queue) <= server.queue
      ensures errors == old(errors) + if reply.Failed? then [reply.why] else []
      ensures reply.Updates? ==>
                var n := first + |handed|;
                n + |reply.ids| <= |server.queue| && reply.ids == server.queue[n..n + |reply.ids|]
      ensures reply.Updates? ==> server.confirmed == first + |handed|
    {
      hide Increasing;
      hide Delivered;
      hide Below;
      ghost var queue := server.queue;
      reply := server.GetUpdates(offset);
      StillDelivered(queue, server.queue, first, handed);
      assert first + |handed| <= |server.queue| by { SoFar(server.queue, first, handed); }
      if handed != [] { OffsetPointsBehind(server.queue, first, handed); }
      if reply.Updates? {
        connected := true;
      } else if reply.Failed? {
        errors := errors + [reply.why];
      }
    }

    /** Handing an update to the core: its failures are caught inside, but sending the reply may raise. */
    method HandleUpdate(id: int) returns (h: Handling)
      modifies this`handed, this`errors
      ensures handed == old(handed) + [id] && errors == old(errors) + if h.Raised? then [h.why] else []
    {
      handed := handed + [id];
      h := *;
      if h.Raised? {
        errors := errors + [h.why];
      }
    }

    /** `_process`: the offset moves before each update is handled. */
    method Process(ids: seq<int>) returns (h: Handling)
      requires Valid()
      requires var n := first + |handed|;
               n + |ids| <= |server.queue| && ids == server.queue[n..n + |ids|]
      modifies this
      ensures Valid() && waits == old(waits) && rests == old(rests) && old(handed) <= handed <= old(handed) + ids
      ensures errors == old(errors) + if h.Raised? then [h.why] else []
      ensures h.Handled? ==> handed == old(handed) + ids
    {
      hide Increasing;
      hide Delivered;
      h := Handled;
      ghost var n := first + |handed|;
      for i := 0 to |ids|
        invariant Valid() && waits == old(waits) && rests == old(rests) && handed == old(handed) + ids[..i]
        invariant h.Handled? && errors == old(errors)
      {
        assert ids[i] == server.queue[n + i];
        OneMore(server.queue, first, handed, ids[i]);
        assert ids[..i + 1] == ids[..i] + [ids[i]];
        offset := Some(ids[i] + 1);
        h := HandleUpdate(ids[i]);
        if !h.Handled? {
          return;
        }
      }
      assert ids[..|ids|] == ids;
    }

    /** `acknowledge`: confirms what was handed over; an answer is thrown away. */
    method Acknowledge() returns (ok: bool)
      requires Valid()
      modifies this, server
      ensures Valid() && handed == old(handed) && waits == old(waits) && old(server.queue) <= server.queue
      ensures old(errors) <= errors && |errors| <= |old(errors)| + 1
      ensures ok ==> server.confirmed == first + |handed|
    {
      if offset.None? {
        return true;
      }
      var reply := Fetch();
      ok := reply.Updates?;
    }

    method Wait(ghost failures: nat, seconds: nat)
      requires Valid() && seconds == Backoff(failures)
      modifies this`waits
      ensures waits == old(waits) + [(failures, seconds)] && Valid()
    {
      waits := waits + [(failures, seconds)];
    }

    /** What a failure leads to: a bad token ends the channel, a request to pause is obeyed, and anything else is
        waited for, twice as long each time in a row. */
    ghost predicate Answered(
      why: Failure, end: Option<Ending>, waited: seq<(nat, nat)>, rested: seq<nat>, failures: nat, backoff: nat, nextFailures: nat)
      reads this
    {
      && (why.Auth? <==> end == Some(AuthFailed)) && (!why.Auth? ==> end == None)
      && waits == waited + (if why.Transient? then [(failures, backoff)] else [])
      && rests == rested + (if why.RetryAfter? then [why.seconds] else [])
      && nextFailures == (if why.Transient? then failures + 1 else failures)
    }

    /** One round of `run`: poll, process, and wait after a failure. */
    method Round(backoff: nat, ghost failures: nat) returns (end: Option<Ending>, next: nat, ghost nextFailures: nat)
      requires Valid() && backoff == Backoff(failures)
      modifies this, server
      ensures Valid() && old(handed) <= handed && old(server.queue) <= server.queue
      ensures next == Backoff(nextFailures) && (nextFailures == 0 || nextFailures == failures || nextFailures == failures + 1)
      ensures end.Some? ==> end == Some(Died) || end == Some(AuthFailed) || end == Some(StillRunning)
      ensures old(errors) <= errors && |errors| <= |old(errors)| + 1
      ensures errors == old(errors) ==>
                end != Some(AuthFailed) && waits == old(waits) && rests == old(rests) && (end.None? ==> nextFailures == 0)
      ensures errors != old(errors) ==> Answered(errors[|errors| - 1], end, old(waits), old(rests), failures, backoff, nextFailures)
    {
      hide Delivered;
      hide Increasing;
      BackoffStep(failures);
      hide Backoff;
      end, next, nextFailures := None, backoff, failures;
      var reply := Fetch();
      if reply.Cancelled? {
        // the poll was cancelled: leave the loop
        return Some(StillRunning), next, failures;
      }
      var h := Handled;
      if reply.Updates? {
        h := Process(reply.ids);
      }
      if h.Crashed? {
        return Some(Died), next, failures;
      }
      if reply.Updates? && h.Handled? {
        return None, 1, 0;
      }
      end, next, nextFailures := Recover(if reply.Failed? then reply.why else h.why, backoff, failures);
    }

    /** After a failure of the poll or of a handler. */
    method Recover(why: Failure, backoff: nat, ghost failures: nat) returns (end: Option<Ending>, next: nat, ghost nextFailures: nat)
      requires Valid() && backoff == Backoff(failures)
      modifies this`connected, this`waits, this`rests
      ensures Valid() && next == Backoff(nextFailures) && Answered(why, end, old(waits), old(rests), failures, backoff, nextFailures)
    {
      hide Delivered;
      hide Increasing;
      BackoffStep(failures);
      hide Backoff;
      end, next, nextFailures := None, backoff, failures;
      match why {
        case Auth =>
          connected := false;
          end := Some(AuthFailed);
        case Transient =>
          connected := false;
          Wait(failures, backoff);
          nextFailures := failures + 1;
          next := if backoff * 2 <= MAX_BACKOFF_SECONDS then backoff * 2 else MAX_BACKOFF_SECONDS;
        case RetryAfter(seconds) =>
          rests := rests + [seconds];
      }
    }

    /** `run`, for at most `rounds` rounds. */
    method Run(rounds: nat) returns (end: Ending)
      requires Valid()
      modifies this, server
      ensures Valid() && old(handed) <= handed && old(server.queue) <= server.queue
      ensures end == Stopped(true) ==> server.confirmed == first + |handed|
      ensures end == AuthFailed ==> |errors| > |old(errors)| && errors[|errors| - 1].Auth?
      ensures old(errors) <= errors && forall i | |old(errors)| <= i < |errors| - 1 :: !errors[i].Auth?
    {
      hide Delivered;
      hide Increasing;
      BackoffStep(0);
      hide Backoff;
      var backoff := 1;
      ghost var failures: nat := 0;
      for i := 0 to rounds
        invariant Valid() && old(handed) <= handed && old(server.queue) <= server.queue
        invariant backoff == Backoff(failures)
        invariant old(errors) <= errors && forall i | |old(errors)| <= i < |errors| :: !errors[i].Auth?
      {
        var stop: bool := *;
        if stop {
          break;
        }
        var over;
        over, backoff, failures := Round(backoff, failures);
        if over == Some(StillRunning) {
          break;
        }
        if over.Some? {
          return over.value;
        }
      }
      var ok := Acknowledge();
      end := Stopped(ok);
    }
  }

  // ------------------------------------------------------------- restarts

  /** The channel is started again and again, whatever ended it. What the server has deleted was handed
      over in one of its lives; if every life was stopped with an answered acknowledgement, every update was
      handed over once, in order, over all lives. */
  method Lives(server: Server, lives: nat, rounds: nat) returns (seen: seq<int>, endings: seq<Ending>)
    requires server.Valid() && server.confirmed == 0
    modifies server
    ensures server.Valid() && forall k | 0 <= k < server.confirmed :: server.queue[k] in seen
    ensures forall i | 0 <= i < |seen| :: seen[i] in server.queue
    ensures |endings| == lives
    ensures AllStopped(endings) ==> Delivered(server.queue, 0, seen) && server.confirmed == |seen|
  {
    seen, endings := [], [];
    ghost var unheard := [];
    for life := 0 to lives
      invariant server.Valid() && Overall(server.queue, server.confirmed, seen, unheard)
      invariant |endings| == life && (AllStopped(endings) ==> unheard == [])
    {
      var c := new Channel(server);
      ghost var queue, start := server.queue, server.confirmed;
      var end := c.Run(rounds);
      LifeAdded(queue, server.queue, start, server.confirmed, c.handed, seen, unheard);
      hide Overall;
      unheard := unheard + c.handed[server.confirmed - c.first..];
      seen := seen + c.handed;
      AllStoppedAppend(endings, end);
      endings := endings + [end];
    }
  }

  /** Every life was stopped in an orderly way, and the server answered its acknowledgement. */
  predicate AllStopped(endings: seq<Ending>) {
    forall i | 0 <= i < |endings| :: endings[i] == Stopped(true)
  }

  lemma {:induction false} AllStoppedAppend(endings: seq<Ending>, end: Ending)
    ensures AllStopped(endings + [end]) <==> AllStopped(endings) && end == Stopped(true)
  {
    assert forall i | 0 <= i < |endings| :: (endings + [end])[i] == endings[i];
    assert (endings + [end])[|endings|] == end;
  }

  /** What holds between two lives; `unheard` are the updates a life had handed over without the server
      hearing of it. */
  ghost predicate Overall(queue: seq<int>, confirmed: nat, seen: seq<int>, unheard: seq<int>) {
    && confirmed <= |queue|
    && (forall k | 0 <= k < confirmed :: queue[k] in seen)
    && (forall i | 0 <= i < |seen| :: seen[i] in queue)
    && (unheard == [] ==> Delivered(queue, 0, seen) && confirmed == |seen|)
  }

  lemma {:induction false} LifeAdded(before: seq<int>, queue: seq<int>, start: nat, confirmed: nat, handed: seq<int>,
                  seen: seq<int>, unheard: seq<int>)
    requires before <= queue && Overall(before, start, seen, unheard)
    requires Delivered(queue, start, handed) && start <= confirmed <= start + |handed|
    ensures Overall(queue, confirmed, seen + handed, unheard + handed[confirmed - start..])
  {
    var all := seen + handed;
    forall k | 0 <= k < confirmed ensures queue[k] in all {
      if k < start {
        assert queue[k] == before[k];
      } else {
        assert queue[k] == handed[k - start];
      }
    }
    forall i | 0 <= i < |all| ensures all[i] in queue {
      if i < |seen| {
        var j :| 0 <= j < |before| && before[j] == seen[i];
        assert queue[j] == seen[i];
      } else {
        assert all[i] == queue[start + (i - |seen|)];
      }
    }
    if unheard + handed[confirmed - start..] == [] {
      assert unheard == [] && confirmed == start + |handed|;
      assert seen == before[0..|seen|] == queue[0..|seen|];
      assert all == queue[0..|all|];
    }
  }
}
