/** Which commits of the coding workflow were approved by a reviewer. */
module Approval {
  import opened CodingLog
  import opened Options

  /** The last opinion given since b. */
  ghost predicate LastReview(log: seq<Event>, b: nat, r: nat, n: nat) {
    && b < r < n <= |log| && log[r].Reviewed?
    && forall i | r < i < n :: !log[i].Reviewed?
  }

  ghost predicate NoEditSince(log: seq<Event>, r: nat, n: nat)
    requires n <= |log|
  {
    forall i | r < i < n :: !log[i].Edited?
  }

  /** A reviewer approved the tree as it is at n: no edit came after the approval. */
  ghost predicate Approved(log: seq<Event>, r: nat, n: nat) {
    r < n <= |log| && log[r] == Reviewed(Approve) && NoEditSince(log, r, n)
  }

  /** The monitor's review and its count of provider calls, spelled out on the log: r is the last review, and w a
      call of the provider. */
  ghost predicate ReviewIs(log: seq<Event>, review: Review, calls: nat, b: nat, n: nat, r: nat, w: nat)
    requires n <= |log|
  {
    && (review.NoReview? ==> forall i | b < i < n :: !log[i].Reviewed?)
    && (review.Given? ==> ReviewAt(log, review, b, r, n))
    && (calls > 0 ==> b < w < n && log[w].Edited?)
  }

  ghost predicate ReviewAt(log: seq<Event>, review: Review, b: nat, r: nat, n: nat)
    requires review.Given? && n <= |log|
  {
    LastReview(log, b, r, n) && log[r].opinion == review.opinion && (review.current <==> NoEditSince(log, r, n))
  }

  lemma {:induction false} ReviewKept(log: seq<Event>, review: Review, b: nat, r: nat, n: nat)
    requires n < |log| && review.Given? && ReviewAt(log, review, b, r, n) && !log[n].Reviewed?
    ensures ReviewAt(log, if log[n].Edited? then review.(current := false) else review, b, r, n + 1)
  {
    if log[n].Edited? {
      assert !NoEditSince(log, r, n + 1);
    }
  }

  lemma {:induction false} ReviewNow(log: seq<Event>, b: nat, n: nat)
    requires b < n < |log| && log[n].Reviewed?
    ensures ReviewAt(log, Given(log[n].opinion, true), b, n, n + 1)
  {
  }

  function ReviewAfter(review: Review, e: Event): Review {
    if e.Reviewed? then Given(e.opinion, true)
    else if e.Edited? && review.Given? then review.(current := false) else review
  }

  function CallsAfter(calls: nat, e: Event): nat {
    if e.Edited? then calls + 1 else calls
  }

  lemma {:induction false} NextReview(m: Seen, e: Event, ownerDirty: bool)
    ensures var n := Next(m, e, ownerDirty);
            if e.Began? then n.review.NoReview? && n.calls == 0
            else n.review == ReviewAfter(m.review, e) && n.calls == CallsAfter(m.calls, e)
  {
  }

  lemma {:induction false} ReviewStep(log: seq<Event>, review: Review, calls: nat, b: nat, n: nat, r: nat, w: nat)
    requires b < n < |log| && !log[n].Began? && ReviewIs(log, review, calls, b, n, r, w)
    ensures ReviewIs(log, ReviewAfter(review, log[n]), CallsAfter(calls, log[n]), b, n + 1,
                     if log[n].Reviewed? then n else r, if log[n].Edited? then n else w)
  {
    hide ReviewAt;
    if log[n].Reviewed? {
      ReviewNow(log, b, n);
    } else if review.Given? {
      ReviewKept(log, review, b, r, n);
    }
  }

  lemma {:induction false} ReviewMeans(log: seq<Event>, ownerDirty: bool, b: nat, n: nat) returns (r: nat, w: nat)
    requires LastBegan(log, b, n)
    ensures var m := Scan(log[..n], ownerDirty); ReviewIs(log, m.review, m.calls, b, n, r, w)
    decreases n
  {
    hide Scan;
    hide ReviewIs;
    hide Next;
    var m := Scan(log[..n - 1], ownerDirty);
    ScanAt(log, ownerDirty, n - 1);
    NextReview(m, log[n - 1], ownerDirty);
    r, w := b, b;
    if n - 1 == b {
      JustBegan(log, b);
    } else {
      r, w := ReviewMeans(log, ownerDirty, b, n - 1);
      ReviewStep(log, m.review, m.calls, b, n - 1, r, w);
      r, w := if log[n - 1].Reviewed? then n - 1 else r, if log[n - 1].Edited? then n - 1 else w;
    }
  }

  lemma {:induction false} JustBegan(log: seq<Event>, b: nat)
    requires b < |log| && log[b].Began?
    ensures ReviewIs(log, NoReview, 0, b, b + 1, b, b)
  {
  }

  /** Nobody reviews the same tree twice. */
  lemma {:induction false} ReviewedOncePerTree(log: seq<Event>, ownerDirty: bool, b: nat, r: nat, q: nat)
    requires Scan(log, ownerDirty).allowed && b < r < q < |log| && LastBegan(log, b, q)
    requires log[r].Reviewed? && log[q].Reviewed?
    ensures exists i | r < i < q :: log[i].Edited?
  {
    hide Scan;
    AllowedAt(log, ownerDirty, q);
    var p, w := ReviewMeans(log, ownerDirty, b, q);
    var m := Scan(log[..q], ownerDirty);
    hide Allowed;
    assert m.review.Given? && p >= r;
  }

  /** The tree that is committed was approved exactly when its attempt was reviewed and the last opinion was
      an approval -- not when no review was asked for, and not when the last reviewer was unavailable or
      gave no usable verdict. */
  lemma {:induction false} CommitIsApprovedExactly(log: seq<Event>, ownerDirty: bool, b: nat, k: nat)
    requires Scan(log, ownerDirty).allowed && k < |log| && Commits(log[k]) && LastBegan(log, b, k)
    ensures (exists r: nat :: Approved(log, r, k)) <==> exists r: nat :: LastReview(log, b, r, k) && log[r].opinion == Approve
  {
    hide Scan;
    AllowedAt(log, ownerDirty, k);
    var p, w := ReviewMeans(log, ownerDirty, b, k);
    var m := Scan(log[..k], ownerDirty);
    hide Allowed;
    if r: nat :| Approved(log, r, k) {
      assert r > w > b;
      assert m.review.Given?;
      if r < p {
        ReviewedOncePerTree(log, ownerDirty, b, r, p);
      }
      assert LastReview(log, b, p, k) && log[p].opinion == Approve;
    }
    if r: nat :| LastReview(log, b, r, k) && log[r].opinion == Approve {
      assert m.review.Given? && p == r;
      assert Approved(log, r, k);
    }
  }

  /** A fix after the only opinion that could be had: committed with HEAD moved and nobody's approval. */
  function UnseenFix(): seq<Event> {
    [Began("a"), Edited(First, true, "a"), Checked(Green), Reviewed(Blocking), Edited(Fix, true, "b"), Checked(Green),
     Reviewed(Unavailable), SavedVerified, CommitInvoked, CommitDone]
  }

  lemma {:induction false} UnseenFixBlocked()
    ensures Scan(UnseenFix()[..3], false)
         == Seen(true, Some(Checked(Green)), Some("a"), true, 1, NoReview, Some(Green), Clear, "a", false, 0, false, false, 0, 0, 0)
  {
    var log := UnseenFix();
    hide Scan;
    ScanNothing(log, false);
    ScanAt(log, false, 0);
    ScanAt(log, false, 1);
    ScanAt(log, false, 2);
  }

  lemma {:induction false} UnseenFixAnswered()
    ensures Scan(UnseenFix()[..5], false)
         == Seen(true, Some(Edited(Fix, true, "")), Some("a"), true, 2, Given(Blocking, false), None, Answered, "a", false, 1, false, false, 0, 0, 0)
  {
    var log := UnseenFix();
    hide Scan;
    UnseenFixBlocked();
    ScanAt(log, false, 3);
    ScanAt(log, false, 4);
  }

  lemma {:induction false} UnseenFixVerified()
    ensures Scan(UnseenFix()[..8], false) == Seen(true, Some(SavedVerified), Some("a"), true, 2, Given(Unavailable, true), Some(Green), Clear, "a", false, 1, true, false, 0, 0, 0)
  {
    var log := UnseenFix();
    hide Scan;
    UnseenFixAnswered();
    ScanAt(log, false, 5);
    ScanAt(log, false, 6);
    ScanAt(log, false, 7);
  }

  lemma {:induction false} UnseenFixIsCommitted()
    ensures Scan(UnseenFix(), false).allowed
    ensures forall r: nat :: !Approved(UnseenFix(), r, 9)
    ensures UnseenFix()[4].head != UnseenFix()[0].base
  {
    UnseenFixIsAllowed();
    hide Scan;
    hide Next;
  }

  lemma {:induction false} UnseenFixIsAllowed()
    ensures Scan(UnseenFix(), false).allowed
  {
    UnseenFixVerified();
    var log := UnseenFix()[..8];
    var m := Scan(log, false);
    assert UnseenFix() == log + [CommitInvoked] + [CommitDone];
    assert m.allowed && AtCommit(m) && MayCommit(m, false) && m.commits == 0;
    hide Scan;
    hide UnseenFix;
    hide Next;
    hide AtCommit;
    hide MayCommit;
    ScanAppend(log, CommitInvoked, false);
    ScanAppend(log + [CommitInvoked], CommitDone, false);
    CommitGoesThrough(m);
  }

  lemma {:induction false} CommitGoesThrough(m: Seen)
    requires m.allowed && AtCommit(m) && MayCommit(m, false) && m.commits == 0
    ensures Next(Next(m, CommitInvoked, false), CommitDone, false).allowed
  {
  }
}
