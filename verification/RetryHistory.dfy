/**
 The sender's and the receivers' state as a history of events: the message is in the cache unless
 it was taken and not put back, the mark is set while a reservation is not released, a key is
 deduplicated since its first receipt after the last clear, and counters and copies are counts.
 What a handler may do next follows from what has happened, not from the model's own fields.
 */
module RetryHistory {
  import opened Bytes
  import opened Histories
  import opened Retry

  predicate IsTake(e: Event) {
    e.Take?
  }

  /** A resend puts the message back into the cache unless it fails before that. */
  predicate PutsBack(e: Event) {
    e.Resend? && (e.outcome.CachedOnly? || e.outcome.SentToAll?)
  }

  predicate IsReserve(e: Event) {
    e.Reserve?
  }

  predicate IsRelease(e: Event) {
    e.Release?
  }

  predicate IsClear(e: Event) {
    e.Clear?
  }

  predicate IsSentToAll(e: Event) {
    e.Resend? && e.outcome.SentToAll?
  }

  predicate IsFailure(e: Event) {
    e.Undecryptable?
  }

  function FailureOf(d: nat): Event -> bool {
    e => e == Undecryptable(d)
  }

  function ProcessingOf(d: nat): Event -> bool {
    e => e == Processed(d)
  }

  /** The first check of a receipt, given the receipts by number. */
  predicate Checks(log: seq<Entry>, group: bool, k: Key, e: Event) {
    e.Dedupe? && e.i < |log| && k == if group then PerSender(log[e.i].device) else PerChat
  }

  /** A receipt with the key was checked and the cache not cleared since. */
  ghost predicate CheckedSince(log: seq<Entry>, group: bool, k: Key, past: seq<Event>) {
    exists j :: 0 <= j < |past| && Checks(log, group, k, past[j]) && forall m :: j < m < |past| ==> !past[m].Clear?
  }

  ghost predicate SenderTold(s: State, past: seq<Event>) {
    && (s.cached <==> !Since(IsTake, PutsBack, past))
    && (s.pending <==> Since(IsReserve, IsRelease, past))
    && s.epoch == Count(IsClear, past)
  }

  ghost predicate ReceiversTold(s: State, past: seq<Event>) {
    && |s.log| == Count(IsFailure, past)
    && (forall d: nat :: d < s.n && d < |s.counts| ==> s.counts[d] == Count(FailureOf(d), past))
    && (forall d: nat :: d < s.n ==>
          s.deliveries[d] + Count(ProcessingOf(d), past) == 1 + Count(IsSentToAll, past))
  }

  ghost predicate DedupeTold(s: State, past: seq<Event>) {
    && (forall k :: k in s.dedupe <==> CheckedSince(s.log, s.group, k, past))
    && (forall e <- past :: e.Dedupe? ==> e.i < |s.log|)
  }

  lemma {:induction false} CopiesOnce(n: nat, d: nat)
    ensures Copies(n)[d] == if d < n then 1 else 0
  {
    if n == 0 {
    } else {
      CopiesOnce(n - 1, d);
    }
  }

  lemma StepSender(s: State, past: seq<Event>, e: Event)
    requires Enabled(s, e) && SenderTold(s, past)
    ensures SenderTold(Step(s, e), past + [e])
  {
    StepFlags(s, e);
    SinceSnoc(IsTake, PutsBack, past, e);
    SinceSnoc(IsReserve, IsRelease, past, e);
    CountSnoc(IsClear, past, e);
  }

  /** What one event does to the cache, the mark and the connection. */
  lemma StepFlags(s: State, e: Event)
    requires Enabled(s, e)
    ensures Step(s, e).cached <==> !(IsTake(e) || (!s.cached && !PutsBack(e)))
    ensures Step(s, e).pending <==> IsReserve(e) || (s.pending && !IsRelease(e))
    ensures Step(s, e).epoch == s.epoch + if IsClear(e) then 1 else 0
  {
  }

  lemma CountsStep(s: State, past: seq<Event>, e: Event, d: nat)
    requires CountsOk(s) && Enabled(s, e) && d < s.n && s.counts[d] == Count(FailureOf(d), past)
    ensures d < |Step(s, e).counts| && Step(s, e).counts[d] == Count(FailureOf(d), past + [e])
  {
    CountSnoc(FailureOf(d), past, e);
    if Handler(e) {
      StepTouches(s, e);
    }
  }

  lemma DeliveriesStep(s: State, past: seq<Event>, e: Event, d: nat)
    requires Enabled(s, e) && d < s.n
    requires s.deliveries[d] + Count(ProcessingOf(d), past) == 1 + Count(IsSentToAll, past)
    ensures Step(s, e).deliveries[d] + Count(ProcessingOf(d), past + [e]) == 1 + Count(IsSentToAll, past + [e])
  {
    CountSnoc(ProcessingOf(d), past, e);
    CountSnoc(IsSentToAll, past, e);
    CopiesOnce(s.n, d);
  }

  lemma StepReceivers(s: State, past: seq<Event>, e: Event)
    requires CountsOk(s) && Enabled(s, e) && ReceiversTold(s, past)
    ensures ReceiversTold(Step(s, e), past + [e])
  {
    var t := Step(s, e);
    StepKeeps(s, e);
    CountSnoc(IsFailure, past, e);
    forall d: nat | d < s.n ensures d < |t.counts| && t.counts[d] == Count(FailureOf(d), past + [e]) {
      CountsStep(s, past, e, d);
    }
    forall d: nat | d < s.n
      ensures t.deliveries[d] + Count(ProcessingOf(d), past + [e]) == 1 + Count(IsSentToAll, past + [e])
    {
      DeliveriesStep(s, past, e, d);
    }
    if Handler(e) {
      StepTouches(s, e);
    }
  }

  /** Receipts keep their device, so what was checked stays checked. */
  lemma StepDevices(s: State, e: Event)
    requires Enabled(s, e)
    ensures |s.log| <= |Step(s, e).log|
    ensures forall i :: 0 <= i < |s.log| ==> Step(s, e).log[i].device == s.log[i].device
  {
    if Handler(e) {
      StepTouches(s, e);
    }
  }

  lemma CheckedSnoc(log: seq<Entry>, group: bool, k: Key, past: seq<Event>, e: Event)
    ensures CheckedSince(log, group, k, past + [e]) <==>
      Checks(log, group, k, e) || (CheckedSince(log, group, k, past) && !e.Clear?)
  {
    var s, n := past + [e], |past|;
    assert forall i :: 0 <= i < n ==> s[i] == past[i];
    if Checks(log, group, k, e) {
      assert Checks(log, group, k, s[n]);
    } else {
      if CheckedSince(log, group, k, s) {
        var j :| 0 <= j < |s| && Checks(log, group, k, s[j]) && forall m :: j < m < |s| ==> !s[m].Clear?;
        assert Checks(log, group, k, past[j]) && !s[n].Clear?;
      }
      if CheckedSince(log, group, k, past) && !e.Clear? {
        var j :| 0 <= j < n && Checks(log, group, k, past[j]) && forall m :: j < m < n ==> !past[m].Clear?;
        assert Checks(log, group, k, s[j]);
      }
    }
  }

  lemma CheckedLater(log: seq<Entry>, more: seq<Entry>, group: bool, k: Key, past: seq<Event>)
    requires |log| <= |more| && forall i :: 0 <= i < |log| ==> more[i].device == log[i].device
    requires forall e <- past :: e.Dedupe? ==> e.i < |log|
    ensures CheckedSince(log, group, k, past) <==> CheckedSince(more, group, k, past)
  {
    assert forall j :: 0 <= j < |past| ==> past[j] in past;
    assert forall j :: 0 <= j < |past| ==> (Checks(log, group, k, past[j]) <==> Checks(more, group, k, past[j]));
  }

  lemma StepDedupeKeys(s: State, e: Event, k: Key)
    requires Enabled(s, e)
    ensures k in Step(s, e).dedupe <==> Checks(s.log, s.group, k, e) || (k in s.dedupe && !e.Clear?)
  {
  }

  lemma StepDedupeTold(s: State, past: seq<Event>, e: Event)
    requires Enabled(s, e) && DedupeTold(s, past)
    ensures DedupeTold(Step(s, e), past + [e])
  {
    var t := Step(s, e);
    StepKeeps(s, e);
    StepDevices(s, e);
    forall k ensures k in t.dedupe <==> CheckedSince(t.log, t.group, k, past + [e]) {
      StepDedupeKeys(s, e, k);
      CheckedLater(s.log, t.log, s.group, k, past + [e]);
      CheckedSnoc(s.log, s.group, k, past, e);
    }
  }

  lemma {:induction false} RunTold(s: State, past: seq<Event>, events: seq<Event>, t: State)
    requires Inv(s) && SenderTold(s, past) && ReceiversTold(s, past) && DedupeTold(s, past) && Run(s, events, t)
    ensures SenderTold(t, past + events) && ReceiversTold(t, past + events) && DedupeTold(t, past + events)
    decreases |events|
  {
    if events == [] {
      Nil(past);
    } else {
      var e := events[0];
      StepInv(s, e);
      StepSender(s, past, e);
      StepReceivers(s, past, e);
      StepDedupeTold(s, past, e);
      RunTold(Step(s, e), past + [e], events[1..], t);
      Cons(events);
      Assoc(past, [e], events[1..]);
    }
  }

  lemma InitTold(n: nat, group: bool)
    ensures SenderTold(Init(n, group), []) && ReceiversTold(Init(n, group), []) && DedupeTold(Init(n, group), [])
  {
    forall d: nat | d < n ensures Copies(n)[d] == 1 {
      CopiesOnce(n, d);
    }
  }

  lemma RunToldFromInit(n: nat, group: bool, events: seq<Event>, t: State)
    requires Run(Init(n, group), events, t)
    ensures SenderTold(t, events) && ReceiversTold(t, events) && DedupeTold(t, events)
  {
    InitInv(n, group);
    InitTold(n, group);
    RunTold(Init(n, group), [], events, t);
    Nil(events);
  }

  /** In every run: when the message is in the cache, and how often everything else happened. */
  lemma HistoryMeaning(n: nat, group: bool, events: seq<Event>, t: State)
    requires Run(Init(n, group), events, t)
    ensures t.cached <==> !Since(IsTake, PutsBack, events)
    ensures t.pending <==> Since(IsReserve, IsRelease, events)
    ensures t.epoch == Count(IsClear, events) && |t.log| == Count(IsFailure, events)
    ensures |t.counts| == n && forall d: nat :: d < n ==> t.counts[d] == Count(FailureOf(d), events)
    ensures forall d: nat :: d < n ==>
      t.deliveries[d] + Count(ProcessingOf(d), events) == 1 + Count(IsSentToAll, events)
    ensures forall k :: k in t.dedupe <==> CheckedSince(t.log, group, k, events)
  {
    RunToldFromInit(n, group, events, t);
    Sizes(n, group, events, t);
  }

  lemma Sizes(n: nat, group: bool, events: seq<Event>, t: State)
    requires Run(Init(n, group), events, t)
    ensures t.n == n && |t.counts| == n && t.group == group
  {
    Reachable(n, group, events, t);
  }

  lemma HandlerBranches(s: State, i: nat)
    ensures At(s, i, InFlight) ==>
      At(Step(s, Arrive(i)), i, if s.log[i].count < 5 then Arrived else Done)
    ensures At(s, i, Arrived) ==> At(Step(s, Dedupe(i)), i, if KeyOf(s, i) in s.dedupe then Done else Passed)
    ensures At(s, i, Passed) ==> At(Step(s, Reserve(i)), i, if s.pending then Done else Holding)
    ensures At(s, i, Holding) ==> At(Step(s, Take(i)), i, if s.cached then Taken else Releasing)
  {
  }

  /**
   What becomes of a receipt at each check, told on the run so far: it arrives below the limit,
   passes if its key was not checked since the last clear, is worked on if no reservation is
   unreleased, and gets the message if that was not taken without being put back.
   */
  lemma HandlersFollow(n: nat, group: bool, events: seq<Event>, s: State, i: nat)
    requires Run(Init(n, group), events, s)
    ensures At(s, i, InFlight) ==> At(Step(s, Arrive(i)), i, if s.log[i].count < 5 then Arrived else Done)
    ensures At(s, i, Arrived) ==>
      At(Step(s, Dedupe(i)), i, if CheckedSince(s.log, group, KeyOf(s, i), events) then Done else Passed)
    ensures At(s, i, Passed) ==>
      At(Step(s, Reserve(i)), i, if Since(IsReserve, IsRelease, events) then Done else Holding)
    ensures At(s, i, Holding) ==>
      At(Step(s, Take(i)), i, if Since(IsTake, PutsBack, events) then Releasing else Taken)
  {
    HandlerBranches(s, i);
    HistoryMeaning(n, group, events, s);
  }

  /** A device may emit a receipt while a copy is with it and it has emitted fewer than five. */
  lemma ReceiptsFollow(n: nat, group: bool, events: seq<Event>, s: State, d: nat)
    requires Run(Init(n, group), events, s) && d < n
    ensures Enabled(s, Undecryptable(d)) <==>
      Count(ProcessingOf(d), events) < 1 + Count(IsSentToAll, events) && Count(FailureOf(d), events) < 5
    ensures Enabled(s, Undecryptable(d)) ==>
      var t := Step(s, Undecryptable(d));
      t.log == s.log + [Entry(d, Count(FailureOf(d), events) + 1, InFlight, None, None)]
  {
    HistoryMeaning(n, group, events, s);
  }
}
