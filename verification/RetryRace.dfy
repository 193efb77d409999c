/**
 When one deduplication key can resend twice in one connection. The dedupe cache is cleared when
 a connection ends, and a clear that falls between a handler's dedupe insert and its resend lets
 a second handler in; this is the exact condition, for every reachable state and every run.
 */
module RetryRace {
  import opened Bytes
  import opened Retry

  /** Past the dedupe insert and not yet resent. */
  predicate Working(s: State, i: nat) {
    At(s, i, Passed) || At(s, i, Holding) || At(s, i, Taken)
  }

  /** Not yet deduplicated, and below the sender's limit. */
  predicate Waiting(s: State, j: nat) {
    (At(s, j, InFlight) || At(s, j, Arrived)) && s.log[j].count < MAX_RETRY_COUNT
  }

  /** The message is in the cache, or in the hands of a handler that may put it back. */
  predicate Resendable(s: State) {
    s.cached || exists h :: 0 <= h < |s.log| && At(s, h, Taken)
  }

  function KeyFor(s: State, d: nat): Key {
    if s.group then PerSender(d) else PerChat
  }

  predicate WorksOn(s: State, k: Key, i: nat) {
    Working(s, i) && KeyOf(s, i) == k
  }

  predicate WaitsFor(s: State, k: Key, j: nat) {
    Waiting(s, j) && KeyOf(s, j) == k
  }

  /** A device behind the key can still emit a receipt below the limit. */
  predicate MayFail(s: State, k: Key, d: nat) {
    d < s.n && d < |s.counts| && s.counts[d] + 1 < MAX_RETRY_COUNT && KeyFor(s, d) == k
  }

  /** Besides handler `i`, something else can lead to a resend for the key. */
  predicate HasRival(s: State, k: Key, i: nat) {
    || (exists j :: 0 <= j < |s.log| && j != i && WorksOn(s, k, j))
    || (exists j :: 0 <= j < |s.log| && j != i && WaitsFor(s, k, j))
    || (exists d :: 0 <= d < |s.counts| && MayFail(s, k, d))
  }

  /** Handler `i` can still resend, and something else for the key can too. */
  predicate Race(s: State, k: Key, i: nat) {
    Resendable(s) && WorksOn(s, k, i) && HasRival(s, k, i)
  }

  /** A clear in this state opens the way to two resends for the key. */
  predicate Reopens(s: State, k: Key) {
    exists i :: 0 <= i < |s.log| && Race(s, k, i)
  }

  predicate Twice(t: State, k: Key, i: nat, j: nat, epoch: nat) {
    && i < |t.log| && j < |t.log| && i != j && KeyOf(t, i) == k && KeyOf(t, j) == k
    && t.log[i].resent == Some(epoch) && t.log[j].resent == Some(epoch)
  }

  lemma {:induction false} RunConcat(s: State, events: seq<Event>, t: State, more: seq<Event>, u: State)
    requires Run(s, events, t) && Run(t, more, u)
    ensures Run(s, events + more, u)
    decreases |events|
  {
    if events == [] {
      assert events + more == more;
    } else {
      RunConcat(Step(s, events[0]), events[1..], t, more, u);
      TailOfSum(events, more);
    }
  }

  lemma RunOne(s: State, e: Event)
    requires Enabled(s, e)
    ensures Run(s, [e], Step(s, e))
  {
    assert [e][1..] == [];
  }

  // ----- from such a state there are two resends -----

  /** The state once handler `h` has resent and let go. */
  function Resent(s: State, h: nat): State
    requires h < |s.log|
  {
    s.(log := s.log[h := s.log[h].(place := Done, resent := Some(s.epoch))],
       pending := false, cached := true, deliveries := s.deliveries + Copies(s.n))
  }

  lemma FinishTaken(s: State, h: nat) returns (events: seq<Event>)
    requires At(s, h, Taken)
    ensures Run(s, events, Resent(s, h))
  {
    var s1 := Step(s, Resend(h, SentToAll));
    RunOne(s, Resend(h, SentToAll));
    RunOne(s1, Release(h));
    assert Step(s1, Release(h)) == Resent(s, h);
    events := [Resend(h, SentToAll)] + [Release(h)];
    RunConcat(s, [Resend(h, SentToAll)], s1, [Release(h)], Resent(s, h));
  }

  lemma FinishHolding(s: State, h: nat) returns (events: seq<Event>)
    requires At(s, h, Holding) && s.cached
    ensures Run(s, events, Resent(s, h))
  {
    var s1 := Step(s, Take(h));
    RunOne(s, Take(h));
    var rest := FinishTaken(s1, h);
    assert Resent(s1, h) == Resent(s, h);
    events := [Take(h)] + rest;
    RunConcat(s, [Take(h)], s1, rest, Resent(s, h));
  }

  lemma FinishPassed(s: State, h: nat) returns (events: seq<Event>)
    requires At(s, h, Passed) && s.cached && !s.pending
    ensures Run(s, events, Resent(s, h))
  {
    var s1 := Step(s, Reserve(h));
    RunOne(s, Reserve(h));
    var rest := FinishHolding(s1, h);
    assert Resent(s1, h) == Resent(s, h);
    events := [Reserve(h)] + rest;
    RunConcat(s, [Reserve(h)], s1, rest, Resent(s, h));
  }

  lemma FinishBusy(s: State, h: nat) returns (events: seq<Event>)
    requires ExclusionOk(s) && Resendable(s) && Busy(s, h) && Working(s, h)
    ensures Run(s, events, Resent(s, h))
  {
    if At(s, h, Taken) {
      events := FinishTaken(s, h);
    } else {
      assert forall x :: At(s, x, Taken) ==> Busy(s, x);
      events := FinishHolding(s, h);
    }
  }

  /** The handler that holds the message, if one does, gets out of the way. */
  lemma FreeMessage(s: State) returns (events: seq<Event>, t: State)
    requires ExclusionOk(s) && Resendable(s)
    ensures Run(s, events, t) && !t.pending && t.cached
    ensures Undisturbed(s, t) && forall x :: 0 <= x < |s.log| && !Busy(s, x) ==> t.log[x] == s.log[x]
  {
    assert forall x :: At(s, x, Taken) ==> Busy(s, x);
    if !s.pending {
      events, t := [], s;
    } else {
      var h :| Busy(s, h);
      if At(s, h, Releasing) {
        events, t := [Release(h)], Step(s, Release(h));
        RunOne(s, Release(h));
      } else {
        events := FinishBusy(s, h);
        t := Resent(s, h);
      }
    }
  }

  /** What stays as it is, and that handlers which held the message have resent. */
  predicate Undisturbed(s: State, t: State) {
    && t.n == s.n && t.group == s.group && t.counts == s.counts && t.dedupe == s.dedupe && t.epoch == s.epoch
    && |t.log| == |s.log|
    && (forall x :: 0 <= x < |s.log| ==> t.log[x].device == s.log[x].device && t.log[x].count == s.log[x].count)
    && (forall x :: 0 <= x < |s.log| && Busy(s, x) && Working(s, x) ==> t.log[x].resent == Some(s.epoch))
  }

  /** A handler at work can get its resend out. */
  lemma ResendVia(s: State, i: nat) returns (events: seq<Event>, t: State)
    requires ExclusionOk(s) && Resendable(s) && Working(s, i)
    ensures Run(s, events, t) && t.cached && !t.pending && Undisturbed(s, t)
    ensures t.log[i].resent == Some(s.epoch)
    ensures forall x :: 0 <= x < |s.log| && x != i && !Busy(s, x) ==> t.log[x] == s.log[x]
    ensures forall d: nat :: d < s.n ==> d in t.deliveries
  {
    if Busy(s, i) {
      events := FinishBusy(s, i);
      t := Resent(s, i);
    } else {
      var s1;
      events, s1 := FreeMessage(s);
      assert s1.log[i] == s.log[i];
      var rest := FinishPassed(s1, i);
      t := Resent(s1, i);
      RunConcat(s, events, s1, rest, t);
      events := events + rest;
    }
  }

  /** With nothing deduplicated, a waiting receipt passes. */
  lemma AdmitWaiting(s: State, j: nat) returns (events: seq<Event>, t: State)
    requires s.dedupe == {} && Waiting(s, j)
    ensures Run(s, events, t) && t.cached == s.cached && t.epoch == s.epoch && t.group == s.group
    ensures t.log == s.log[j := s.log[j].(place := Passed, admitted := Some(s.epoch))]
  {
    if At(s, j, Arrived) {
      events, t := [Dedupe(j)], Step(s, Dedupe(j));
      RunOne(s, Dedupe(j));
    } else {
      var s1 := Step(s, Arrive(j));
      t := Step(s1, Dedupe(j));
      RunOne(s, Arrive(j));
      RunOne(s1, Dedupe(j));
      events := [Arrive(j)] + [Dedupe(j)];
      RunConcat(s, [Arrive(j)], s1, [Dedupe(j)], t);
    }
  }

  /** A second handler of the key is at work. */
  lemma TwiceWorking(s: State, k: Key, i: nat, j: nat) returns (events: seq<Event>, t: State)
    requires Inv(s) && Resendable(s) && i != j && WorksOn(s, k, i) && WorksOn(s, k, j)
    ensures Run(s, events, t) && Twice(t, k, i, j, s.epoch)
  {
    var s1;
    events, s1 := ResendVia(s, i);
    if Busy(s, j) {
      t := s1;
    } else {
      assert s1.log[j] == s.log[j];
      RunInv(s, events, s1);
      var rest;
      rest, t := ResendVia(s1, j);
      AlreadyResent(s1, t, i, j);
      RunConcat(s, events, s1, rest, t);
      events := events + rest;
    }
  }

  lemma AlreadyResent(s: State, t: State, i: nat, j: nat)
    requires Inv(s) && Undisturbed(s, t) && i < |s.log| && s.log[i].resent == Some(s.epoch) && i != j
    requires forall x :: 0 <= x < |s.log| && x != j && !Busy(s, x) ==> t.log[x] == s.log[x]
    requires !s.pending
    ensures t.log[i].resent == Some(s.epoch)
  {
    assert !Busy(s, i);
  }

  /** A receipt of the key waits, and nothing is deduplicated. */
  lemma TwiceWaiting(s: State, k: Key, i: nat, j: nat) returns (events: seq<Event>, t: State)
    requires Inv(s) && Resendable(s) && s.dedupe == {} && i != j && WorksOn(s, k, i) && WaitsFor(s, k, j)
    ensures Run(s, events, t) && Twice(t, k, i, j, s.epoch)
  {
    var s1;
    events, s1 := ResendVia(s, i);
    assert s1.log[j] == s.log[j];
    RunInv(s, events, s1);
    var rest;
    rest, t := ThenWaiting(s1, k, i, j);
    RunConcat(s, events, s1, rest, t);
    events := events + rest;
  }

  lemma ThenWaiting(s: State, k: Key, i: nat, j: nat) returns (events: seq<Event>, t: State)
    requires Inv(s) && s.cached && !s.pending && s.dedupe == {} && i != j && WaitsFor(s, k, j)
    requires i < |s.log| && KeyOf(s, i) == k && s.log[i].resent == Some(s.epoch)
    ensures Run(s, events, t) && Twice(t, k, i, j, s.epoch)
  {
    var s1, rest;
    events, s1 := AdmitWaiting(s, j);
    RunInv(s, events, s1);
    rest, t := ResendVia(s1, j);
    assert s1.log[i] == s.log[i];
    RunInv(s1, rest, t);
    ResentStays(s1, rest, t, i);
    RunConcat(s, events, s1, rest, t);
    events := events + rest;
  }

  /** A device that fails on a copy below the limit emits a receipt. */
  lemma FailOnCopy(s: State, d: nat) returns (e: Event, t: State)
    requires Inv(s) && d < s.n && d in s.deliveries && s.counts[d] + 1 < MAX_RETRY_COUNT
    ensures Run(s, [e], t) && Inv(t)
    ensures t.log == s.log + [Entry(d, s.counts[d] + 1, InFlight, None, None)]
    ensures t.cached == s.cached && t.pending == s.pending && t.dedupe == s.dedupe
    ensures t.epoch == s.epoch && t.group == s.group
  {
    e := Undecryptable(d);
    t := Fail(s, d);
    FailKeeps(s, d);
    RunOne(s, e);
    StepInv(s, e);
  }

  lemma FailKeeps(s: State, d: nat)
    requires d < |s.counts| && s.counts[d] + 1 < MAX_RETRY_COUNT
    ensures var t := Fail(s, d);
      && t.log == s.log + [Entry(d, s.counts[d] + 1, InFlight, None, None)]
      && t == s.(counts := t.counts, log := t.log)
  {
  }

  /** A device behind the key fails on the copy that the first resend sends it. */
  lemma TwiceFailing(s: State, k: Key, i: nat, d: nat) returns (events: seq<Event>, t: State, j: nat)
    requires Inv(s) && Resendable(s) && s.dedupe == {} && WorksOn(s, k, i) && MayFail(s, k, d)
    ensures Run(s, events, t) && Twice(t, k, i, j, s.epoch)
  {
    var s1;
    events, s1 := ResendVia(s, i);
    RunInv(s, events, s1);
    var rest;
    rest, t, j := ThenFailing(s1, k, i, d);
    RunConcat(s, events, s1, rest, t);
    events := events + rest;
  }

  lemma ThenFailing(s: State, k: Key, i: nat, d: nat) returns (events: seq<Event>, t: State, j: nat)
    requires Inv(s) && s.cached && !s.pending && s.dedupe == {} && MayFail(s, k, d) && d in s.deliveries
    requires i < |s.log| && KeyOf(s, i) == k && s.log[i].resent == Some(s.epoch)
    ensures Run(s, events, t) && Twice(t, k, i, j, s.epoch)
  {
    var e, s1, rest;
    e, s1 := FailOnCopy(s, d);
    j := |s.log|;
    assert s1.log[i] == s.log[i] && s1.log[j].place.InFlight? && s1.log[j].device == d;
    rest, t := ThenWaiting(s1, k, i, j);
    RunConcat(s, [e], s1, rest, t);
    events := [e] + rest;
  }

  lemma TwiceWithRival(s: State, k: Key, i: nat) returns (events: seq<Event>, t: State, j: nat)
    requires Inv(s) && s.dedupe == {} && Race(s, k, i)
    ensures Run(s, events, t) && Twice(t, k, i, j, s.epoch)
  {
    if exists x :: 0 <= x < |s.log| && x != i && WorksOn(s, k, x) {
      j :| 0 <= j < |s.log| && j != i && WorksOn(s, k, j);
      events, t := TwiceWorking(s, k, i, j);
    } else if exists x :: 0 <= x < |s.log| && x != i && WaitsFor(s, k, x) {
      j :| 0 <= j < |s.log| && j != i && WaitsFor(s, k, j);
      events, t := TwiceWaiting(s, k, i, j);
    } else {
      var d :| 0 <= d < |s.counts| && MayFail(s, k, d);
      events, t, j := TwiceFailing(s, k, i, d);
    }
  }

  /** A clear changes nothing but the dedupe cache and the epoch. */
  lemma ClearKeeps(s: State, k: Key, i: nat)
    ensures Race(Step(s, Clear), k, i) <==> Race(s, k, i)
  {
    var t := Step(s, Clear);
    assert forall h: nat :: At(t, h, Taken) <==> At(s, h, Taken);
    assert forall j: nat :: WorksOn(t, k, j) <==> WorksOn(s, k, j);
    assert forall j: nat :: WaitsFor(t, k, j) <==> WaitsFor(s, k, j);
    assert forall d: nat :: MayFail(t, k, d) <==> MayFail(s, k, d);
  }

  lemma ClearReady(s: State, k: Key, i: nat)
    requires Inv(s) && Race(s, k, i)
    ensures var t := Step(s, Clear);
      Inv(t) && Race(t, k, i) && t.dedupe == {} && t.epoch == s.epoch + 1
  {
    StepInv(s, Clear);
    ClearKeeps(s, k, i);
  }

  lemma TwiceAfterClear(s: State, k: Key, i: nat) returns (events: seq<Event>, t: State, j: nat)
    requires Inv(s) && Race(s, k, i)
    ensures Run(Step(s, Clear), events, t) && Twice(t, k, i, j, s.epoch + 1)
  {
    ClearReady(s, k, i);
    events, t, j := TwiceWithRival(Step(s, Clear), k, i);
  }

  /** From every state that reopens the key, a clear has a continuation with two resends. */
  lemma TwoResends(s: State, k: Key) returns (events: seq<Event>, t: State, i: nat, j: nat)
    requires Inv(s) && Reopens(s, k)
    ensures Run(Step(s, Clear), events, t) && Twice(t, k, i, j, s.epoch + 1)
  {
    i :| 0 <= i < |s.log| && Race(s, k, i);
    events, t, j := TwiceAfterClear(s, k, i);
  }

  // ----- and from no other -----

  /** What an entry never loses. */
  predicate Extends(x: Entry, y: Entry) {
    && y.device == x.device && y.count == x.count
    && (x.admitted.Some? ==> y.admitted == x.admitted)
    && (x.resent.Some? ==> y.resent == x.resent)
  }

  predicate Own(e: Event, i: nat) {
    Handler(e) && e.i == i
  }

  lemma StepElsewhere(s: State, e: Event, i: nat)
    requires Enabled(s, e) && i < |s.log| && !Own(e, i)
    ensures i < |Step(s, e).log| && Step(s, e).log[i] == s.log[i]
  {
    if Handler(e) {
      StepTouches(s, e);
    }
  }

  lemma StepExtends(s: State, e: Event, i: nat)
    requires EntriesOk(s) && Enabled(s, e) && i < |s.log|
    ensures i < |Step(s, e).log| && Extends(s.log[i], Step(s, e).log[i])
  {
    assert EntryOk(s.log[i], s.epoch);
    if Own(e, i) {
      StepRewrites(s, e);
    } else {
      StepElsewhere(s, e, i);
    }
  }

  lemma {:induction false} RunExtends(s: State, events: seq<Event>, t: State, i: nat)
    requires Inv(s) && Run(s, events, t) && i < |s.log|
    ensures i < |t.log| && Extends(s.log[i], t.log[i])
    decreases |events|
  {
    if events == [] {
    } else {
      StepInv(s, events[0]);
      StepExtends(s, events[0], i);
      RunExtends(Step(s, events[0]), events[1..], t, i);
    }
  }

  lemma ResentStays(s: State, events: seq<Event>, t: State, i: nat)
    requires Inv(s) && Run(s, events, t) && i < |s.log| && s.log[i].resent.Some?
    ensures i < |t.log| && t.log[i].resent == s.log[i].resent && KeyOf(t, i) == KeyOf(s, i)
  {
    RunExtends(s, events, t, i);
    RunKeeps(s, events, t);
  }

  /** Which place comes before which. */
  predicate Precedes(p: Place, q: Place) {
    match q
    case InFlight => false
    case Arrived => p.InFlight?
    case Passed => p.Arrived?
    case Holding => p.Passed?
    case Taken => p.Holding?
    case _ => true
  }

  lemma OwnStep(s: State, e: Event)
    requires Enabled(s, e) && Handler(e)
    ensures e.i < |Step(s, e).log| && Precedes(s.log[e.i].place, Step(s, e).log[e.i].place)
    ensures Step(s, e).log[e.i].place.Passed? ==> Step(s, e).log[e.i].admitted == Some(s.epoch)
  {
  }

  /** Where a receipt came from that is on its way to a resend, or has just made it. */
  lemma StepFrom(s: State, e: Event, i: nat)
    requires Enabled(s, e) && i < |s.log|
    ensures i < |Step(s, e).log|
    ensures Waiting(Step(s, e), i) ==> Waiting(s, i)
    ensures Working(Step(s, e), i) && s.log[i].count < MAX_RETRY_COUNT ==>
      Working(s, i) || (Waiting(s, i) && Step(s, e).log[i].admitted == Some(s.epoch))
    ensures Step(s, e).log[i].resent.Some? ==> s.log[i].resent.Some? || At(s, i, Taken)
  {
    if Own(e, i) {
      OwnStep(s, e);
      StepRewrites(s, e);
    } else {
      StepElsewhere(s, e, i);
    }
  }

  lemma FailNew(s: State, d: nat)
    requires d < |s.counts| && |Fail(s, d).log| > |s.log|
    ensures var e := Fail(s, d).log[|s.log|];
      |Fail(s, d).log| == |s.log| + 1 && e.place.InFlight? && e.resent.None? && e.device == d && s.counts[d] < e.count
  {
  }

  lemma StepNew(s: State, e: Event, i: nat)
    requires CountsOk(s) && Enabled(s, e) && |s.log| <= i < |Step(s, e).log|
    ensures Step(s, e).log[i].place.InFlight? && Step(s, e).log[i].resent.None?
    ensures Step(s, e).log[i].device < s.n && s.counts[Step(s, e).log[i].device] < Step(s, e).log[i].count
  {
    if Handler(e) {
      StepTouches(s, e);
      assert false;
    } else if e.Undecryptable? {
      FailNew(s, e.device);
    }
  }

  lemma StepMonotone(s: State, e: Event, d: nat)
    requires CountsOk(s) && Enabled(s, e) && d < s.n
    ensures d < |Step(s, e).counts| && s.counts[d] <= Step(s, e).counts[d] && s.epoch <= Step(s, e).epoch
  {
    if Handler(e) {
      StepTouches(s, e);
    }
  }

  /**
   Where a receipt was, looking back from its resend: at work, waiting, or not emitted yet; and
   at work if it was admitted before.
   */
  lemma {:induction false} LookBack(s: State, events: seq<Event>, t: State, i: nat)
    requires Inv(s) && Run(s, events, t) && i < |t.log| && t.log[i].resent.Some?
    requires i < |s.log| ==> s.log[i].resent.None?
    ensures t.log[i].admitted.Some? && t.log[i].count < MAX_RETRY_COUNT && t.log[i].device < s.n
    ensures i < |s.log| ==> Working(s, i) || Waiting(s, i)
    ensures i >= |s.log| ==> s.counts[t.log[i].device] < t.log[i].count
    ensures t.log[i].admitted.value < s.epoch ==> Working(s, i)
    decreases |events|, 0
  {
    RunInv(s, events, t);
    RunKeeps(s, events, t);
    assert EntryOk(t.log[i], t.epoch);
    if events == [] {
    } else {
      var e, next := events[0], Step(s, events[0]);
      StepInv(s, e);
      StepMonotone(s, e, t.log[i].device);
      if i < |s.log| {
        LookBackOld(s, e, events[1..], t, i);
      } else if i < |next.log| {
        StepNew(s, e, i);
        RunExtends(next, events[1..], t, i);
        LookBack(next, events[1..], t, i);
      } else {
        LookBack(next, events[1..], t, i);
      }
    }
  }

  lemma {:induction false} LookBackOld(s: State, e: Event, events: seq<Event>, t: State, i: nat)
    requires Inv(s) && Enabled(s, e) && Inv(Step(s, e)) && Run(Step(s, e), events, t) && s.epoch <= Step(s, e).epoch
    requires i < |s.log| && i < |t.log| && s.log[i].resent.None? && t.log[i].resent.Some?
    ensures t.log[i].admitted.Some?
    ensures Working(s, i) || Waiting(s, i)
    ensures t.log[i].admitted.value < s.epoch ==> Working(s, i)
    decreases |events|, 1
  {
    var next := Step(s, e);
    StepFrom(s, e, i);
    StepExtends(s, e, i);
    RunExtends(next, events, t, i);
    if next.log[i].resent.None? {
      LookBack(next, events, t, i);
    } else {
      assert EntryOk(next.log[i], next.epoch);
    }
  }

  lemma StepUnsendable(s: State, e: Event)
    requires Enabled(s, e) && !Resendable(s)
    ensures !Resendable(Step(s, e))
  {
    var t := Step(s, e);
    assert e.Resend? ==> At(s, e.i, Taken);
    assert !t.cached;
    forall h: nat | At(t, h, Taken) ensures At(s, h, Taken) {
      if h < |s.log| && !Own(e, h) {
        StepElsewhere(s, e, h);
      }
    }
  }

  /** Once the message is neither cached nor taken, it is never resent again. */
  lemma {:induction false} LostForGood(s: State, events: seq<Event>, t: State, i: nat)
    requires Inv(s) && Run(s, events, t) && !Resendable(s) && i < |t.log|
    ensures t.log[i].resent.Some? ==> i < |s.log| && s.log[i].resent == t.log[i].resent
    decreases |events|
  {
    if events == [] {
    } else {
      var e, next := events[0], Step(s, events[0]);
      StepInv(s, e);
      StepUnsendable(s, e);
      LostForGood(next, events[1..], t, i);
      if i < |s.log| {
        StepFrom(s, e, i);
        StepExtends(s, e, i);
      } else if i < |next.log| {
        StepNew(s, e, i);
      }
    }
  }

  /** Of two resends for one key in one epoch, one handler was admitted in an earlier epoch. */
  lemma EarlierAdmitted(t: State, k: Key, i: nat, j: nat, epoch: nat)
    requires Inv(t) && Twice(t, k, i, j, epoch)
    ensures t.log[i].admitted.Some? && t.log[j].admitted.Some?
    ensures t.log[i].admitted.value < epoch || t.log[j].admitted.value < epoch
  {
    if i < j {
      AdmittedApart(t, i, j);
    } else {
      AdmittedApart(t, j, i);
    }
  }

  /** At the moment of the clear, the second receipt was at work, waiting, or still to come. */
  lemma RivalThen(s: State, events: seq<Event>, t: State, k: Key, i: nat, j: nat)
    requires Inv(s) && Run(s, events, t) && Twice(t, k, i, j, s.epoch)
    requires forall x :: 0 <= x < |s.log| && s.log[x].resent.Some? ==> s.log[x].resent.value < s.epoch
    requires t.log[i].admitted.Some? && t.log[i].admitted.value < s.epoch
    ensures Race(s, k, i)
  {
    RunKeeps(s, events, t);
    if i < |s.log| {
      RunExtends(s, events, t, i);
    }
    if j < |s.log| {
      RunExtends(s, events, t, j);
    }
    LookBack(s, events, t, i);
    LookBack(s, events, t, j);
    if !Resendable(s) {
      LostForGood(s, events, t, i);
    }
    if j >= |s.log| {
      assert MayFail(s, k, t.log[j].device);
    } else {
      assert WorksOn(s, k, j) || WaitsFor(s, k, j);
    }
  }

  lemma ResentEarlier(s: State, x: nat)
    requires EntriesOk(s) && x < |s.log| && s.log[x].resent.Some?
    ensures s.log[x].resent.value <= s.epoch
  {
    assert EntryOk(s.log[x], s.epoch);
  }

  lemma ReopenedFor(s: State, s1: State, events: seq<Event>, t: State, k: Key, i: nat, j: nat)
    requires EntriesOk(s) && s1 == Step(s, Clear) && Inv(s1) && Run(s1, events, t) && Twice(t, k, i, j, s1.epoch)
    requires t.log[i].admitted.Some? && t.log[i].admitted.value < s1.epoch
    ensures Reopens(s, k)
  {
    forall x | 0 <= x < |s1.log| && s1.log[x].resent.Some? ensures s1.log[x].resent.value < s1.epoch {
      ResentEarlier(s, x);
    }
    RivalThen(s1, events, t, k, i, j);
    ClearKeeps(s, k, i);
    assert Race(s, k, i);
  }

  /** Two resends for a key in one epoch were made possible by the clear that began the epoch. */
  lemma ReopenedBy(s: State, events: seq<Event>, t: State, k: Key, i: nat, j: nat)
    requires Inv(s) && Run(Step(s, Clear), events, t) && Twice(t, k, i, j, s.epoch + 1)
    ensures Reopens(s, k)
  {
    var s1 := Step(s, Clear);
    StepInv(s, Clear);
    RunInv(s1, events, t);
    EarlierAdmitted(t, k, i, j, s1.epoch);
    if t.log[i].admitted.value < s1.epoch {
      ReopenedFor(s, s1, events, t, k, i, j);
    } else {
      ReopenedFor(s, s1, events, t, k, j, i);
    }
  }

  /** A run after a clear in `s` with two resends for the key before the next clear. */
  ghost predicate ResentTwice(s: State, k: Key, more: seq<Event>, t: State, i: nat, j: nat) {
    Run(Step(s, Clear), more, t) && Twice(t, k, i, j, s.epoch + 1)
  }

  /**
   In every reachable state: clearing the dedupe cache can be followed by two resends for a key
   in the new connection exactly when the message can still be resent, a handler of the key is
   between its dedupe insert and its resend, and there is a rival: another such handler, a
   waiting receipt, or a device that can still ask.
   */
  lemma SecondResendExactly(n: nat, group: bool, events: seq<Event>, s: State, k: Key)
    requires Run(Init(n, group), events, s)
    ensures Reopens(s, k) <==> exists more, t, i: nat, j: nat :: ResentTwice(s, k, more, t, i, j)
  {
    Reachable(n, group, events, s);
    if Reopens(s, k) {
      var more, t, i, j := TwoResends(s, k);
      assert ResentTwice(s, k, more, t, i, j);
    }
    forall more, t, i: nat, j: nat | ResentTwice(s, k, more, t, i, j) ensures Reopens(s, k) {
      ReopenedBy(s, more, t, k, i, j);
    }
  }

  /** No clear of the run reopens the key. */
  ghost predicate QuietFor(s: State, events: seq<Event>, k: Key)
    decreases |events|
  {
    events == [] ||
    (&& (events[0].Clear? ==> !Reopens(s, k))
     && (Enabled(s, events[0]) ==> QuietFor(Step(s, events[0]), events[1..], k)))
  }

  lemma StepEpoch(s: State, e: Event)
    requires Enabled(s, e)
    ensures Step(s, e).epoch == s.epoch + One(e.Clear?)
  {
  }

  /** The clear that began an epoch of the run. */
  lemma {:induction false} ClearBefore(s: State, events: seq<Event>, t: State, k: Key, epoch: nat)
    returns (r: State, rest: seq<Event>)
    requires Inv(s) && Run(s, events, t) && s.epoch < epoch <= t.epoch && QuietFor(s, events, k)
    ensures Inv(r) && r.epoch + 1 == epoch && Run(Step(r, Clear), rest, t) && !Reopens(r, k)
    decreases |events|
  {
    assert events != [];
    var next := Step(s, events[0]);
    StepEpoch(s, events[0]);
    StepInv(s, events[0]);
    if next.epoch == epoch {
      r, rest := s, events[1..];
    } else {
      r, rest := ClearBefore(next, events[1..], t, k, epoch);
    }
  }

  /** In every run whose clears do not reopen the key, the key resends at most once per connection. */
  lemma OneResendPerKey(n: nat, group: bool, events: seq<Event>, t: State, k: Key, i: nat, j: nat, epoch: nat)
    requires Run(Init(n, group), events, t) && QuietFor(Init(n, group), events, k)
    ensures !Twice(t, k, i, j, epoch)
  {
    if Twice(t, k, i, j, epoch) {
      Reachable(n, group, events, t);
      InitInv(n, group);
      EarlierAdmitted(t, k, i, j, epoch);
      assert EntryOk(t.log[i], t.epoch);
      var r, rest := ClearBefore(Init(n, group), events, t, k, epoch);
      ReopenedBy(r, rest, t, k, i, j);
    }
  }

  // ----- such a state is reachable -----

  /** A chat with two devices that have each failed once. */
  function Both(x: Entry, y: Entry, dedupe: set<Key>): State {
    State(2, false, [1, 1], Copies(2), [x, y], dedupe, false, true, 0)
  }

  lemma Then(s: State, events: seq<Event>, t: State, e: Event, u: State) returns (more: seq<Event>)
    requires Run(s, events, t) && Enabled(t, e) && u == Step(t, e)
    ensures Run(s, more, u)
  {
    RunOne(t, e);
    RunConcat(s, events, t, [e], u);
    more := events + [e];
  }

  lemma BothFail() returns (events: seq<Event>)
    ensures Run(Init(2, false), events, Both(Entry(0, 1, InFlight, None, None), Entry(1, 1, InFlight, None, None), {}))
  {
    var s, x, y := Init(2, false), Entry(0, 1, InFlight, None, None), Entry(1, 1, InFlight, None, None);
    var s1 := State(2, false, [1, 0], Copies(2), [x], {}, false, true, 0);
    events := Then(s, [], s, Undecryptable(0), s1);
    events := Then(s, events, s1, Undecryptable(1), Both(x, y, {}));
  }

  lemma RaceReached() returns (events: seq<Event>, s: State)
    ensures Run(Init(2, false), events, s) && Inv(s) && Race(s, PerChat, 0) && s.epoch == 0
  {
    var init, y := Init(2, false), Entry(1, 1, InFlight, None, None);
    events := BothFail();
    var s1 := Both(Entry(0, 1, Arrived, None, None), y, {});
    s := Both(Entry(0, 1, Passed, Some(0), None), y, {PerChat});
    events := Then(init, events, Both(Entry(0, 1, InFlight, None, None), y, {}), Arrive(0), s1);
    events := Then(init, events, s1, Dedupe(0), s);
    Reachable(2, false, events, s);
    RaceAt(s, y);
  }

  lemma RaceAt(s: State, y: Entry)
    requires s == Both(Entry(0, 1, Passed, Some(0), None), y, {PerChat}) && y == Entry(1, 1, InFlight, None, None)
    ensures Race(s, PerChat, 0)
  {
    assert WaitsFor(s, PerChat, 1);
  }

  /** Two devices of a chat fail; the connection is lost while the first receipt is handled. */
  lemma ClearAllowsSecondResend() returns (events: seq<Event>, t: State, j: nat)
    ensures Run(Init(2, false), events, t) && Twice(t, PerChat, 0, j, 1)
  {
    var s, more;
    events, s := RaceReached();
    more, t, j := TwiceAfterClear(s, PerChat, 0);
    events := Then(Init(2, false), events, s, Clear, Step(s, Clear));
    RunConcat(Init(2, false), events, Step(s, Clear), more, t);
    events := events + more;
  }
}
