/**
 Runs of sends and forget marks for one group: when the record of devices with the sender key
 tells the truth along a run, what a recorded device's history is, and how a device comes to be
 recorded without the key and stays so. Everything is said device by device, so what goes wrong
 for one device says nothing about another.
 */
module GroupSendRuns {
  import opened Bytes
  import opened GroupSend

  datatype Event = Mark(d: Device) | Send(c: Conditions)

  ghost function Step(g: Group, v: State, e: Event): State {
    match e
    case Mark(d) => v.(marks := v.marks + [d])
    case Send(c) => Next(g, v, c)
  }

  ghost function After(g: Group, v: State, events: seq<Event>): State
    decreases |events|
  {
    if events == [] then v else After(g, Step(g, v, events[0]), events[1..])
  }

  const START: State := State({}, [], {})

  /** No send of the run takes a branch that misleads about the device. */
  ghost predicate NeverMisleadsFor(g: Group, v: State, events: seq<Event>, d: Device)
    decreases |events|
  {
    events == [] ||
    (&& (events[0].Send? ==> !MisleadsFor(g, v, events[0].c, d))
     && NeverMisleadsFor(g, Step(g, v, events[0]), events[1..], d))
  }

  /** The record is truthful about the device in every state of the run. */
  ghost predicate AlwaysTruthfulFor(g: Group, v: State, events: seq<Event>, d: Device)
    decreases |events|
  {
    TruthfulFor(g, v, d) && (events == [] || AlwaysTruthfulFor(g, Step(g, v, events[0]), events[1..], d))
  }

  ghost predicate NeverMisleads(g: Group, v: State, events: seq<Event>) {
    forall d :: NeverMisleadsFor(g, v, events, d)
  }

  ghost predicate AlwaysTruthful(g: Group, v: State, events: seq<Event>) {
    forall d :: AlwaysTruthfulFor(g, v, events, d)
  }

  lemma {:induction false} RunTruthfulForExactly(g: Group, v: State, events: seq<Event>, d: Device)
    requires TruthfulFor(g, v, d)
    ensures AlwaysTruthfulFor(g, v, events, d) <==> NeverMisleadsFor(g, v, events, d)
    ensures NeverMisleadsFor(g, v, events, d) ==> TruthfulFor(g, After(g, v, events), d)
    decreases |events|
  {
    if events == [] {
    } else {
      var next := Step(g, v, events[0]);
      if events[0].Send? {
        TruthfulForExactly(g, v, events[0].c, d);
      }
      if TruthfulFor(g, next, d) {
        RunTruthfulForExactly(g, next, events[1..], d);
      } else {
        assert !AlwaysTruthfulFor(g, next, events[1..], d);
      }
    }
  }

  /** For all devices together. */
  lemma RunTruthfulExactly(g: Group, v: State, events: seq<Event>)
    requires Truthful(g, v)
    ensures AlwaysTruthful(g, v, events) <==> NeverMisleads(g, v, events)
    ensures NeverMisleads(g, v, events) ==> Truthful(g, After(g, v, events))
  {
    forall d
      ensures AlwaysTruthfulFor(g, v, events, d) <==> NeverMisleadsFor(g, v, events, d)
      ensures NeverMisleadsFor(g, v, events, d) ==> TruthfulFor(g, After(g, v, events), d)
    {
      RunTruthfulForExactly(g, v, events, d);
    }
  }

  /**
   After any run that does not mislead about it, a device is left out of any stanza only if it
   has the key and is not marked, takes no part in the group's keys, is skipped, or the send
   lists nobody or keeps to the new and marked although the key was made anew.
   */
  lemma LeftOutOnlyIfServed(g: Group, events: seq<Event>, c: Conditions, d: Device)
    requires NeverMisleadsFor(g, START, events, d)
    requires d in c.devices && d !in Carried(g, After(g, START, events), c)
    ensures var v := After(g, START, events);
      || g.excluded(d)
      || (d in Kept(g, v, c) && !WantsAnew(g, v, c, d))
      || d in c.skipped
      || (!ForceSkdm(c) && !Selective(v, c))
      || (!ForceSkdm(c) && Remade(g, v, c))
  {
    RunTruthfulForExactly(g, START, events, d);
    assert d in SetOf(c.devices);
  }

  // ----- the history of any run -----

  ghost function StateAt(g: Group, events: seq<Event>, n: nat): State
    requires n <= |events|
  {
    After(g, START, events[..n])
  }

  lemma {:induction false} AfterSnoc(g: Group, v: State, events: seq<Event>, e: Event)
    ensures After(g, v, events + [e]) == Step(g, After(g, v, events), e)
    decreases |events|
  {
    if events == [] {
      assert [] + [e] == [e] && [e][1..] == [];
    } else {
      TailOfSum(events, [e]);
      AfterSnoc(g, Step(g, v, events[0]), events[1..], e);
    }
  }

  lemma StateAtNext(g: Group, events: seq<Event>, n: nat)
    requires n < |events|
    ensures StateAt(g, events, n + 1) == Step(g, StateAt(g, events, n), events[n])
  {
    AfterSnoc(g, START, events[..n], events[n]);
    assert events[..n + 1] == events[..n] + [events[n]];
  }

  ghost predicate RecordedAt(g: Group, events: seq<Event>, k: nat, d: Device) {
    && k < |events| && events[k].Send? && events[k].c.preparation.Prepared?
    && d in Recorded(g, StateAt(g, events, k), events[k].c)
  }

  predicate ClearedAt(events: seq<Event>, k: nat) {
    k < |events| && events[k].Send? && Clears(events[k].c)
  }

  ghost predicate GivenAt(g: Group, events: seq<Event>, k: nat, d: Device) {
    k < |events| && events[k].Send? && Gives(g, StateAt(g, events, k), events[k].c, d)
  }

  ghost predicate DroppedAt(g: Group, events: seq<Event>, k: nat) {
    k < |events| && events[k].Send? && Drops(g, StateAt(g, events, k), events[k].c)
  }

  /** Send `k` recorded the device and no clear was written between it and event `n`. */
  ghost predicate RecordedSince(g: Group, events: seq<Event>, k: nat, n: nat, d: Device) {
    k < n && RecordedAt(g, events, k, d) && forall m: nat :: k < m < n ==> !ClearedAt(events, m)
  }

  /** Send `k` brought the device the key and no other key took its place before event `n`. */
  ghost predicate GivenSince(g: Group, events: seq<Event>, k: nat, n: nat, d: Device) {
    k < n && GivenAt(g, events, k, d) && forall m: nat :: k < m < n ==> !DroppedAt(g, events, m)
  }

  lemma NextRecorded(g: Group, v: State, c: Conditions, d: Device)
    ensures d in Next(g, v, c).recorded <==>
      (c.preparation.Prepared? && d in Recorded(g, v, c)) || (d in v.recorded && !Clears(c))
  {
  }

  lemma NextReached(g: Group, v: State, c: Conditions, d: Device)
    ensures d in Next(g, v, c).reached <==> Gives(g, v, c, d) || (d in v.reached && !Drops(g, v, c))
  {
  }

  /** In every run, a device is recorded exactly when a prepared send recorded it and no clear was written since. */
  lemma {:induction false} RecordedHistory(g: Group, events: seq<Event>, n: nat, d: Device)
    requires n <= |events|
    ensures d in StateAt(g, events, n).recorded <==> exists k: nat :: RecordedSince(g, events, k, n, d)
    decreases n
  {
    if n == 0 {
    } else {
      var p := n - 1;
      RecordedHistory(g, events, p, d);
      StateAtNext(g, events, p);
      if events[p].Send? {
        NextRecorded(g, StateAt(g, events, p), events[p].c, d);
      }
      RecordedSinceNext(g, events, p, n, d);
    }
  }

  lemma RecordedSinceNext(g: Group, events: seq<Event>, p: nat, n: nat, d: Device)
    requires p < |events| && n == p + 1
    ensures (exists k: nat :: RecordedSince(g, events, k, n, d)) <==>
      RecordedAt(g, events, p, d) || (!ClearedAt(events, p) && exists k: nat :: RecordedSince(g, events, k, p, d))
  {
    if RecordedAt(g, events, p, d) {
      assert RecordedSince(g, events, p, n, d);
    } else if k: nat :| RecordedSince(g, events, k, n, d) {
      assert RecordedSince(g, events, k, p, d);
    } else if k: nat :| RecordedSince(g, events, k, p, d) && !ClearedAt(events, p) {
      assert RecordedSince(g, events, k, n, d);
    }
  }

  /** In every run, a device has the current key exactly when a send brought it and it was not replaced since. */
  lemma {:induction false} ReachedHistory(g: Group, events: seq<Event>, n: nat, d: Device)
    requires n <= |events|
    ensures d in StateAt(g, events, n).reached <==> exists k: nat :: GivenSince(g, events, k, n, d)
    decreases n
  {
    if n == 0 {
    } else {
      var p := n - 1;
      ReachedHistory(g, events, p, d);
      StateAtNext(g, events, p);
      if events[p].Send? {
        NextReached(g, StateAt(g, events, p), events[p].c, d);
      }
      GivenSinceNext(g, events, p, n, d);
    }
  }

  lemma GivenSinceNext(g: Group, events: seq<Event>, p: nat, n: nat, d: Device)
    requires p < |events| && n == p + 1
    ensures (exists k: nat :: GivenSince(g, events, k, n, d)) <==>
      GivenAt(g, events, p, d) || (!DroppedAt(g, events, p) && exists k: nat :: GivenSince(g, events, k, p, d))
  {
    if GivenAt(g, events, p, d) {
      assert GivenSince(g, events, p, n, d);
    } else if k: nat :| GivenSince(g, events, k, n, d) {
      assert GivenSince(g, events, k, p, d);
    } else if k: nat :| GivenSince(g, events, k, p, d) && !DroppedAt(g, events, p) {
      assert GivenSince(g, events, k, n, d);
    }
  }

  /**
   In every run, with no condition: the record is wrong about a device that takes part exactly
   when some send recorded it, uncleared since, and none brought it the key, unreplaced since.
   */
  lemma WrongExactly(g: Group, events: seq<Event>, n: nat, d: Device)
    requires n <= |events|
    ensures !TruthfulFor(g, StateAt(g, events, n), d) <==>
      && !g.excluded(d)
      && (exists k: nat :: RecordedSince(g, events, k, n, d))
      && !(exists k: nat :: GivenSince(g, events, k, n, d))
  {
    RecordedHistory(g, events, n, d);
    ReachedHistory(g, events, n, d);
  }

  /**
   After every run, with no condition: a device that a stanza leaves out takes no part, is
   skipped, is left out with everybody else, or has not asked and was recorded by an earlier
   prepared send with no clear written since.
   */
  lemma LeftOutOnlyIfRecorded(g: Group, events: seq<Event>, n: nat, c: Conditions, d: Device)
    requires n <= |events| && d in c.devices && d !in Carried(g, StateAt(g, events, n), c)
    ensures var v := StateAt(g, events, n);
      || g.excluded(d)
      || d in c.skipped
      || (!ForceSkdm(c) && !Selective(v, c))
      || (!WantsAnew(g, v, c, d) && exists k: nat :: RecordedSince(g, events, k, n, d))
  {
    RecordedHistory(g, events, n, d);
    assert d in SetOf(c.devices);
  }

  /** Send `k` of the run writes its record, whether or not that covers anyone new. */
  ghost predicate WritesRecordAt(g: Group, events: seq<Event>, k: nat) {
    && k < |events| && events[k].Send?
    && var c := events[k].c;
       c.preparation.Prepared? && c.recordWritten && (Selective(StateAt(g, events, k), c) || c.resolvedForRecord)
  }

  /** At every send of every run: when its current devices are all recorded. */
  lemma CoversAtEachSend(g: Group, events: seq<Event>, k: nat)
    requires k < |events| && events[k].Send?
    ensures SetOf(events[k].c.devices) <= StateAt(g, events, k + 1).recorded <==>
      || events[k].c.devices == []
      || (SetOf(events[k].c.devices) <= StateAt(g, events, k).recorded && !ClearedAt(events, k))
      || WritesRecordAt(g, events, k)
  {
    StateAtNext(g, events, k);
    RecordCovers(g, StateAt(g, events, k), events[k].c);
  }

  lemma {:induction false} RecordedUntilCleared(g: Group, events: seq<Event>, k: nat, n: nat)
    requires k <= n <= |events| && forall m: nat :: k <= m < n ==> !ClearedAt(events, m)
    ensures StateAt(g, events, k).recorded <= StateAt(g, events, n).recorded
    decreases n
  {
    if k == n {
    } else {
      RecordedUntilCleared(g, events, k, n - 1);
      StateAtNext(g, events, n - 1);
      assert !ClearedAt(events, n - 1);
    }
  }

  /**
   In every run: the devices of a send whose record is written are all recorded until a clear is
   written, and so a later selective send to some of them lists none but the marked.
   */
  lemma CoveredUntilCleared(g: Group, events: seq<Event>, k: nat, n: nat, c: Conditions)
    requires WritesRecordAt(g, events, k) && k < n <= |events|
    requires forall m: nat :: k < m < n ==> !ClearedAt(events, m)
    ensures SetOf(events[k].c.devices) <= StateAt(g, events, n).recorded
    ensures Selective(StateAt(g, events, n), c) && SetOf(c.devices) <= SetOf(events[k].c.devices) ==>
      forall d :: d in Listed(g, StateAt(g, events, n), c) ==> WantsAnew(g, StateAt(g, events, n), c, d)
  {
    CoversAtEachSend(g, events, k);
    RecordedUntilCleared(g, events, k + 1, n);
  }

  // ----- undisturbed runs -----

  /** Everything outside succeeds. */
  predicate Smooth(c: Conditions) {
    && c.marksRead && c.knownRead && c.resolvedForCheck && c.preparation.Prepared?
    && c.resolvedForRecord && c.recordWritten && c.devices != [] && c.skipped == {} && c.sent
  }

  /** The events of an undisturbed run: sends are smooth and the key stays. */
  predicate Calm(e: Event) {
    e.Send? ==> Smooth(e.c) && e.c.keyExists && !e.c.keyLost
  }

  lemma {:induction false} CalmOnceRecorded(g: Group, v: State, events: seq<Event>, d: Device)
    requires v.recorded != {} && forall i :: 0 <= i < |events| ==> Calm(events[i])
    ensures NeverMisleadsFor(g, v, events, d) && v.recorded <= After(g, v, events).recorded
    decreases |events|
  {
    if events == [] {
    } else {
      assert Calm(events[0]);
      CalmOnceRecorded(g, Step(g, v, events[0]), events[1..], d);
    }
  }

  lemma CalmNeverMisleads(g: Group, first: Conditions, events: seq<Event>)
    requires Smooth(first) && !first.keyExists && forall i :: 0 <= i < |events| ==> Calm(events[i])
    ensures NeverMisleads(g, START, [Send(first)] + events)
    ensures After(g, START, [Send(first)] + events) == After(g, Next(g, START, first), events)
    ensures After(g, START, [Send(first)] + events).recorded != {}
  {
    var next := Next(g, START, first);
    assert first.devices[0] in next.recorded;
    SplitSum([Send(first)], events);
    forall d ensures NeverMisleadsFor(g, START, [Send(first)] + events, d) {
      CalmOnceRecorded(g, next, events, d);
    }
    CalmOnceRecorded(g, next, events, "");
  }

  lemma CalmSendServes(g: Group, v: State, c: Conditions)
    requires Truthful(g, v) && Calm(Send(c)) && v.recorded != {}
    ensures EveryoneServed(g, v, c)
  {
    forall d ensures !PassedOver(g, v, c, d) {
      if PassedOver(g, v, c, d) {
        assert TruthfulFor(g, v, d);
        PassedOverOnlyIfRemade(g, v, c, d);
      }
    }
    ServedExactly(g, v, c);
  }

  /**
   In an undisturbed run whose first send finds no key, no send misleads and every send leaves
   every current device with the key, marked ones with a fresh copy, and recorded.
   */
  lemma CalmRunsServe(g: Group, first: Conditions, events: seq<Event>, c: Conditions)
    requires Smooth(first) && !first.keyExists
    requires Calm(Send(c)) && forall i :: 0 <= i < |events| ==> Calm(events[i])
    ensures NeverMisleads(g, START, [Send(first)] + events)
    ensures EveryoneServed(g, START, first)
    ensures EveryoneServed(g, After(g, START, [Send(first)] + events), c)
    ensures SetOf(c.devices) <= Next(g, After(g, START, [Send(first)] + events), c).recorded
  {
    RecordCovers(g, After(g, START, [Send(first)] + events), c);
    CalmNeverMisleads(g, first, events);
    RunTruthfulExactly(g, START, [Send(first)] + events);
    ServedExactly(g, START, first);
    CalmSendServes(g, After(g, START, [Send(first)] + events), c);
  }

  // ----- devices recorded without the key -----

  /** Recorded without the key, with no mark to ask for it. */
  ghost predicate Forgotten(g: Group, v: State, d: Device) {
    d in v.recorded && d !in v.reached && !g.excluded(d) && d !in v.marks
  }

  /**
   What gets a device out of this: a forced send that reaches it, a retry after the key was
   lost that reaches it or clears the record, or a mark. Nothing else about a send matters.
   */
  predicate WayOut(e: Event, d: Device) {
    match e
    case Mark(m) => m == d
    case Send(c) =>
      match c.preparation
      case Prepared => ForceSkdm(c) && d in c.devices && !Misses(c, d)
      case NoSenderKey => c.clearWritten || (c.retryPrepared && d in c.devices && !Misses(c, d))
      case _ => false
  }

  lemma StepForgotten(g: Group, v: State, e: Event, d: Device)
    requires Forgotten(g, v, d)
    ensures Forgotten(g, Step(g, v, e), d) <==> !WayOut(e, d)
  {
    if e.Send? {
      assert d in e.c.devices <==> d in SetOf(e.c.devices);
    }
  }

  ghost predicate AlwaysForgotten(g: Group, v: State, events: seq<Event>, d: Device)
    decreases |events|
  {
    Forgotten(g, v, d) && (events == [] || AlwaysForgotten(g, Step(g, v, events[0]), events[1..], d))
  }

  /** A device stays forgotten throughout a run exactly when none of its events is a way out. */
  lemma {:induction false} StaysForgotten(g: Group, v: State, events: seq<Event>, d: Device)
    requires Forgotten(g, v, d)
    ensures AlwaysForgotten(g, v, events, d) <==> forall i :: 0 <= i < |events| ==> !WayOut(events[i], d)
    ensures AlwaysForgotten(g, v, events, d) ==> Forgotten(g, After(g, v, events), d)
    decreases |events|
  {
    if events == [] {
    } else {
      var next := Step(g, v, events[0]);
      StepForgotten(g, v, events[0], d);
      if Forgotten(g, next, d) {
        StaysForgotten(g, next, events[1..], d);
        assert forall i :: 0 < i < |events| ==> events[i] == events[1..][i - 1];
      } else {
        assert !AlwaysForgotten(g, next, events[1..], d);
      }
    }
  }

  // ----- runs that come to this -----

  /** Every send of the run is one that can happen. */
  ghost predicate PossibleRun(g: Group, v: State, events: seq<Event>)
    decreases |events|
  {
    events == [] ||
    ((events[0].Send? ==> Possible(g, v, events[0].c)) && PossibleRun(g, Step(g, v, events[0]), events[1..]))
  }

  function Usual(devices: seq<Device>): Conditions {
    Conditions(false, true, false, true, true, devices, true, Prepared, {}, true, true, true, true, true)
  }

  function First(devices: seq<Device>): Conditions {
    Usual(devices).(keyExists := false)
  }

  function Lost(devices: seq<Device>): Conditions {
    Usual(devices).(keyLost := true, preparation := NoSenderKey)
  }

  lemma AfterOne(g: Group, v: State, e: Event)
    requires e.Send? ==> Possible(g, v, e.c)
    ensures After(g, v, [e]) == Step(g, v, e) && PossibleRun(g, v, [e])
  {
    assert [e][1..] == [];
  }

  lemma AfterTwo(g: Group, v: State, e: Event, f: Event)
    requires e.Send? ==> Possible(g, v, e.c)
    requires f.Send? ==> Possible(g, Step(g, v, e), f.c)
    ensures After(g, v, [e, f]) == Step(g, Step(g, v, e), f) && PossibleRun(g, v, [e, f])
  {
    assert [e, f][1..] == [f];
    AfterOne(g, Step(g, v, e), f);
  }

  lemma AfterThree(g: Group, v: State, e: Event, f: Event, h: Event)
    requires e.Send? ==> Possible(g, v, e.c)
    requires f.Send? ==> Possible(g, Step(g, v, e), f.c)
    requires h.Send? ==> Possible(g, Step(g, Step(g, v, e), f), h.c)
    ensures After(g, v, [e, f, h]) == Step(g, Step(g, Step(g, v, e), f), h) && PossibleRun(g, v, [e, f, h])
  {
    assert [e, f, h][1..] == [f, h];
    AfterTwo(g, Step(g, v, e), f, h);
  }

  ghost predicate Forgets(g: Group, events: seq<Event>, d: Device) {
    PossibleRun(g, START, events) && Forgotten(g, After(g, START, events), d)
  }

  /** Skipped when the key is first given out. */
  lemma SkippedForgotten(g: Group, a: Device)
    requires !g.excluded(a)
    ensures Forgets(g, [Send(First([a]).(skipped := {a}))], a)
  {
    AfterOne(g, START, Send(First([a]).(skipped := {a})));
  }

  /** The record is written before the stanza is sent. */
  lemma UnsentForgotten(g: Group, a: Device)
    requires !g.excluded(a)
    ensures Forgets(g, [Send(First([a]).(sent := false))], a)
  {
    AfterOne(g, START, Send(First([a]).(sent := false)));
  }

  /** A device that is away while the key is made anew stays recorded for the old key. */
  lemma AwayForgotten(g: Group, a: Device, b: Device)
    requires a != b && !g.excluded(b)
    ensures Forgets(g, [Send(First([a, b])), Send(First([a]))], b)
  {
    AfterTwo(g, START, Send(First([a, b])), Send(First([a])));
  }

  /** The key is made anew and then preparing fails: the next send finds a key and a full record. */
  lemma FailedRemakeForgotten(g: Group, a: Device)
    requires !g.excluded(a)
    ensures Forgets(g, [Send(First([a])), Send(First([a]).(preparation := FailedAfterKey))], a)
  {
    AfterTwo(g, START, Send(First([a])), Send(First([a]).(preparation := FailedAfterKey)));
  }

  /** After a usual first send, a usual second one to the same device has nobody to list. */
  lemma SecondListsNobody(g: Group, a: Device, c: Conditions)
    requires c.devices == [a] && c.marksRead
    ensures Next(g, START, First([a])).recorded == {a} && Next(g, START, First([a])).marks == []
    ensures Targets(g, Next(g, START, First([a])), c) == if c.knownRead then {} else {a}
  {
  }

  /** The key is lost, and clearing the record and the retry fail. */
  lemma UnclearedForgotten(g: Group, a: Device)
    requires !g.excluded(a)
    ensures Forgets(g, [Send(First([a])), Send(Lost([a]).(clearWritten := false, retryPrepared := false))], a)
  {
    var c := Lost([a]).(clearWritten := false, retryPrepared := false);
    SecondListsNobody(g, a, c);
    AfterTwo(g, START, Send(First([a])), Send(c));
  }

  /**
   After the sender key is lost and remade the record is empty, so the next send is neither
   selective nor forced: it carries the key for nobody and records everybody, a device that
   joined in between included.
   */
  lemma NewcomerForgotten(g: Group, a: Device, b: Device)
    requires a != b && !g.excluded(b)
    ensures Forgets(g, [Send(First([a])), Send(Lost([a])), Send(Usual([a, b]))], b)
  {
    SecondListsNobody(g, a, Lost([a]));
    AfterThree(g, START, Send(First([a])), Send(Lost([a])), Send(Usual([a, b])));
  }

  /** A device asks for a fresh key, the next send fails, and the one after that carries nothing. */
  lemma MarkForgotten(g: Group, a: Device)
    ensures var events := [Send(First([a])), Mark(a), Send(Usual([a]).(preparation := FailedBeforeKey))];
      && PossibleRun(g, START, events)
      && a !in After(g, START, events).marks
      && Carried(g, After(g, START, events), Usual([a])) == {}
  {
    var c := Usual([a]).(preparation := FailedBeforeKey);
    SecondListsNobody(g, a, Usual([a]));
    AfterThree(g, START, Send(First([a])), Mark(a), Send(c));
  }
}
