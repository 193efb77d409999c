/**
 The dirty-flag saver: callers modify the device under a write lock and set a flag, one background
 task swaps the flag, copies the device under the read lock and writes the copy out. Each atomic
 section of the source is one event; a write to the backend may fail.
 */
module PersistenceManager {
  import opened Bytes
  import opened Histories

  /** The modification in progress: device changed, flag set, saver notified; the lock is held. */
  datatype Writer = NoWriter | Modified | Marked | Notified

  /** The saver: waiting, about to swap the flag, flag swapped, holding a copy. */
  datatype Saver<D> = Waiting | Woken | WillRead | Copied(version: nat, data: D)

  /**
   `history[v]` is the device after `v` modifications, the last one being the device in memory.
   `completed` is the version of the last modification whose call has returned, `saved` the
   version on disk, `permit` the stored notification, `failed` whether a failed write has
   lost the last modification, the flag not having been set again by then or since.
   */
  datatype State<D> = State(
    history: seq<D>,
    completed: nat,
    writer: Writer,
    dirty: bool,
    permit: bool,
    saver: Saver<D>,
    saved: nat,
    disk: D,
    failed: bool)

  datatype Event<D> =
    | Modify(device: D)
    | MarkDirty
    | NotifyOne
    | Unlock
    | TakePermit
    | Tick
    | Swap
    | ReadDevice
    | WriteOut
    | WriteFails

  function Init<D>(d: D): State<D> {
    State([d], 0, NoWriter, false, false, Waiting, 0, d, false)
  }

  function Version<D>(s: State<D>): int {
    |s.history| - 1
  }

  predicate Enabled<D>(s: State<D>, e: Event<D>) {
    match e
    case Modify(_) => s.writer.NoWriter?
    case MarkDirty => s.writer.Modified?
    case NotifyOne => s.writer.Marked?
    case Unlock => s.writer.Notified? && s.history != []
    case TakePermit => s.saver.Waiting? && s.permit
    case Tick => s.saver.Waiting?
    case Swap => s.saver.Woken?
    case ReadDevice => s.saver.WillRead? && s.writer.NoWriter? && s.history != []
    case WriteOut => s.saver.Copied?
    case WriteFails => s.saver.Copied?
  }

  function Step<D>(s: State<D>, e: Event<D>): State<D>
    requires Enabled(s, e)
  {
    match e
    case Modify(d) => s.(history := s.history + [d], writer := Modified)
    case MarkDirty => s.(dirty := true, writer := Marked, failed := false)
    case NotifyOne => s.(permit := true, writer := Notified)
    case Unlock => s.(writer := NoWriter, completed := |s.history| - 1)
    case TakePermit => s.(saver := Woken, permit := false)
    case Tick => s.(saver := Woken)
    case Swap => if s.dirty then s.(dirty := false, saver := WillRead) else s.(saver := Waiting)
    case ReadDevice => s.(saver := Copied(|s.history| - 1, s.history[|s.history| - 1]))
    case WriteOut => s.(saver := Waiting, saved := s.saver.version, disk := s.saver.data)
    case WriteFails => s.(saver := Waiting, failed := s.failed || (!s.dirty && s.saver.version != s.saved))
  }

  predicate Run<D(==)>(s: State<D>, events: seq<Event<D>>, t: State<D>)
    decreases |events|
  {
    if events == [] then s == t
    else Enabled(s, events[0]) && Run(Step(s, events[0]), events[1..], t)
  }

  // ----- the invariant -----

  /** Versions only move forward, and what is on disk or in the saver's hands is a past device. */
  predicate VersionsOk<D(==)>(s: State<D>) {
    && s.saved <= s.completed <= Version(s)
    && s.completed == (if s.writer.NoWriter? then Version(s) else Version(s) - 1)
    && s.disk == s.history[s.saved]
    && (s.saver.Copied? ==> s.saved <= s.saver.version <= s.completed && s.saver.data == s.history[s.saver.version])
  }

  /** The saver has the latest completed version, will read it, or will be told to. */
  predicate OnItsWay<D>(s: State<D>) {
    s.dirty || s.saver.WillRead? || (s.saver.Copied? && s.saver.version == s.completed)
  }

  predicate NotLost<D>(s: State<D>) {
    && (s.failed <==> s.saved != s.completed && !OnItsWay(s))
    && (s.saver.Copied? && !s.dirty && (s.writer.NoWriter? || s.writer.Modified?) ==> s.saver.version == s.completed)
    && (s.writer.Marked? || s.writer.Notified? ==> s.dirty || s.saver.WillRead?)
  }

  /** While the flag is set a notification is stored, used up, or about to be given. */
  predicate NotAsleep<D>(s: State<D>) {
    s.dirty ==> s.permit || s.saver.Woken? || s.writer.Marked?
  }

  predicate Inv<D(==)>(s: State<D>) {
    VersionsOk(s) && NotLost(s) && NotAsleep(s)
  }

  lemma InitInv<D>(d: D)
    ensures Inv(Init(d))
  {
  }

  lemma StepInv<D>(s: State<D>, e: Event<D>)
    requires Inv(s) && Enabled(s, e)
    ensures Inv(Step(s, e))
  {
  }

  lemma {:induction false} RunInv<D>(s: State<D>, events: seq<Event<D>>, t: State<D>)
    requires Inv(s) && Run(s, events, t)
    ensures Inv(t)
    decreases |events|
  {
    if events == [] {
    } else {
      StepInv(s, events[0]);
      RunInv(Step(s, events[0]), events[1..], t);
    }
  }

  /**
   What is on disk is the device after some number of modifications, whatever the interleaving.
   Unless that is the latest completed one, the saver has it in hand, is about to read it, or
   the flag that sends it there is set; and the one way out of this is a write that fails with
   the flag clear, until the flag is set again.
   */
  lemma NothingLost<D>(d: D, events: seq<Event<D>>, t: State<D>)
    requires Run(Init(d), events, t)
    ensures 0 <= t.saved <= t.completed < |t.history| && t.disk == t.history[t.saved]
    ensures t.failed <==> t.saved != t.completed && !OnItsWay(t)
  {
    InitInv(d);
    RunInv(Init(d), events, t);
  }

  /** A saver that waits with the flag set, outside a modification, has a notification stored. */
  lemma NeverWaitsForTimer<D>(d: D, events: seq<Event<D>>, t: State<D>)
    requires Run(Init(d), events, t) && t.saver.Waiting? && t.writer.NoWriter?
    ensures t.permit || t.saved == t.completed || t.failed
  {
    InitInv(d);
    RunInv(Init(d), events, t);
  }

  lemma StepMonotone<D>(s: State<D>, e: Event<D>)
    requires Inv(s) && Enabled(s, e)
    ensures s.saved <= Step(s, e).saved && s.completed <= Step(s, e).completed
    ensures s.history <= Step(s, e).history
  {
  }

  lemma {:induction false} RunMonotone<D>(s: State<D>, events: seq<Event<D>>, t: State<D>)
    requires Inv(s) && Run(s, events, t)
    ensures s.saved <= t.saved && s.completed <= t.completed && s.history <= t.history
    decreases |events|
  {
    if events == [] {
    } else {
      StepInv(s, events[0]);
      StepMonotone(s, events[0]);
      RunMonotone(Step(s, events[0]), events[1..], t);
    }
  }

  /** Saved versions never go backwards between any two moments of a run. */
  lemma SavesGoForward<D>(d: D, before: seq<Event<D>>, s: State<D>, after: seq<Event<D>>, t: State<D>)
    requires Run(Init(d), before, s) && Run(s, after, t)
    ensures s.saved <= t.saved && s.history <= t.history
  {
    InitInv(d);
    RunInv(Init(d), before, s);
    RunMonotone(s, after, t);
  }

  // ----- catching up -----

  /** The saver's own moves, timer included, with writes that succeed. */
  predicate SaverEvent<D>(e: Event<D>) {
    e.TakePermit? || e.Tick? || e.Swap? || e.ReadDevice? || e.WriteOut?
  }

  /** How far the saver is from having written the latest completed version. */
  function Distance<D>(s: State<D>): nat {
    if s.saved == s.completed then 0
    else
      match s.saver
      case Copied(v, _) => if v == s.completed then 1 else 5
      case WillRead => 2
      case Woken => 3
      case Waiting => 4
  }

  /** Every move of the saver brings it closer. */
  lemma StepCloser<D>(s: State<D>, e: Event<D>)
    requires Inv(s) && s.writer.NoWriter? && !s.failed && SaverEvent(e) && Enabled(s, e)
    ensures Distance(Step(s, e)) < Distance(s) || Distance(Step(s, e)) == Distance(s) == 0
    ensures Step(s, e).writer.NoWriter? && !Step(s, e).failed && Step(s, e).history == s.history
  {
  }

  /** Before it is there, it can move without waiting for the timer. */
  lemma CanMove<D>(s: State<D>) returns (e: Event<D>)
    requires Inv(s) && s.writer.NoWriter? && !s.failed && s.saved != s.completed
    ensures SaverEvent(e) && !e.Tick? && Enabled(s, e)
  {
    e := match s.saver
      case Copied(_, _) => WriteOut
      case WillRead => ReadDevice
      case Woken => Swap
      case Waiting => TakePermit;
  }

  /**
   Once modifications stop, any five moves of the saver, in whatever order and with or without
   the timer, write the latest one out.
   */
  lemma {:induction false} CatchesUp<D>(s: State<D>, events: seq<Event<D>>, t: State<D>)
    requires Inv(s) && s.writer.NoWriter? && !s.failed && Run(s, events, t)
    requires forall e :: e in events ==> SaverEvent(e)
    ensures Distance(s) <= 5 && (Distance(t) == 0 || Distance(t) + |events| <= Distance(s))
    ensures |events| >= 5 ==> t.saved == t.completed == s.completed && t.disk == s.history[|s.history| - 1]
    decreases |events|
  {
    RunInv(s, events, t);
    if events == [] {
    } else {
      assert events[0] in events;
      StepInv(s, events[0]);
      StepCloser(s, events[0]);
      CatchesUp(Step(s, events[0]), events[1..], t);
      KeepsVersions(s, events, t);
    }
  }

  lemma {:induction false} KeepsVersions<D>(s: State<D>, events: seq<Event<D>>, t: State<D>)
    requires Inv(s) && Run(s, events, t) && forall e :: e in events ==> SaverEvent(e)
    ensures t.history == s.history && t.completed == s.completed && t.writer == s.writer
    decreases |events|
  {
    if events == [] {
    } else {
      assert events[0] in events;
      StepInv(s, events[0]);
      KeepsVersions(Step(s, events[0]), events[1..], t);
    }
  }

  /** Such moves exist, without the timer, until the latest modification is on disk. */
  lemma {:induction false} CatchUp<D>(s: State<D>) returns (events: seq<Event<D>>, t: State<D>)
    requires Inv(s) && s.writer.NoWriter? && !s.failed
    ensures Run(s, events, t) && forall e :: e in events ==> SaverEvent(e) && !e.Tick?
    ensures t.saved == t.completed == s.completed && t.disk == s.history[|s.history| - 1]
    decreases Distance(s)
  {
    if s.saved == s.completed {
      events, t := [], s;
    } else {
      var e := CanMove(s);
      StepInv(s, e);
      StepCloser(s, e);
      var rest;
      rest, t := CatchUp(Step(s, e));
      RunCons(s, e, rest, t);
      events := [e] + rest;
    }
  }

  // ----- after a failed write -----

  /** The latest modification is not on disk and nothing will bring it there. */
  predicate Stranded<D>(s: State<D>) {
    s.saved != s.completed && s.writer.NoWriter? && !s.dirty && (s.saver.Waiting? || s.saver.Woken?)
  }

  /** In every reachable state, that is so exactly when a failed write has lost it. */
  lemma StrandedExactly<D>(d: D, events: seq<Event<D>>, t: State<D>)
    requires Run(Init(d), events, t)
    ensures Stranded(t) <==> t.failed && t.writer.NoWriter?
  {
    InitInv(d);
    RunInv(Init(d), events, t);
  }

  /** A failed write strands what it carried, exactly when no later modification set the flag. */
  lemma FailureStrands<D>(s: State<D>)
    requires Inv(s) && s.saver.Copied? && s.writer.NoWriter? && s.saved != s.completed
    ensures Stranded(Step(s, WriteFails)) <==> !s.dirty
  {
  }

  /** A run to such a state: one modification whose write fails. */
  lemma FailedWriteLosesIt<D>(d: D, d2: D) returns (events: seq<Event<D>>, t: State<D>)
    ensures Run(Init(d), events, t) && Stranded(t) && t.disk == d && t.history == [d, d2]
  {
    var s0 := Init(d);
    var s1 := Step(s0, Modify(d2));
    var s2 := Step(s1, MarkDirty);
    var s3 := Step(s2, NotifyOne);
    var s4 := Step(s3, Unlock);
    var s5 := Step(s4, TakePermit);
    var s6 := Step(s5, Swap);
    var s7 := Step(s6, ReadDevice);
    t := Step(s7, WriteFails);
    events := [];
    RunCons(s7, WriteFails, events, t);
    events := [WriteFails] + events;
    RunCons(s6, ReadDevice, events, t);
    events := [ReadDevice] + events;
    RunCons(s5, Swap, events, t);
    events := [Swap] + events;
    RunCons(s4, TakePermit, events, t);
    events := [TakePermit] + events;
    RunCons(s3, Unlock, events, t);
    events := [Unlock] + events;
    RunCons(s2, NotifyOne, events, t);
    events := [NotifyOne] + events;
    RunCons(s1, MarkDirty, events, t);
    events := [MarkDirty] + events;
    RunCons(s0, Modify(d2), events, t);
    events := [Modify(d2)] + events;
  }

  /** Nothing the saver does by itself, on the timer or not, helps a stranded modification. */
  lemma {:induction false} StrandedStays<D>(s: State<D>, events: seq<Event<D>>, t: State<D>)
    requires Inv(s) && Stranded(s) && Run(s, events, t)
    requires forall e :: e in events ==> !e.Modify?
    ensures Stranded(t) && t.saved == s.saved && t.disk == s.disk
    decreases |events|
  {
    if events == [] {
    } else {
      assert events[0] in events;
      StepInv(s, events[0]);
      StrandedStays(Step(s, events[0]), events[1..], t);
    }
  }

  /** The next completed modification brings everything to disk again, if its write succeeds. */
  lemma NextModificationRescues<D>(s: State<D>, d: D) returns (events: seq<Event<D>>, t: State<D>)
    requires Inv(s) && s.writer.NoWriter?
    ensures Run(s, [Modify(d), MarkDirty, NotifyOne, Unlock] + events, t)
    ensures t.saved == t.completed == |s.history| && t.disk == d
  {
    var m: Event<D> := Modify(d);
    var a := Step(s, m);
    var b := Step(a, MarkDirty);
    var c := Step(b, NotifyOne);
    var u := Step(c, Unlock);
    StepInv(s, m);
    StepInv(a, MarkDirty);
    StepInv(b, NotifyOne);
    StepInv(c, Unlock);
    events, t := CatchUp(u);
    RunCons(c, Unlock, events, t);
    RunCons(b, NotifyOne, [Unlock] + events, t);
    RunCons(a, MarkDirty, [NotifyOne] + ([Unlock] + events), t);
    RunCons(s, m, [MarkDirty] + ([NotifyOne] + ([Unlock] + events)), t);
    assert [m, MarkDirty, NotifyOne, Unlock] + events
        == [m] + ([MarkDirty] + ([NotifyOne] + ([Unlock] + events)));
  }

  lemma RunCons<D>(s: State<D>, e: Event<D>, events: seq<Event<D>>, t: State<D>)
    requires Enabled(s, e) && Run(Step(s, e), events, t)
    ensures Run(s, [e] + events, t)
  {
    assert ([e] + events)[1..] == events;
  }

  // ----- the flags and the versions as a history -----

  predicate IsNotify<D>(e: Event<D>) {
    e.NotifyOne?
  }

  predicate IsTakePermit<D>(e: Event<D>) {
    e.TakePermit?
  }

  predicate IsMark<D>(e: Event<D>) {
    e.MarkDirty?
  }

  predicate IsSwap<D>(e: Event<D>) {
    e.Swap?
  }

  predicate IsWake<D>(e: Event<D>) {
    e.TakePermit? || e.Tick?
  }

  predicate IsRead<D>(e: Event<D>) {
    e.ReadDevice?
  }

  predicate IsWrite<D>(e: Event<D>) {
    e.WriteOut? || e.WriteFails?
  }

  predicate IsModify<D>(e: Event<D>) {
    e.Modify?
  }

  predicate IsUnlock<D>(e: Event<D>) {
    e.Unlock?
  }

  ghost predicate Told<D>(s: State<D>, past: seq<Event<D>>) {
    && (s.permit <==> Since(IsNotify, IsTakePermit, past))
    && (s.dirty <==> Since(IsMark, IsSwap, past))
    && (s.saver.Woken? <==> Since(IsWake, IsSwap, past))
    && (s.saver.Copied? <==> Since(IsRead, IsWrite, past))
    && (s.saver.WillRead? ==> Since(IsSwap, IsRead, past))
    && |s.history| == 1 + Count(IsModify, past)
    && s.completed == Count(IsUnlock, past)
  }

  lemma StepTold<D>(s: State<D>, past: seq<Event<D>>, e: Event<D>)
    requires Inv(s) && Enabled(s, e) && Told(s, past)
    ensures Told(Step(s, e), past + [e])
  {
    SinceSnoc(IsNotify, IsTakePermit, past, e);
    SinceSnoc(IsMark, IsSwap, past, e);
    SinceSnoc(IsWake, IsSwap, past, e);
    SinceSnoc(IsRead, IsWrite, past, e);
    SinceSnoc(IsSwap, IsRead, past, e);
    CountSnoc(IsModify, past, e);
    CountSnoc(IsUnlock, past, e);
  }

  lemma {:induction false} RunTold<D>(s: State<D>, past: seq<Event<D>>, events: seq<Event<D>>, t: State<D>)
    requires Inv(s) && Told(s, past) && Run(s, events, t)
    ensures Told(t, past + events)
    decreases |events|
  {
    if events == [] {
      Nil(past);
    } else {
      StepInv(s, events[0]);
      StepTold(s, past, events[0]);
      RunTold(Step(s, events[0]), past + [events[0]], events[1..], t);
      Cons(events);
      Assoc(past, [events[0]], events[1..]);
    }
  }

  /**
   In every run: a notification is stored exactly when one was given and not taken since, the
   flag is set exactly when it was set and not swapped since, the saver is awake exactly from its
   waking to the swap and holds a copy exactly from the read to the write, and the versions count
   the modifications made and completed.
   */
  lemma FlagsMeaning<D>(d: D, events: seq<Event<D>>, t: State<D>)
    requires Run(Init(d), events, t)
    ensures t.permit <==> Since(IsNotify, IsTakePermit, events)
    ensures t.dirty <==> Since(IsMark, IsSwap, events)
    ensures t.saver.Woken? <==> Since(IsWake, IsSwap, events)
    ensures t.saver.Copied? <==> Since(IsRead, IsWrite, events)
    ensures t.saver.WillRead? ==> Since(IsSwap, IsRead, events)
    ensures |t.history| == 1 + Count(IsModify, events) && t.completed == Count(IsUnlock, events)
  {
    InitInv(d);
    RunTold(Init(d), [], events, t);
    Nil(events);
  }

  /** Without new notifications the saver is woken by one at most once, and then waits without one. */
  lemma {:induction false} SettlesDown<D>(s: State<D>, events: seq<Event<D>>, t: State<D>)
    requires Run(s, events, t) && forall e <- events :: !e.NotifyOne?
    ensures Count(IsTakePermit, events) <= 1
    ensures (Count(IsTakePermit, events) == 1 ==> s.permit && !t.permit) && (t.permit ==> s.permit)
    decreases |events|
  {
    if events == [] {
    } else {
      assert events[0] in events;
      SettlesDown(Step(s, events[0]), events[1..], t);
      CountCons(IsTakePermit, events[0], events[1..]);
      Cons(events);
    }
  }
}
