/**
 Request ids and the table of response waiters. Requests register a one-shot sender under their
 id, send, and wait; responses and acks take the sender out of the table and fill it; failures
 and timeouts take it out and drop it. Each atomic section of the source is one event, over any
 number of concurrent requests.
 */
module Request {
  import opened Bytes
  import opened Text

  const U64: nat := 0x1_0000_0000_0000_0000

  // ----- ids -----

  function IdOf(uniqueId: string, count: nat): string {
    uniqueId + "-" + Decimal(count)
  }

  /** One client never issues the same id for two different counts. */
  lemma IdInjective(uniqueId: string, a: nat, b: nat)
    requires IdOf(uniqueId, a) == IdOf(uniqueId, b)
    ensures a == b
  {
    SplitSum(uniqueId + "-", Decimal(a));
    SplitSum(uniqueId + "-", Decimal(b));
    DecimalInjective(a, b);
  }

  class RequestUtils {
    const uniqueId: string
    var idCounter: nat

    constructor (uniqueId: string)
      ensures this.uniqueId == uniqueId && idCounter == 0
    {
      this.uniqueId := uniqueId;
      idCounter := 0;
    }

    method GenerateRequestId() returns (id: string)
      requires idCounter < U64
      modifies this
      ensures id == uniqueId + "-" + Decimal(old(idCounter)) == IdOf(uniqueId, old(idCounter))
      ensures idCounter == (old(idCounter) + 1) % 0x1_0000_0000_0000_0000
    {
      var count := idCounter;
      idCounter := (idCounter + 1) % U64;
      id := uniqueId + "-" + Decimal(count);
    }
  }

  // ----- the protocol -----

  /** A response or ack; `body` stands for everything but its id. */
  datatype Stanza = Stanza(id: Option<string>, body: nat)

  datatype Outcome = Answered(stanza: Stanza) | SendError | TimedOut | InternalChannelClosed

  /**
   `Named` is the moment between choosing the id and registering the waiter, `SendFailed` and
   `Elapsed` the moments before the waiter is removed.
   */
  datatype Phase = Named | Sending | Waiting | SendFailed | Elapsed | Finished(outcome: Outcome)

  /** The receiving half of the request's channel; `Closed` when its sender was dropped unused. */
  datatype Slot = Empty | Filled(stanza: Stanza) | Closed

  datatype Req = Req(id: string, phase: Phase, slot: Slot)

  /** `waiters` maps an id to the request whose sender is registered under it. */
  datatype State = State(uniqueId: string, counter: nat, waiters: map<string, nat>, reqs: seq<Req>)

  datatype Event =
    | Start(id: Option<string>)
    | Register(r: nat)
    | SendOk(r: nat)
    | SendErr(r: nat)
    | Respond(stanza: Stanza)
    | Receive(r: nat)
    | Elapse(r: nat)
    | Remove(r: nat)

  function Init(uniqueId: string): State {
    State(uniqueId, 0, map[], [])
  }

  predicate Live(s: State, r: nat) {
    r < |s.reqs| && !s.reqs[r].phase.Finished?
  }

  predicate InPhase(s: State, r: nat, p: Phase) {
    r < |s.reqs| && s.reqs[r].phase == p
  }

  predicate Enabled(s: State, e: Event) {
    match e
    case Start(_) => true
    case Register(r) => InPhase(s, r, Named)
    case SendOk(r) => InPhase(s, r, Sending)
    case SendErr(r) => InPhase(s, r, Sending)
    case Respond(_) => true
    case Receive(r) => InPhase(s, r, Waiting) && !s.reqs[r].slot.Empty?
    case Elapse(r) => InPhase(s, r, Waiting) && s.reqs[r].slot.Empty?
    case Remove(r) => InPhase(s, r, SendFailed) || InPhase(s, r, Elapsed)
  }

  /** The id a request is started under: the caller's, or the next one of the generator. */
  function StartId(s: State, id: Option<string>): string {
    if id.Some? then id.value else IdOf(s.uniqueId, s.counter)
  }

  /** Takes the sender registered under `id` out of the table and drops it. */
  function DropSender(s: State, id: string): State {
    if id !in s.waiters then s
    else
      var o := s.waiters[id];
      var s1 := s.(waiters := s.waiters - {id});
      if o < |s.reqs| && s.reqs[o].slot.Empty?
      then s1.(reqs := s.reqs[o := s.reqs[o].(slot := Closed)])
      else s1
  }

  function SetPhase(s: State, r: nat, p: Phase): State
    requires r < |s.reqs|
  {
    s.(reqs := s.reqs[r := s.reqs[r].(phase := p)])
  }

  function StartStep(s: State, id: Option<string>): State {
    s.(counter := if id.Some? then s.counter else (s.counter + 1) % U64,
       reqs := s.reqs + [Req(StartId(s, id), Named, Empty)])
  }

  /** Registers the request's sender; one that was registered under the same id is dropped. */
  function RegisterStep(s: State, r: nat): State
    requires r < |s.reqs|
  {
    var id := s.reqs[r].id;
    var s1 := DropSender(SetPhase(s, r, Sending), id);
    s1.(waiters := s1.waiters[id := r])
  }

  /** Hands the stanza to the registered request, if there is one. */
  function RespondStep(s: State, stanza: Stanza): State {
    if stanza.id.None? || stanza.id.value !in s.waiters then s
    else
      var o := s.waiters[stanza.id.value];
      var s1 := s.(waiters := s.waiters - {stanza.id.value});
      if o < |s.reqs| && s.reqs[o].slot.Empty?
      then s1.(reqs := s.reqs[o := s.reqs[o].(slot := Filled(stanza))])
      else s1
  }

  function RemoveStep(s: State, r: nat): (t: State)
    requires r < |s.reqs|
  {
    var outcome := if s.reqs[r].phase.SendFailed? then SendError else TimedOut;
    var s1 := SetPhase(s, r, Finished(outcome));
    DropSender(s1, s.reqs[r].id)
  }

  function Step(s: State, e: Event): State
    requires Enabled(s, e)
  {
    match e
    case Start(id) => StartStep(s, id)
    case Register(r) => RegisterStep(s, r)
    case SendOk(r) => SetPhase(s, r, Waiting)
    case SendErr(r) => SetPhase(s, r, SendFailed)
    case Respond(stanza) => RespondStep(s, stanza)
    case Receive(r) =>
      SetPhase(s, r, Finished(if s.reqs[r].slot.Filled? then Answered(s.reqs[r].slot.stanza) else InternalChannelClosed))
    case Elapse(r) => SetPhase(s, r, Elapsed)
    case Remove(r) => RemoveStep(s, r)
  }

  ghost predicate Run(s: State, events: seq<Event>, t: State)
    decreases |events|
  {
    if events == [] then s == t
    else Enabled(s, events[0]) && Run(Step(s, events[0]), events[1..], t)
  }

  // ----- what holds for any ids -----

  /** The sender has been registered, and the request goes on. */
  predicate Going(s: State, r: nat) {
    Live(s, r) && !s.reqs[r].phase.Named?
  }

  /** A registered sender belongs to a going, unanswered request with that id; others have not been answered. */
  ghost predicate WaitersOk(s: State) {
    && (forall id :: id in s.waiters ==>
          var o := s.waiters[id];
          Going(s, o) && s.reqs[o].id == id && s.reqs[o].slot.Empty?)
    && (forall r :: 0 <= r < |s.reqs| && s.reqs[r].phase.Named? ==> s.reqs[r].slot.Empty?)
  }

  predicate AnswerOk(q: Req) {
    && (q.slot.Filled? ==> q.slot.stanza.id == Some(q.id))
    && (q.phase.Finished? && q.phase.outcome.Answered? ==> q.phase.outcome.stanza.id == Some(q.id))
  }

  ghost predicate AnswersOk(s: State) {
    forall r :: 0 <= r < |s.reqs| ==> AnswerOk(s.reqs[r])
  }

  /** The sender of a going, unanswered request is in the table, under the request's own id. */
  ghost predicate EmptyRegistered(s: State) {
    forall r: nat :: Going(s, r) && s.reqs[r].slot.Empty? ==>
      s.reqs[r].id in s.waiters && s.waiters[s.reqs[r].id] == r
  }

  predicate SharesId(s: State, r: nat) {
    r < |s.reqs| && exists q :: 0 <= q < |s.reqs| && q != r && s.reqs[q].id == s.reqs[r].id
  }

  /** The channel of request `r` closed before the request ended. */
  predicate LostSender(s: State, r: nat) {
    r < |s.reqs| &&
    ((Live(s, r) && s.reqs[r].slot.Closed?) || s.reqs[r].phase == Finished(InternalChannelClosed))
  }

  ghost predicate ClosedOk(s: State) {
    forall r: nat :: LostSender(s, r) ==> SharesId(s, r)
  }

  ghost predicate Inv(s: State) {
    WaitersOk(s) && AnswersOk(s) && EmptyRegistered(s) && ClosedOk(s)
  }

  lemma WaitersRegister(s: State, r: nat)
    requires WaitersOk(s) && InPhase(s, r, Named)
    ensures WaitersOk(RegisterStep(s, r))
  {
  }

  lemma WaitersRemove(s: State, r: nat)
    requires WaitersOk(s) && Live(s, r) && !InPhase(s, r, Named)
    ensures WaitersOk(RemoveStep(s, r))
  {
  }

  lemma WaitersRespond(s: State, stanza: Stanza)
    requires WaitersOk(s)
    ensures WaitersOk(RespondStep(s, stanza))
  {
  }

  lemma StepWaiters(s: State, e: Event)
    requires WaitersOk(s) && Enabled(s, e)
    ensures WaitersOk(Step(s, e))
  {
    match e
    case Register(r) => WaitersRegister(s, r);
    case Remove(r) => WaitersRemove(s, r);
    case Respond(stanza) => WaitersRespond(s, stanza);
    case _ =>
  }

  lemma StepAnswers(s: State, e: Event)
    requires Inv(s) && Enabled(s, e)
    ensures AnswersOk(Step(s, e))
  {
  }

  lemma EmptyRegister(s: State, r: nat)
    requires WaitersOk(s) && EmptyRegistered(s) && InPhase(s, r, Named)
    ensures EmptyRegistered(RegisterStep(s, r))
  {
  }

  lemma EmptyRemove(s: State, r: nat)
    requires WaitersOk(s) && EmptyRegistered(s) && Going(s, r)
    ensures EmptyRegistered(RemoveStep(s, r))
  {
  }

  lemma EmptyRespond(s: State, stanza: Stanza)
    requires WaitersOk(s) && EmptyRegistered(s)
    ensures EmptyRegistered(RespondStep(s, stanza))
  {
  }

  lemma StepEmptyRegistered(s: State, e: Event)
    requires WaitersOk(s) && EmptyRegistered(s) && Enabled(s, e)
    ensures EmptyRegistered(Step(s, e))
  {
    match e
    case Register(r) => EmptyRegister(s, r);
    case Remove(r) => EmptyRemove(s, r);
    case Respond(stanza) => EmptyRespond(s, stanza);
    case _ =>
  }

  lemma SharesIdStays(s: State, e: Event, r: nat)
    requires WaitersOk(s) && Enabled(s, e) && SharesId(s, r)
    ensures SharesId(Step(s, e), r)
  {
    var q :| 0 <= q < |s.reqs| && q != r && s.reqs[q].id == s.reqs[r].id;
    StepFinished(s, e, r);
    StepFinished(s, e, q);
    assert Step(s, e).reqs[q].id == Step(s, e).reqs[r].id;
  }

  /** The request that takes the sender of `r` away has the same id. */
  lemma LosesToShared(s: State, e: Event, r: nat)
    requires WaitersOk(s) && Enabled(s, e) && !LostSender(s, r) && LostSender(Step(s, e), r)
    ensures SharesId(Step(s, e), r)
  {
    var t := Step(s, e);
    match e
    case Register(q) => assert q != r && t.reqs[q].id == t.reqs[r].id;
    case Remove(q) => assert q != r && t.reqs[q].id == t.reqs[r].id;
    case _ =>
  }

  lemma StepClosed(s: State, e: Event)
    requires Inv(s) && Enabled(s, e)
    ensures ClosedOk(Step(s, e))
  {
    forall r: nat | LostSender(Step(s, e), r) ensures SharesId(Step(s, e), r) {
      if LostSender(s, r) {
        SharesIdStays(s, e, r);
      } else {
        LosesToShared(s, e, r);
      }
    }
  }

  lemma StepInv(s: State, e: Event)
    requires Inv(s) && Enabled(s, e)
    ensures Inv(Step(s, e))
  {
    StepWaiters(s, e);
    StepAnswers(s, e);
    StepEmptyRegistered(s, e);
    StepClosed(s, e);
  }

  lemma {:induction false} RunInv(s: State, events: seq<Event>, t: State)
    requires Inv(s) && Run(s, events, t)
    ensures Inv(t)
    decreases |events|
  {
    if events == [] {
    } else {
      StepInv(s, events[0]);
      RunInv(Step(s, events[0]), events[1..], t);
    }
  }

  /** Whatever the ids: an answer carries the id of the request it answers. */
  lemma AnsweredByOwnId(u: string, events: seq<Event>, t: State, r: nat)
    requires Run(Init(u), events, t) && r < |t.reqs|
    requires t.reqs[r].phase.Finished? && t.reqs[r].phase.outcome.Answered?
    ensures t.reqs[r].phase.outcome.stanza.id == Some(t.reqs[r].id)
  {
    RunInv(Init(u), events, t);
  }

  /** Whatever the ids: a finished request has no waiter in the table. */
  lemma FinishedLeavesNoWaiter(u: string, events: seq<Event>, t: State, id: string)
    requires Run(Init(u), events, t) && id in t.waiters
    ensures Live(t, t.waiters[id]) && t.reqs[t.waiters[id]].id == id
  {
    RunInv(Init(u), events, t);
  }

  lemma StepFinished(s: State, e: Event, r: nat)
    requires WaitersOk(s) && Enabled(s, e) && r < |s.reqs|
    ensures |Step(s, e).reqs| >= |s.reqs| && Step(s, e).reqs[r].id == s.reqs[r].id
    ensures s.reqs[r].phase.Finished? ==> Step(s, e).reqs[r] == s.reqs[r]
  {
  }

  /** A request finishes once: its outcome never changes afterwards, in any run. */
  lemma {:induction false} FinishesOnce(s: State, events: seq<Event>, t: State, r: nat)
    requires Inv(s) && Run(s, events, t) && r < |s.reqs| && s.reqs[r].phase.Finished?
    ensures r < |t.reqs| && t.reqs[r] == s.reqs[r]
    decreases |events|
  {
    if events == [] {
    } else {
      StepFinished(s, events[0], r);
      StepInv(s, events[0]);
      FinishesOnce(Step(s, events[0]), events[1..], t, r);
    }
  }

  /**
   Whatever the ids, in every reachable state: the channel of an unanswered request closes
   exactly when another request with its id is registered or one with its id cleans up.
   */
  lemma ClosedExactly(u: string, events: seq<Event>, s: State, e: Event, o: nat)
    requires Run(Init(u), events, s) && Enabled(s, e) && Going(s, o) && s.reqs[o].slot.Empty?
    ensures o < |Step(s, e).reqs|
    ensures Step(s, e).reqs[o].slot.Closed? <==>
      || (e.Register? && s.reqs[e.r].id == s.reqs[o].id)
      || (e.Remove? && s.reqs[e.r].id == s.reqs[o].id)
  {
    RunInv(Init(u), events, s);
    StepFinished(s, e, o);
  }

  /** Only a request that shares its id with another one ever ends by a closed channel. */
  lemma ClosedOnlyIfShared(u: string, events: seq<Event>, t: State, r: nat)
    requires Run(Init(u), events, t) && r < |t.reqs| && t.reqs[r].phase == Finished(InternalChannelClosed)
    ensures SharesId(t, r)
  {
    RunInv(Init(u), events, t);
    assert LostSender(t, r);
  }

  lemma RunCons(s: State, e: Event, events: seq<Event>, t: State)
    requires Enabled(s, e) && Run(Step(s, e), events, t)
    ensures Run(s, [e] + events, t)
  {
    assert ([e] + events)[1..] == events;
  }

  /** With an id of its own choosing a caller can close another request's channel. */
  lemma SharedIdCloses(u: string, id: string) returns (events: seq<Event>, t: State)
    ensures Run(Init(u), events, t) && |t.reqs| == 2
    ensures t.reqs[0].phase == Finished(InternalChannelClosed)
  {
    var s0 := Init(u);
    var s1 := Step(s0, Start(Some(id)));
    var s2 := Step(s1, Register(0));
    var s3 := Step(s2, Start(Some(id)));
    var s4 := Step(s3, Register(1));
    assert s4.reqs == [Req(id, Sending, Closed), Req(id, Sending, Empty)];
    var s5 := Step(s4, SendOk(0));
    t := Step(s5, Receive(0));
    RunCons(s5, Receive(0), [], t);
    events := [Receive(0)] + [];
    RunCons(s4, SendOk(0), events, t);
    events := [SendOk(0)] + events;
    RunCons(s3, Register(1), events, t);
    events := [Register(1)] + events;
    RunCons(s2, Start(Some(id)), events, t);
    events := [Start(Some(id))] + events;
    RunCons(s1, Register(0), events, t);
    events := [Register(0)] + events;
    RunCons(s0, Start(Some(id)), events, t);
    events := [Start(Some(id))] + events;
  }

  /**
   Whatever the ids, in every reachable state: a response with the id of an unanswered request
   reaches that request and no other.
   */
  lemma ResponsesArrive(u: string, events: seq<Event>, t: State, r: nat, body: nat)
    requires Run(Init(u), events, t) && Going(t, r) && t.reqs[r].slot.Empty?
    ensures var stanza := Stanza(Some(t.reqs[r].id), body);
      Step(t, Respond(stanza)).reqs == t.reqs[r := t.reqs[r].(slot := Filled(stanza))]
  {
    RunInv(Init(u), events, t);
  }

  /** A response whose id no unanswered request has changes no request. */
  lemma OthersIgnored(u: string, events: seq<Event>, t: State, stanza: Stanza)
    requires Run(Init(u), events, t)
    requires forall r: nat :: Going(t, r) && t.reqs[r].slot.Empty? ==> stanza.id != Some(t.reqs[r].id)
    ensures Step(t, Respond(stanza)).reqs == t.reqs
  {
    RunInv(Init(u), events, t);
  }

  // ----- with ids that are fresh when a request starts -----

  /** A started request does not take the id of one that is still going. */
  ghost predicate FreshStart(s: State, e: Event) {
    e.Start? ==> forall r: nat :: Live(s, r) ==> s.reqs[r].id != StartId(s, e.id)
  }

  ghost predicate FreshRun(s: State, events: seq<Event>, t: State)
    decreases |events|
  {
    if events == [] then s == t
    else
      Enabled(s, events[0]) && FreshStart(s, events[0]) && FreshRun(Step(s, events[0]), events[1..], t)
  }

  /** Unfinished requests have different ids and open channels, and none ended by a closed one. */
  ghost predicate Distinct(s: State) {
    && (forall r: nat, q: nat :: Live(s, r) && Live(s, q) && s.reqs[r].id == s.reqs[q].id ==> r == q)
    && (forall r: nat :: Live(s, r) ==> !s.reqs[r].slot.Closed?)
    && (forall r :: 0 <= r < |s.reqs| ==> s.reqs[r].phase != Finished(InternalChannelClosed))
  }

  lemma DistinctStart(s: State, id: Option<string>)
    requires WaitersOk(s) && Distinct(s) && FreshStart(s, Start(id))
    ensures Distinct(StartStep(s, id))
  {
    var t := StartStep(s, id);
    assert forall r: nat :: Live(t, r) ==> r == |s.reqs| || (Live(s, r) && t.reqs[r] == s.reqs[r]);
  }

  lemma DistinctRegister(s: State, r: nat)
    requires WaitersOk(s) && Distinct(s) && InPhase(s, r, Named)
    ensures Distinct(RegisterStep(s, r))
  {
    var t := RegisterStep(s, r);
    assert s.reqs[r].id !in s.waiters;
    assert forall q: nat :: Live(t, q) ==> Live(s, q) && t.reqs[q].id == s.reqs[q].id && t.reqs[q].slot == s.reqs[q].slot;
  }

  lemma DistinctRespond(s: State, stanza: Stanza)
    requires WaitersOk(s) && Distinct(s)
    ensures Distinct(RespondStep(s, stanza))
  {
    var t := RespondStep(s, stanza);
    assert forall r: nat :: Live(t, r) ==> Live(s, r) && t.reqs[r].id == s.reqs[r].id;
  }

  lemma DistinctRemove(s: State, r: nat)
    requires WaitersOk(s) && Distinct(s) && Live(s, r)
    ensures Distinct(RemoveStep(s, r))
  {
    var t := RemoveStep(s, r);
    assert forall q: nat :: Live(t, q) ==> q != r && Live(s, q) && t.reqs[q].id == s.reqs[q].id;
  }

  lemma DistinctPhase(s: State, r: nat, p: Phase)
    requires Distinct(s) && Live(s, r) && p != Finished(InternalChannelClosed)
    requires p.Finished? ==> !s.reqs[r].slot.Empty?
    ensures Distinct(SetPhase(s, r, p))
  {
    var t := SetPhase(s, r, p);
    assert forall q: nat :: Live(t, q) ==> Live(s, q) && t.reqs[q].id == s.reqs[q].id && t.reqs[q].slot == s.reqs[q].slot;
  }

  lemma StepDistinct(s: State, e: Event)
    requires WaitersOk(s) && Distinct(s) && Enabled(s, e) && FreshStart(s, e)
    ensures Distinct(Step(s, e))
  {
    match e
    case Start(id) => DistinctStart(s, id);
    case Register(r) => DistinctRegister(s, r);
    case Respond(stanza) => DistinctRespond(s, stanza);
    case Remove(r) => DistinctRemove(s, r);
    case SendOk(r) => DistinctPhase(s, r, Waiting);
    case SendErr(r) => DistinctPhase(s, r, SendFailed);
    case Elapse(r) => DistinctPhase(s, r, Elapsed);
    case Receive(r) =>
      assert Live(s, r) && s.reqs[r].slot.Filled?;
      DistinctPhase(s, r, Finished(Answered(s.reqs[r].slot.stanza)));
  }

  lemma {:induction false} FreshRunDistinct(s: State, events: seq<Event>, t: State)
    requires WaitersOk(s) && Distinct(s) && FreshRun(s, events, t)
    ensures WaitersOk(t) && Distinct(t)
    decreases |events|
  {
    if events == [] {
    } else {
      StepWaiters(s, events[0]);
      StepDistinct(s, events[0]);
      FreshRunDistinct(Step(s, events[0]), events[1..], t);
    }
  }

  /** With fresh ids, in every interleaving: no request ends because its channel closed. */
  lemma FreshNeverCloses(u: string, events: seq<Event>, t: State, r: nat)
    requires FreshRun(Init(u), events, t) && r < |t.reqs|
    ensures t.reqs[r].phase != Finished(InternalChannelClosed)
  {
    FreshRunDistinct(Init(u), events, t);
  }

  // ----- with ids from the generator -----

  predicate Generated(events: seq<Event>) {
    forall i :: 0 <= i < |events| && events[i].Start? ==> events[i].id.None?
  }

  /** The ids handed out so far are those of the counts 0, 1, 2, ... */
  ghost predicate Numbered(s: State) {
    && s.counter == (if |s.reqs| < U64 then |s.reqs| else 0)
    && (forall r :: 0 <= r < |s.reqs| ==> s.reqs[r].id == IdOf(s.uniqueId, r))
  }

  lemma StepNumbered(s: State, e: Event)
    requires WaitersOk(s) && Numbered(s) && Enabled(s, e)
    requires e.Start? ==> e.id.None? && |s.reqs| < U64
    ensures Numbered(Step(s, e)) && Step(s, e).uniqueId == s.uniqueId
  {
    GrowsOnce(s, e);
    StepCounter(s, e);
    forall r | 0 <= r < |s.reqs| ensures Step(s, e).reqs[r].id == s.reqs[r].id {
      StepFinished(s, e, r);
    }
  }

  lemma StepCounter(s: State, e: Event)
    requires Enabled(s, e)
    ensures Step(s, e).uniqueId == s.uniqueId
    ensures Step(s, e).counter == if e.Start? && e.id.None? then (s.counter + 1) % U64 else s.counter
    ensures e.Start? ==> |Step(s, e).reqs| == |s.reqs| + 1 && Step(s, e).reqs[|s.reqs|].id == StartId(s, e.id)
  {
  }

  lemma NumberedFresh(s: State, e: Event)
    requires Numbered(s) && |s.reqs| < U64 && (e.Start? ==> e.id.None?)
    ensures FreshStart(s, e)
  {
    if e.Start? {
      forall r: nat | Live(s, r) ensures s.reqs[r].id != StartId(s, e.id) {
        if s.reqs[r].id == StartId(s, e.id) {
          IdInjective(s.uniqueId, r, |s.reqs|);
        }
      }
    }
  }

  lemma {:induction false} GeneratedGrows(s: State, events: seq<Event>, t: State)
    requires WaitersOk(s) && Run(s, events, t)
    ensures |s.reqs| <= |t.reqs|
    decreases |events|
  {
    if events == [] {
    } else {
      StepWaiters(s, events[0]);
      GrowsOnce(s, events[0]);
      GeneratedGrows(Step(s, events[0]), events[1..], t);
    }
  }

  lemma GrowsOnce(s: State, e: Event)
    requires Enabled(s, e)
    ensures |Step(s, e).reqs| == |s.reqs| + (if e.Start? then 1 else 0)
  {
  }

  lemma {:induction false} GeneratedFresh(s: State, events: seq<Event>, t: State)
    requires WaitersOk(s) && Numbered(s) && Run(s, events, t) && Generated(events) && |t.reqs| <= U64
    ensures FreshRun(s, events, t)
    decreases |events|
  {
    if events == [] {
    } else {
      var e, next := events[0], Step(s, events[0]);
      StepWaiters(s, e);
      GrowsOnce(s, e);
      GeneratedGrows(next, events[1..], t);
      StepNumbered(s, e);
      if e.Start? {
        NumberedFresh(s, e);
      }
      assert Generated(events[1..]);
      GeneratedFresh(next, events[1..], t);
    }
  }

  /**
   A client that only uses generated ids, for up to 2^64 requests and in every interleaving of
   responses, acks, send failures and timeouts, never sees a closed channel.
   */
  lemma ChannelNeverCloses(u: string, events: seq<Event>, t: State, r: nat)
    requires Run(Init(u), events, t) && Generated(events) && |t.reqs| <= U64 && r < |t.reqs|
    ensures t.reqs[r].phase != Finished(InternalChannelClosed)
  {
    GeneratedFresh(Init(u), events, t);
    FreshRunDistinct(Init(u), events, t);
  }

  // ----- which outcome a request gets -----

  /** The request's phase and slot say which of its events have happened. */
  predicate Told(q: Req, r: nat, past: seq<Event>) {
    && (q.phase.Named? <==> Register(r) !in past)
    && (q.phase.SendFailed? || q.phase == Finished(SendError) <==> SendErr(r) in past)
    && (q.phase.Elapsed? || q.phase == Finished(TimedOut) <==> Elapse(r) in past)
    && (q.phase.Finished? && (q.phase.outcome.Answered? || q.phase.outcome.InternalChannelClosed?) <==> Receive(r) in past)
    && (q.slot.Filled? ==> Respond(q.slot.stanza) in past)
    && (q.phase.Finished? && q.phase.outcome.Answered? ==> q.slot == Filled(q.phase.outcome.stanza))
    && (q.phase == Finished(InternalChannelClosed) ==> q.slot.Closed?)
  }

  /** The request an event is about, if it is about one that exists. */
  predicate About(e: Event, r: nat) {
    e == Register(r) || e == SendErr(r) || e == Elapse(r) || e == Receive(r)
  }

  ghost predicate AllTold(s: State, past: seq<Event>) {
    && (forall r: nat :: r < |s.reqs| ==> Told(s.reqs[r], r, past))
    && (forall e <- past, r: nat :: About(e, r) ==> r < |s.reqs|)
  }

  /** What an event can do to a request that was there before. */
  predicate Changes(s: State, e: Event, r: nat, q: Req)
    requires r < |s.reqs|
  {
    var p := s.reqs[r];
    match e
    case Start(_) => q == p
    case Register(x) => if x == r then q == p.(phase := Sending) else q == p || q == p.(slot := Closed)
    case SendOk(x) => q == if x == r then p.(phase := Waiting) else p
    case SendErr(x) => q == if x == r then p.(phase := SendFailed) else p
    case Respond(stanza) => q == p || (p.slot.Empty? && q == p.(slot := Filled(stanza)))
    case Receive(x) =>
      if x != r then q == p
      else if p.slot.Filled? then q == p.(phase := Finished(Answered(p.slot.stanza)))
      else q == p.(phase := Finished(InternalChannelClosed))
    case Elapse(x) => q == if x == r then p.(phase := Elapsed) else p
    case Remove(x) =>
      && (q.slot == p.slot || (p.slot.Empty? && q.slot.Closed?))
      && q.id == p.id
      && q.phase == if x != r then p.phase else if p.phase.SendFailed? then Finished(SendError) else Finished(TimedOut)
  }

  lemma StepChanges(s: State, e: Event, r: nat)
    requires WaitersOk(s) && Enabled(s, e) && r < |s.reqs|
    ensures r < |Step(s, e).reqs| && Changes(s, e, r, Step(s, e).reqs[r])
    ensures s.reqs[r].phase.Finished? ==> Step(s, e).reqs[r] == s.reqs[r]
  {
    StepFinished(s, e, r);
  }

  lemma StepTold(s: State, past: seq<Event>, e: Event, r: nat)
    requires Inv(s) && Enabled(s, e) && r < |s.reqs| && Told(s.reqs[r], r, past)
    ensures r < |Step(s, e).reqs| && Told(Step(s, e).reqs[r], r, past + [e])
  {
    StepChanges(s, e, r);
    PhaseEnabled(s, e, r);
    ChangesTold(s, past, e, r, Step(s, e).reqs[r]);
  }

  /** An event about a request finds it in the phase before. */
  lemma PhaseEnabled(s: State, e: Event, r: nat)
    requires Enabled(s, e) && r < |s.reqs|
    ensures e == Register(r) ==> s.reqs[r].phase.Named?
    ensures e == SendOk(r) || e == SendErr(r) ==> s.reqs[r].phase.Sending?
    ensures e == Receive(r) ==> s.reqs[r].phase.Waiting? && !s.reqs[r].slot.Empty?
    ensures e == Elapse(r) ==> s.reqs[r].phase.Waiting?
    ensures e == Remove(r) ==> s.reqs[r].phase.SendFailed? || s.reqs[r].phase.Elapsed?
  {
  }

  lemma ChangesTold(s: State, past: seq<Event>, e: Event, r: nat, q: Req)
    requires r < |s.reqs| && Told(s.reqs[r], r, past) && Changes(s, e, r, q)
    requires s.reqs[r].phase.Finished? ==> q == s.reqs[r]
    requires e == Register(r) ==> s.reqs[r].phase.Named?
    requires e == SendOk(r) || e == SendErr(r) ==> s.reqs[r].phase.Sending?
    requires e == Receive(r) ==> s.reqs[r].phase.Waiting? && !s.reqs[r].slot.Empty?
    requires e == Elapse(r) ==> s.reqs[r].phase.Waiting?
    requires e == Remove(r) ==> s.reqs[r].phase.SendFailed? || s.reqs[r].phase.Elapsed?
    ensures Told(q, r, past + [e])
  {
    assert forall x :: x in past + [e] <==> x in past || x == e;
  }

  lemma NewTold(s: State, past: seq<Event>, e: Event)
    requires AllTold(s, past) && e.Start?
    ensures Told(Step(s, e).reqs[|s.reqs|], |s.reqs|, past + [e])
  {
    var r := |s.reqs|;
    assert forall x <- past :: !About(x, r);
    assert Register(r) !in past && SendErr(r) !in past && Elapse(r) !in past && Receive(r) !in past;
  }

  lemma StepAllTold(s: State, past: seq<Event>, e: Event)
    requires Inv(s) && AllTold(s, past) && Enabled(s, e)
    ensures AllTold(Step(s, e), past + [e])
  {
    var t := Step(s, e);
    GrowsOnce(s, e);
    forall r: nat | r < |t.reqs| ensures Told(t.reqs[r], r, past + [e]) {
      if r < |s.reqs| {
        StepTold(s, past, e, r);
      } else {
        NewTold(s, past, e);
      }
    }
  }

  lemma {:induction false} RunTold(s: State, past: seq<Event>, events: seq<Event>, t: State)
    requires Inv(s) && AllTold(s, past) && Run(s, events, t)
    ensures AllTold(t, past + events)
    decreases |events|
  {
    if events == [] {
      Nil(past);
    } else {
      StepInv(s, events[0]);
      StepAllTold(s, past, events[0]);
      RunTold(Step(s, events[0]), past + [events[0]], events[1..], t);
      Cons(events);
      Assoc(past, [events[0]], events[1..]);
    }
  }

  /**
   In every run, a finished request has the outcome of what happened to it: a send error exactly
   when its send failed, a timeout exactly when its time elapsed, and else it received, either a
   whole stanza that came in under its id, or the end of its channel.
   */
  lemma OutcomeExactly(u: string, events: seq<Event>, t: State, r: nat)
    requires Run(Init(u), events, t) && r < |t.reqs| && t.reqs[r].phase.Finished?
    ensures var o := t.reqs[r].phase.outcome;
      && (o == SendError <==> SendErr(r) in events)
      && (o == TimedOut <==> Elapse(r) in events)
      && (o.Answered? || o.InternalChannelClosed? <==> Receive(r) in events)
      && (o.Answered? ==> Respond(o.stanza) in events && o.stanza.id == Some(t.reqs[r].id))
  {
    RunInv(Init(u), events, t);
    RunTold(Init(u), [], events, t);
    Nil(events);
    assert Told(t.reqs[r], r, events);
    assert AnswerOk(t.reqs[r]);
  }

  lemma StepFilled(s: State, e: Event, r: nat)
    requires WaitersOk(s) && Enabled(s, e) && InPhase(s, r, Waiting) && s.reqs[r].slot.Filled?
    ensures r < |Step(s, e).reqs| && Step(s, e).reqs[r] ==
      if e == Receive(r) then s.reqs[r].(phase := Finished(Answered(s.reqs[r].slot.stanza))) else s.reqs[r]
  {
  }

  /** A request whose answer has come while it waits ends with that answer, whatever happens then. */
  lemma {:induction false} AnswerNotLost(s: State, events: seq<Event>, t: State, r: nat)
    requires Inv(s) && Run(s, events, t) && InPhase(s, r, Waiting) && s.reqs[r].slot.Filled?
    ensures r < |t.reqs|
    ensures t.reqs[r] == s.reqs[r] || t.reqs[r].phase == Finished(Answered(s.reqs[r].slot.stanza))
    decreases |events|
  {
    if events == [] {
    } else {
      var e := events[0];
      StepInv(s, e);
      StepFilled(s, e, r);
      if e == Receive(r) {
        FinishesOnce(Step(s, e), events[1..], t, r);
      } else {
        AnswerNotLost(Step(s, e), events[1..], t, r);
      }
    }
  }
}
