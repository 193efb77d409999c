/**
 The retry protocol for one message sent to `n` devices: receivers count failed decryptions and
 emit numbered retry receipts; the sender refuses high counts, deduplicates, works on one retry
 of the message at a time and resends to every device. Every atomic section of the source is one
 event, so a run is an interleaving of handlers, deliveries and connection losses. A copy of the
 message may fail in several of its parts and emit a receipt for each. Receipts may be lost and
 reordered but not duplicated, and caches do not evict by age.
 */
module Retry {
  import opened Bytes

  const MAX_DECRYPT_RETRIES: nat := 5
  const MAX_RETRY_COUNT: nat := 5

  /** The receiver's counter: the new count, or nothing once the maximum is reached. */
  function Bump(current: Option<nat>): Option<nat> {
    match current
    case None => Some(1)
    case Some(c) => if c >= MAX_DECRYPT_RETRIES then None else Some(c + 1)
  }

  class RetryCounts {
    var counts: map<string, nat>

    constructor ()
      ensures counts == map[]
    {
      counts := map[];
    }

    function Current(key: string): Option<nat>
      reads this
    {
      if key in counts then Some(counts[key]) else None
    }

    /** The read-modify-write of one cache entry. */
    method IncrementRetryCount(key: string) returns (r: Option<nat>)
      modifies this
      ensures r == Bump(old(Current(key)))
      ensures r.Some? ==> counts == old(counts)[key := r.value]
      ensures r.None? ==> counts == old(counts)
    {
      if key in counts {
        var current := counts[key];
        if current >= MAX_DECRYPT_RETRIES {
          return None;
        }
        counts := counts[key := current + 1];
        return Some(current + 1);
      }
      counts := counts[key := 1];
      return Some(1);
    }

    /** `times` failures of one message in a row: the counts given out are 1, 2, up to the maximum. */
    method FailRepeatedly(key: string, times: nat) returns (given: seq<nat>)
      requires key !in counts
      modifies this
      ensures |given| == if times < 5 then times else 5
      ensures forall i :: 0 <= i < |given| ==> given[i] == i + 1
    {
      given := [];
      for i := 0 to times
        invariant |given| == if i < MAX_DECRYPT_RETRIES then i else MAX_DECRYPT_RETRIES
        invariant forall j :: 0 <= j < |given| ==> given[j] == j + 1
        invariant Current(key) == if |given| == 0 then None else Some(|given|)
      {
        var r := IncrementRetryCount(key);
        if r.Some? {
          given := given + [r.value];
        }
      }
    }
  }

  /** In a group each device has a deduplication key of its own, elsewhere the chat has one. */
  datatype Key = PerSender(device: nat) | PerChat

  /**
   Where a receipt is: on the wire, or in a handler that has passed the limit check, the dedupe
   insert, the pending insert, the message take, or has ended with its pending mark still set.
   */
  datatype Place = InFlight | Arrived | Passed | Holding | Taken | Releasing | Done

  /** An emitted receipt, with the connection in which it was admitted and resent, if it was. */
  datatype Entry = Entry(device: nat, count: nat, place: Place, admitted: Option<nat>, resent: Option<nat>)

  /**
   `counts` are the receivers' counters (0 is no entry), `deliveries` the copies of the message
   on their way to devices, `log` the receipts in the order of emission, `epoch` the number of
   times the dedupe cache was cleared.
   */
  datatype State = State(
    n: nat,
    group: bool,
    counts: seq<nat>,
    deliveries: multiset<nat>,
    log: seq<Entry>,
    dedupe: set<Key>,
    pending: bool,
    cached: bool,
    epoch: nat)

  function KeyOf(s: State, i: nat): Key
    requires i < |s.log|
  {
    if s.group then PerSender(s.log[i].device) else PerChat
  }

  /** What `send_message_impl` did: failed early, failed after caching the message, or sent it. */
  datatype SendOutcome = LostEarly | CachedOnly | SentToAll

  datatype Event =
    | Undecryptable(device: nat)
    | Processed(device: nat)
    | Lose(i: nat)
    | Arrive(i: nat)
    | Dedupe(i: nat)
    | Reserve(i: nat)
    | Take(i: nat)
    | UnknownDevice(i: nat)
    | Resend(i: nat, outcome: SendOutcome)
    | Release(i: nat)
    | Clear

  /** One copy for each of the first `n` devices. */
  function Copies(n: nat): (m: multiset<nat>)
    ensures |m| == n
    ensures forall d: nat :: d in m <==> d < n
  {
    if n == 0 then multiset{} else Copies(n - 1) + multiset{n - 1}
  }

  function Init(n: nat, group: bool): State {
    State(n, group, seq(n, _ => 0), Copies(n), [], {}, false, true, 0)
  }

  predicate At(s: State, i: nat, p: Place) {
    i < |s.log| && s.log[i].place == p
  }

  predicate Enabled(s: State, e: Event) {
    match e
    case Undecryptable(d) => d in s.deliveries && d < |s.counts| && s.counts[d] < MAX_DECRYPT_RETRIES
    case Processed(d) => d in s.deliveries
    case Lose(i) => At(s, i, InFlight)
    case Arrive(i) => At(s, i, InFlight)
    case Dedupe(i) => At(s, i, Arrived)
    case Reserve(i) => At(s, i, Passed)
    case Take(i) => At(s, i, Holding)
    case UnknownDevice(i) => At(s, i, Taken)
    case Resend(i, _) => At(s, i, Taken)
    case Release(i) => At(s, i, Releasing)
    case Clear => true
  }

  function Move(s: State, i: nat, p: Place): State
    requires i < |s.log|
  {
    s.(log := s.log[i := s.log[i].(place := p)])
  }

  /** A failed decryption: the counter goes up and a receipt leaves, unless it is at its maximum. */
  function Fail(s: State, d: nat): State
    requires d < |s.counts|
  {
    match Bump(if s.counts[d] == 0 then None else Some(s.counts[d]))
    case None => s
    case Some(c) => s.(counts := s.counts[d := c], log := s.log + [Entry(d, c, InFlight, None, None)])
  }

  function Admit(s: State, i: nat): State
    requires i < |s.log|
  {
    if KeyOf(s, i) in s.dedupe then Move(s, i, Done)
    else s.(dedupe := s.dedupe + {KeyOf(s, i)},
            log := s.log[i := s.log[i].(place := Passed, admitted := Some(s.epoch))])
  }

  function Send(s: State, i: nat, outcome: SendOutcome): State
    requires i < |s.log|
  {
    match outcome
    case LostEarly => Move(s, i, Releasing)
    case CachedOnly => Move(s, i, Releasing).(cached := true)
    case SentToAll =>
      s.(log := s.log[i := s.log[i].(place := Releasing, resent := Some(s.epoch))],
         cached := true, deliveries := s.deliveries + Copies(s.n))
  }

  function Step(s: State, e: Event): State
    requires Enabled(s, e)
  {
    match e
    case Undecryptable(d) => Fail(s, d)
    case Processed(d) => s.(deliveries := s.deliveries - multiset{d})
    case Lose(i) => Move(s, i, Done)
    case Arrive(i) => Move(s, i, if s.log[i].count >= MAX_RETRY_COUNT then Done else Arrived)
    case Dedupe(i) => Admit(s, i)
    case Reserve(i) => if s.pending then Move(s, i, Done) else Move(s, i, Holding).(pending := true)
    case Take(i) => if s.cached then Move(s, i, Taken).(cached := false) else Move(s, i, Releasing)
    case UnknownDevice(i) => Move(s, i, Releasing)
    case Resend(i, outcome) => Send(s, i, outcome)
    case Release(i) => Move(s, i, Done).(pending := false)
    case Clear => s.(dedupe := {}, epoch := s.epoch + 1)
  }

  /** `t` is reached from `s` by these events, each enabled when its turn comes. */
  ghost predicate Run(s: State, events: seq<Event>, t: State)
    decreases |events|
  {
    if events == [] then s == t
    else Enabled(s, events[0]) && Run(Step(s, events[0]), events[1..], t)
  }

  // ----- sums -----

  function Sum<T>(f: T -> nat, xs: seq<T>): nat {
    if xs == [] then 0 else f(xs[0]) + Sum(f, xs[1..])
  }

  lemma {:induction false} SumUpdate<T>(f: T -> nat, xs: seq<T>, i: nat, x: T)
    requires i < |xs|
    ensures Sum(f, xs[i := x]) == Sum(f, xs) - f(xs[i]) + f(x)
  {
    if i == 0 {
      assert xs[i := x][1..] == xs[1..];
    } else {
      SumUpdate(f, xs[1..], i - 1, x);
      assert xs[i := x][1..] == xs[1..][i - 1 := x];
    }
  }

  lemma {:induction false} SumSnoc<T>(f: T -> nat, xs: seq<T>, x: T)
    ensures Sum(f, xs + [x]) == Sum(f, xs) + f(x)
  {
    if xs == [] {
      assert xs + [x] == [x];
    } else {
      SumSnoc(f, xs[1..], x);
      TailOfSum(xs, [x]);
    }
  }

  lemma {:induction false} SumBound<T>(f: T -> nat, xs: seq<T>, b: nat)
    requires forall x :: x in xs ==> f(x) <= b
    ensures Sum(f, xs) <= b * |xs|
  {
    if xs == [] {
    } else {
      SumBound(f, xs[1..], b);
      assert b * |xs| == b + b * (|xs| - 1);
    }
  }

  lemma {:induction false} SumMono<T>(f: T -> nat, g: T -> nat, xs: seq<T>)
    requires forall x :: x in xs ==> f(x) <= g(x)
    ensures Sum(f, xs) <= Sum(g, xs)
  {
    if xs == [] {
    } else {
      SumMono(f, g, xs[1..]);
    }
  }

  // ----- the invariant -----

  function One(b: bool): nat {
    if b then 1 else 0
  }

  function Low(c: nat): nat {
    if c < MAX_RETRY_COUNT then c else MAX_RETRY_COUNT - 1
  }

  function Receipts(s: State): nat {
    |s.log|
  }

  function IsLow(e: Entry): nat {
    One(e.count < MAX_RETRY_COUNT)
  }

  function IsAdmitted(e: Entry): nat {
    One(e.admitted.Some?)
  }

  function IsResent(e: Entry): nat {
    One(e.resent.Some?)
  }

  function Itself(c: nat): nat {
    c
  }

  /** Receipts below the sender's limit. */
  function LowReceipts(s: State): nat {
    Sum(IsLow, s.log)
  }

  function Admissions(s: State): nat {
    Sum(IsAdmitted, s.log)
  }

  function Resends(s: State): nat {
    Sum(IsResent, s.log)
  }

  ghost predicate CountsBounded(s: State) {
    && |s.counts| == s.n
    && (forall d :: 0 <= d < s.n ==> s.counts[d] <= MAX_DECRYPT_RETRIES)
    && (forall d :: d in s.deliveries ==> d < s.n)
  }

  /** Each device has emitted counts 1, 2, ... up to its counter, in this order. */
  ghost predicate LogOrdered(s: State) {
    && |s.counts| == s.n
    && (forall i :: 0 <= i < |s.log| ==>
          s.log[i].device < s.n && 1 <= s.log[i].count <= s.counts[s.log[i].device])
    && (forall i, j :: 0 <= i < j < |s.log| && s.log[i].device == s.log[j].device ==>
          s.log[i].count < s.log[j].count)
  }

  /** The receipts account for the counters. */
  ghost predicate LogAccounted(s: State) {
    Receipts(s) == Sum(Itself, s.counts) && LowReceipts(s) == Sum(Low, s.counts)
  }

  ghost predicate CountsOk(s: State) {
    CountsBounded(s) && LogOrdered(s) && LogAccounted(s)
  }

  /** What the place of a receipt says about its history. */
  predicate EntryOk(e: Entry, epoch: nat) {
    && (e.place.InFlight? || e.place.Arrived? ==> e.admitted.None?)
    && (e.place.Passed? || e.place.Holding? || e.place.Taken? ==> e.resent.None?)
    && (e.place.Passed? || e.place.Holding? || e.place.Taken? || e.place.Releasing? ==> e.admitted.Some?)
    && (e.place.Arrived? || e.admitted.Some? ==> e.count < MAX_RETRY_COUNT)
    && (e.admitted.Some? ==> e.admitted.value <= epoch)
    && (e.resent.Some? ==> e.admitted.Some? && e.admitted.value <= e.resent.value <= epoch)
  }

  ghost predicate EntriesOk(s: State) {
    forall i :: 0 <= i < |s.log| ==> EntryOk(s.log[i], s.epoch)
  }

  predicate Busy(s: State, i: nat) {
    i < |s.log| && (s.log[i].place.Holding? || s.log[i].place.Taken? || s.log[i].place.Releasing?)
  }

  /** The pending mark is held by the one handler between reserve and release. */
  ghost predicate ExclusionOk(s: State) {
    && (forall i, j :: Busy(s, i) && Busy(s, j) ==> i == j)
    && (s.pending <==> exists i :: Busy(s, i))
    && (forall i :: At(s, i, Taken) ==> !s.cached)
  }

  function KeyCount(s: State): nat {
    if s.group then s.n else 1
  }

  function Keys(s: State): set<Key> {
    if s.group then set d: nat | d < s.n :: PerSender(d) else {PerChat}
  }

  /** In one epoch a key admits one handler. */
  ghost predicate DedupeOk(s: State) {
    && (forall i :: 0 <= i < |s.log| && s.log[i].admitted == Some(s.epoch) ==> KeyOf(s, i) in s.dedupe)
    && (forall i, j ::
          0 <= i < j < |s.log| && s.log[i].admitted.Some? && s.log[i].admitted == s.log[j].admitted ==>
            KeyOf(s, i) != KeyOf(s, j))
    && s.dedupe <= Keys(s)
    && Admissions(s) <= s.epoch * KeyCount(s) + |s.dedupe|
  }

  ghost predicate Inv(s: State) {
    CountsOk(s) && EntriesOk(s) && ExclusionOk(s) && DedupeOk(s)
  }

  lemma {:induction false} SumZeros(f: nat -> nat, n: nat)
    requires f(0) == 0
    ensures Sum(f, seq(n, _ => 0)) == 0
  {
    if n == 0 {
    } else {
      SumZeros(f, n - 1);
      assert seq(n, _ => 0)[1..] == seq(n - 1, _ => 0);
    }
  }

  lemma InitInv(n: nat, group: bool)
    ensures Inv(Init(n, group))
  {
    SumZeros(Itself, n);
    SumZeros(Low, n);
  }

  /** The index whose entry an event may change, when it changes one. */
  predicate Touches(s: State, t: State, i: nat) {
    i < |s.log| && |t.log| == |s.log| && t.log == s.log[i := t.log[i]]
    && t.log[i].device == s.log[i].device && t.log[i].count == s.log[i].count
  }

  lemma SumTouched(f: Entry -> nat, s: State, t: State, i: nat)
    requires Touches(s, t, i)
    ensures Sum(f, t.log) == Sum(f, s.log) - f(s.log[i]) + f(t.log[i])
  {
    SumUpdate(f, s.log, i, t.log[i]);
  }

  predicate Handler(e: Event) {
    !e.Undecryptable? && !e.Processed? && !e.Clear?
  }

  /** A handler event touches its own receipt and leaves the receivers alone. */
  lemma StepTouches(s: State, e: Event)
    requires Enabled(s, e) && Handler(e)
    ensures Touches(s, Step(s, e), e.i)
    ensures Step(s, e).n == s.n && Step(s, e).group == s.group && Step(s, e).epoch == s.epoch
    ensures Step(s, e).counts == s.counts
    ensures Step(s, e).deliveries == s.deliveries || Step(s, e).deliveries == s.deliveries + Copies(s.n)
  {
    if e.Dedupe? {
      AdmitTouches(s, e.i);
    } else if e.Resend? {
      SendTouches(s, e.i, e.outcome);
    } else {
      MoveTouches(s, e.i, Step(s, e).log[e.i].place);
    }
  }

  /** Only the entry `i` and the sender's side may differ. */
  predicate Local(s: State, t: State, i: nat) {
    Touches(s, t, i) && t.n == s.n && t.group == s.group && t.epoch == s.epoch && t.counts == s.counts
  }

  lemma MoveTouches(s: State, i: nat, p: Place)
    requires i < |s.log|
    ensures Local(s, Move(s, i, p), i)
  {
  }

  lemma AdmitTouches(s: State, i: nat)
    requires i < |s.log|
    ensures Local(s, Admit(s, i), i)
  {
  }

  lemma SendTouches(s: State, i: nat, outcome: SendOutcome)
    requires i < |s.log|
    ensures Local(s, Send(s, i, outcome), i)
  {
  }

  lemma FailOrdered(s: State, d: nat)
    requires CountsBounded(s) && LogOrdered(s) && d < s.n
    ensures CountsBounded(Fail(s, d)) && LogOrdered(Fail(s, d))
  {
    var c, t := s.counts[d], Fail(s, d);
    if c < MAX_DECRYPT_RETRIES {
      assert t.log == s.log + [Entry(d, c + 1, InFlight, None, None)] && t.counts == s.counts[d := c + 1];
    }
  }

  lemma FailAccounted(s: State, d: nat)
    requires LogAccounted(s) && d < |s.counts|
    ensures LogAccounted(Fail(s, d))
  {
    var c, t := s.counts[d], Fail(s, d);
    if c < MAX_DECRYPT_RETRIES {
      var e := Entry(d, c + 1, InFlight, None, None);
      assert t.log == s.log + [e] && t.counts == s.counts[d := c + 1];
      SumUpdate<nat>(Itself, s.counts, d, c + 1);
      LowAppend(s.log, s.counts, d, c, e);
    }
  }

  lemma LowAppend(log: seq<Entry>, counts: seq<nat>, d: nat, c: nat, e: Entry)
    requires d < |counts| && counts[d] == c && e.count == c + 1 && c < MAX_DECRYPT_RETRIES
    requires Sum(IsLow, log) == Sum(Low, counts)
    ensures Sum(IsLow, log + [e]) == Sum(Low, counts[d := c + 1])
  {
    SumUpdate<nat>(Low, counts, d, c + 1);
    SumSnoc(IsLow, log, e);
    assert IsLow(e) == Low(c + 1) - Low(c);
  }

  lemma TouchCounts(s: State, t: State, i: nat)
    requires CountsOk(s) && Touches(s, t, i) && t.n == s.n && t.counts == s.counts
    requires forall d :: d in t.deliveries ==> d < s.n
    ensures CountsOk(t)
  {
    SumTouched(IsLow, s, t, i);
  }

  lemma StepCounts(s: State, e: Event)
    requires CountsOk(s) && Enabled(s, e)
    ensures CountsOk(Step(s, e))
  {
    if Handler(e) {
      StepTouches(s, e);
      TouchCounts(s, Step(s, e), e.i);
    } else if e.Undecryptable? {
      FailOrdered(s, e.device);
      FailAccounted(s, e.device);
    }
  }

  lemma StepEntries(s: State, e: Event)
    requires EntriesOk(s) && Enabled(s, e)
    ensures EntriesOk(Step(s, e))
  {
    if Handler(e) {
      StepTouches(s, e);
      EntryStep(s, e);
    }
  }

  /** How a handler event changes the entry it touches. */
  predicate Rewrites(e: Event, x: Entry, y: Entry, epoch: nat) {
    if e.Dedupe? then y == x.(place := Done) || y == x.(place := Passed, admitted := Some(epoch))
    else if e.Resend? then y == x.(place := Releasing) || y == x.(place := Releasing, resent := Some(epoch))
    else y == x.(place := y.place)
  }

  lemma StepRewrites(s: State, e: Event)
    requires Enabled(s, e) && Handler(e)
    ensures e.i < |Step(s, e).log| && Rewrites(e, s.log[e.i], Step(s, e).log[e.i], s.epoch)
  {
  }

  lemma EntryStep(s: State, e: Event)
    requires EntriesOk(s) && Enabled(s, e) && Handler(e)
    ensures e.i < |Step(s, e).log| && EntryOk(Step(s, e).log[e.i], s.epoch)
  {
    StepRewrites(s, e);
    assert EntryOk(s.log[e.i], s.epoch);
  }

  lemma ExclusionTouch(s: State, t: State, i: nat)
    requires ExclusionOk(s) && Touches(s, t, i)
    requires Busy(t, i) ==> t.pending
    requires Busy(t, i) && !Busy(s, i) ==> !s.pending
    requires !Busy(t, i) && Busy(s, i) ==> !t.pending
    requires !Busy(t, i) && !Busy(s, i) ==> t.pending == s.pending && t.cached == s.cached
    requires At(t, i, Taken) ==> !t.cached
    ensures ExclusionOk(t)
  {
    assert forall j :: j != i ==> (Busy(t, j) <==> Busy(s, j));
    assert forall j :: At(t, j, Taken) ==> Busy(t, j);
    assert forall j :: j != i ==> (At(t, j, Taken) <==> At(s, j, Taken));
  }

  lemma StepExclusion(s: State, e: Event)
    requires ExclusionOk(s) && Enabled(s, e)
    ensures ExclusionOk(Step(s, e))
  {
    var t := Step(s, e);
    if Handler(e) {
      StepTouches(s, e);
      assert Busy(s, e.i) ==> s.pending;
      ExclusionTouch(s, t, e.i);
    } else {
      assert forall j :: Busy(t, j) <==> Busy(s, j);
      assert forall j :: At(t, j, Taken) <==> At(s, j, Taken);
    }
  }

  lemma KeysSize(s: State)
    ensures |Keys(s)| == KeyCount(s)
  {
    if s.group {
      DevicesSize(s.n);
    }
  }

  lemma {:induction false} DevicesSize(n: nat)
    ensures |set d: nat | d < n :: PerSender(d)| == n
  {
    var all := set d: nat | d < n :: PerSender(d);
    if n == 0 {
      assert all == {};
    } else {
      DevicesSize(n - 1);
      assert all == (set d: nat | d < n - 1 :: PerSender(d)) + {PerSender(n - 1)};
    }
  }

  lemma SubsetSize<T>(a: set<T>, b: set<T>)
    requires a <= b
    ensures |a| <= |b|
  {
    assert b == a + (b - a);
  }

  lemma DedupeUnchanged(s: State, t: State, i: nat)
    requires DedupeOk(s) && Touches(s, t, i) && t.log[i].admitted == s.log[i].admitted
    requires t.n == s.n && t.group == s.group && t.epoch == s.epoch && t.dedupe == s.dedupe
    ensures DedupeOk(t)
  {
    SumTouched(IsAdmitted, s, t, i);
    assert forall j :: 0 <= j < |s.log| ==> KeyOf(t, j) == KeyOf(s, j) && t.log[j].admitted == s.log[j].admitted;
  }

  lemma DedupeAdmits(s: State, i: nat)
    requires DedupeOk(s) && CountsOk(s) && i < |s.log| && s.log[i].admitted.None? && KeyOf(s, i) !in s.dedupe
    ensures DedupeOk(Admit(s, i))
  {
    var t := Admit(s, i);
    SumTouched(IsAdmitted, s, t, i);
    assert forall j :: 0 <= j < |s.log| ==> KeyOf(t, j) == KeyOf(s, j);
    assert forall j :: 0 <= j < |s.log| && j != i ==> t.log[j] == s.log[j];
  }

  lemma DedupeClears(s: State)
    requires DedupeOk(s) && EntriesOk(s)
    ensures DedupeOk(Step(s, Clear))
  {
    var t := Step(s, Clear);
    KeysSize(s);
    SubsetSize(s.dedupe, Keys(s));
    assert (s.epoch + 1) * KeyCount(s) == s.epoch * KeyCount(s) + KeyCount(s);
    assert forall j :: 0 <= j < |s.log| ==> KeyOf(t, j) == KeyOf(s, j);
  }

  lemma DedupeDelivers(s: State, copies: multiset<nat>)
    requires DedupeOk(s)
    ensures DedupeOk(s.(deliveries := copies))
  {
    var t := s.(deliveries := copies);
    assert forall j :: 0 <= j < |s.log| ==> KeyOf(t, j) == KeyOf(s, j);
  }

  lemma DedupeFails(s: State, d: nat)
    requires DedupeOk(s) && d < |s.counts|
    ensures DedupeOk(Fail(s, d))
  {
    var t := Fail(s, d);
    if t.log != s.log {
      SumSnoc(IsAdmitted, s.log, t.log[|s.log|]);
      assert forall j :: 0 <= j < |s.log| ==> KeyOf(t, j) == KeyOf(s, j) && t.log[j] == s.log[j];
    }
  }

  lemma StepDedupe(s: State, e: Event)
    requires DedupeOk(s) && EntriesOk(s) && CountsOk(s) && Enabled(s, e)
    ensures DedupeOk(Step(s, e))
  {
    if e.Undecryptable? {
      DedupeFails(s, e.device);
    } else if e.Processed? {
      DedupeDelivers(s, s.deliveries - multiset{e.device});
    } else if e.Clear? {
      DedupeClears(s);
    } else if e.Dedupe? && KeyOf(s, e.i) !in s.dedupe {
      assert EntryOk(s.log[e.i], s.epoch);
      DedupeAdmits(s, e.i);
    } else {
      StepTouches(s, e);
      DedupeUnchanged(s, Step(s, e), e.i);
    }
  }

  lemma StepInv(s: State, e: Event)
    requires Inv(s) && Enabled(s, e)
    ensures Inv(Step(s, e))
  {
    StepCounts(s, e);
    StepEntries(s, e);
    StepExclusion(s, e);
    StepDedupe(s, e);
  }

  lemma StepKeeps(s: State, e: Event)
    requires Enabled(s, e)
    ensures Step(s, e).n == s.n && Step(s, e).group == s.group
  {
  }

  lemma {:induction false} RunKeeps(s: State, events: seq<Event>, t: State)
    requires Run(s, events, t)
    ensures t.n == s.n && t.group == s.group
    decreases |events|
  {
    if events == [] {
    } else {
      StepKeeps(s, events[0]);
      RunKeeps(Step(s, events[0]), events[1..], t);
    }
  }

  /** The invariant holds along every run. */
  lemma {:induction false} RunInv(s: State, events: seq<Event>, t: State)
    requires Inv(s) && Run(s, events, t)
    ensures Inv(t)
    decreases |events|
  {
    if events == [] {
    } else {
      var next := Step(s, events[0]);
      StepInv(s, events[0]);
      RunInv(next, events[1..], t);
    }
  }

  lemma Reachable(n: nat, group: bool, events: seq<Event>, t: State)
    requires Run(Init(n, group), events, t)
    ensures Inv(t) && t.n == n && t.group == group
  {
    InitInv(n, group);
    RunInv(Init(n, group), events, t);
    RunKeeps(Init(n, group), events, t);
  }

  // ----- what every run keeps within -----

  lemma ReceiptsBound(s: State)
    requires CountsOk(s)
    ensures Receipts(s) <= 5 * s.n && LowReceipts(s) <= 4 * s.n
  {
    SumBound(Itself, s.counts, MAX_DECRYPT_RETRIES);
    SumBound(Low, s.counts, MAX_RETRY_COUNT - 1);
  }

  lemma ResendsBound(s: State)
    requires EntriesOk(s)
    ensures Resends(s) <= Admissions(s) <= LowReceipts(s)
  {
    forall x | x in s.log ensures IsResent(x) <= IsAdmitted(x) <= IsLow(x) {
      var i :| 0 <= i < |s.log| && s.log[i] == x;
      assert EntryOk(s.log[i], s.epoch);
    }
    SumMono(IsResent, IsAdmitted, s.log);
    SumMono(IsAdmitted, IsLow, s.log);
  }

  lemma AdmissionsBound(s: State)
    requires DedupeOk(s)
    ensures Admissions(s) <= (s.epoch + 1) * KeyCount(s)
  {
    KeysSize(s);
    SubsetSize(s.dedupe, Keys(s));
    assert (s.epoch + 1) * KeyCount(s) == s.epoch * KeyCount(s) + KeyCount(s);
  }

  /**
   In every run, `n` devices emit at most `5n` receipts and cause at most `4n` resends, and no
   more resends in all than there are deduplication keys times connections.
   */
  lemma RetriesBounded(n: nat, group: bool, events: seq<Event>, t: State)
    requires Run(Init(n, group), events, t)
    ensures Receipts(t) <= 5 * n && Resends(t) <= 4 * n
    ensures Resends(t) <= (t.epoch + 1) * (if group then n else 1)
  {
    Reachable(n, group, events, t);
    ReceiptsBound(t);
    ResendsBound(t);
    AdmissionsBound(t);
  }

  /** In every run, each device emits the counts 1 to at most 5, each once and in this order. */
  lemma CountsEmittedOnce(n: nat, group: bool, events: seq<Event>, t: State, i: nat, j: nat)
    requires Run(Init(n, group), events, t) && i < j < |t.log| && t.log[i].device == t.log[j].device
    ensures 1 <= t.log[i].count < t.log[j].count <= 5
  {
    Reachable(n, group, events, t);
  }

  /** In every run, one handler at most is between taking the message and letting go of it. */
  lemma OneHandlerAtATime(n: nat, group: bool, events: seq<Event>, t: State, i: nat, j: nat)
    requires Run(Init(n, group), events, t) && Busy(t, i) && Busy(t, j)
    ensures i == j && t.pending
  {
    Reachable(n, group, events, t);
  }

  /**
   Two resends for one key within one connection happen only when the dedupe cache was cleared
   while the handler of one of them was at work.
   */
  lemma ResendsPerKey(n: nat, group: bool, events: seq<Event>, t: State, i: nat, j: nat)
    requires Run(Init(n, group), events, t) && i < j < |t.log| && KeyOf(t, i) == KeyOf(t, j)
    requires t.log[i].resent.Some? && t.log[i].resent == t.log[j].resent
    ensures t.log[i].admitted.Some? && t.log[j].admitted.Some?
    ensures t.log[i].admitted.value < t.log[i].resent.value || t.log[j].admitted.value < t.log[j].resent.value
  {
    Reachable(n, group, events, t);
    AdmittedApart(t, i, j);
  }

  lemma AdmittedApart(s: State, i: nat, j: nat)
    requires EntriesOk(s) && DedupeOk(s) && i < j < |s.log| && KeyOf(s, i) == KeyOf(s, j)
    requires s.log[i].resent.Some? && s.log[i].resent == s.log[j].resent
    ensures s.log[i].admitted.Some? && s.log[j].admitted.Some?
    ensures s.log[i].admitted.value < s.log[i].resent.value || s.log[j].admitted.value < s.log[j].resent.value
  {
    assert EntryOk(s.log[i], s.epoch) && EntryOk(s.log[j], s.epoch);
  }

  // ----- termination -----

  function Weight(n: nat, p: Place): nat {
    match p
    case InFlight => n + 6
    case Arrived => n + 5
    case Passed => n + 4
    case Holding => n + 3
    case Taken => n + 2
    case Releasing => 1
    case Done => 0
  }

  function Work(n: nat, log: seq<Entry>): nat {
    if log == [] then 0 else Weight(n, log[0].place) + Work(n, log[1..])
  }

  lemma {:induction false} WorkUpdate(n: nat, log: seq<Entry>, i: nat, x: Entry)
    requires i < |log|
    ensures Work(n, log[i := x]) == Work(n, log) - Weight(n, log[i].place) + Weight(n, x.place)
  {
    if i == 0 {
      assert log[i := x][1..] == log[1..];
    } else {
      WorkUpdate(n, log[1..], i - 1, x);
      assert log[i := x][1..] == log[1..][i - 1 := x];
    }
  }

  lemma {:induction false} WorkSnoc(n: nat, log: seq<Entry>, x: Entry)
    ensures Work(n, log + [x]) == Work(n, log) + Weight(n, x.place)
  {
    if log == [] {
      assert log + [x] == [x];
    } else {
      WorkSnoc(n, log[1..], x);
      TailOfSum(log, [x]);
    }
  }

  /** Work left: receipts not yet emitted, receipts in handlers, copies not yet processed. */
  ghost function Rank(s: State): int {
    (s.n + 7) * (5 * s.n - |s.log|) + Work(s.n, s.log) + |s.deliveries|
  }

  /** The copies a step puts on their way. */
  function NewCopies(s: State, e: Event): nat {
    if e.Resend? && e.outcome.SentToAll? then s.n else 0
  }

  lemma HandlerWeight(s: State, e: Event)
    requires Enabled(s, e) && Handler(e)
    ensures e.i < |s.log| && e.i < |Step(s, e).log|
    ensures Weight(s.n, Step(s, e).log[e.i].place) + NewCopies(s, e) < Weight(s.n, s.log[e.i].place)
    ensures |Step(s, e).deliveries| == |s.deliveries| + NewCopies(s, e)
  {
    if e.Resend? {
    } else if e.Dedupe? {
    } else {
    }
  }

  lemma HandlerRank(s: State, e: Event)
    requires Enabled(s, e) && Handler(e)
    ensures Rank(Step(s, e)) < Rank(s)
  {
    var t := Step(s, e);
    StepTouches(s, e);
    HandlerWeight(s, e);
    WorkUpdate(s.n, s.log, e.i, t.log[e.i]);
  }

  lemma FailRank(s: State, d: nat)
    requires d < |s.counts| && s.counts[d] < MAX_DECRYPT_RETRIES
    ensures Rank(Fail(s, d)) < Rank(s)
  {
    var x := Entry(d, s.counts[d] + 1, InFlight, None, None);
    assert Fail(s, d).log == s.log + [x];
    WorkSnoc(s.n, s.log, x);
    Distribute(s.n + 7, 5 * s.n - |s.log|);
  }

  lemma Distribute(a: int, b: int)
    ensures a * (b - 1) == a * b - a
  {
  }

  /** Every event but a connection loss takes a unit of work away. */
  lemma StepRank(s: State, e: Event)
    requires Enabled(s, e)
    ensures if e.Clear? then Rank(Step(s, e)) == Rank(s) else Rank(Step(s, e)) < Rank(s)
  {
    if e.Undecryptable? {
      FailRank(s, e.device);
    } else if e.Processed? {
      assert |s.deliveries - multiset{e.device}| == |s.deliveries| - 1;
    } else if !e.Clear? {
      HandlerRank(s, e);
    }
  }

  lemma {:induction false} RunRank(s: State, events: seq<Event>, t: State)
    requires Run(s, events, t)
    ensures |events| + Rank(t) <= Rank(s) + (t.epoch - s.epoch)
    decreases |events|
  {
    if events == [] {
    } else {
      StepRank(s, events[0]);
      RunRank(Step(s, events[0]), events[1..], t);
    }
  }

  lemma RankBounds(n: nat, group: bool, t: State)
    requires t.n == n && |t.log| <= 5 * n
    ensures Rank(t) >= 0 && Rank(Init(n, group)) == 5 * n * (n + 7) + n
  {
    assert (n + 7) * (5 * n - |t.log|) >= 0;
    assert (n + 7) * (5 * n - 0) == 5 * n * (n + 7);
  }

  /** Every run ends: apart from connection losses it has at most this many events. */
  lemma RunsTerminate(n: nat, group: bool, events: seq<Event>, t: State)
    requires Run(Init(n, group), events, t)
    ensures |events| <= 5 * n * (n + 7) + n + t.epoch
  {
    Reachable(n, group, events, t);
    ReceiptsBound(t);
    RankBounds(n, group, t);
    RunRank(Init(n, group), events, t);
  }
}
