/**
 Sender-key distribution for one group: which devices a send targets with the sender key, what
 the stanza then carries, and what is recorded as done. The stores, device resolution, stanza
 preparation and its retry are outside; how each of them goes in one send is an input.
 Devices are their printed JIDs, and the two device resolutions of one send agree.
 */
module GroupSend {
  import opened Bytes

  type Device = string

  /** How preparing the stanza ends; a failure comes before or after the point where a missing key is made. */
  datatype Preparation = Prepared | NoSenderKey | FailedBeforeKey | FailedAfterKey

  /**
   How the outside world behaves during one send. `keyExists` is what the check finds and
   `keyLost` says that the key is gone, or holds no state, by the time the stanza is prepared.
   `skipped` are the devices passed over for want of a pre-key bundle or because encryption for
   them failed, and `sent` says whether the prepared stanza reaches the wire.
   */
  datatype Conditions = Conditions(
    force: bool,
    keyExists: bool,
    keyLost: bool,
    marksRead: bool,
    knownRead: bool,
    devices: seq<Device>,
    resolvedForCheck: bool,
    preparation: Preparation,
    skipped: set<Device>,
    sent: bool,
    resolvedForRecord: bool,
    recordWritten: bool,
    clearWritten: bool,
    retryPrepared: bool)

  /**
   `excluded` are the devices a full distribution leaves out, our own sending device and hosted
   ones; `parses` says whether a stored mark reads back as a JID.
   */
  datatype Group = Group(excluded: Device -> bool, parses: Device -> bool)

  /** `reached` are the devices that were sent the sender key made last. */
  datatype State = State(recorded: set<Device>, marks: seq<Device>, reached: set<Device>)

  function SetOf(s: seq<Device>): set<Device> {
    set d | d in s
  }

  // ----- what one send does -----

  predicate ForceSkdm(c: Conditions) {
    c.force || !c.keyExists
  }

  function Known(v: State, c: Conditions): set<Device> {
    if c.knownRead then v.recorded else {}
  }

  function Marked(v: State, c: Conditions): seq<Device> {
    if c.marksRead then v.marks else []
  }

  /** Whether the send settles for targeting only devices that are new or marked. */
  predicate Selective(v: State, c: Conditions) {
    !ForceSkdm(c) && Known(v, c) != {} && c.resolvedForCheck
  }

  /** The targets of a selective send. */
  ghost function Targets(g: Group, v: State, c: Conditions): set<Device> {
    (SetOf(c.devices) - Known(v, c)) + (set d | d in Marked(v, c) && g.parses(d))
  }

  function FullList(g: Group, devices: seq<Device>): set<Device> {
    set d | d in devices && !g.excluded(d)
  }

  /**
   The devices the sender key is meant for. A send that is neither selective nor forced means
   it for nobody.
   */
  ghost function Listed(g: Group, v: State, c: Conditions): set<Device> {
    if Selective(v, c) then Targets(g, v, c)
    else if ForceSkdm(c) then FullList(g, c.devices)
    else {}
  }

  /** The devices the prepared stanza carries the sender key for. */
  ghost function Carried(g: Group, v: State, c: Conditions): set<Device> {
    Listed(g, v, c) - c.skipped
  }

  /** Whether the key is given out at all, to however few devices. */
  ghost predicate Distributes(g: Group, v: State, c: Conditions) {
    ForceSkdm(c) || (Selective(v, c) && Targets(g, v, c) != {})
  }

  /** Whether a distribution finds no key and makes a new one, which no device has yet. */
  ghost predicate Remade(g: Group, v: State, c: Conditions) {
    (!c.keyExists || c.keyLost) && Distributes(g, v, c)
  }

  /**
   Which ends of the preparation there can be: encryption needs a key, so a lost one that no
   distribution makes anew is noticed, and a key is missed only then. What is said below of all
   conditions holds of these in particular, and the runs given below have only these.
   */
  ghost predicate Possible(g: Group, v: State, c: Conditions) {
    && (c.preparation.Prepared? && c.keyLost ==> Distributes(g, v, c))
    && (c.preparation.NoSenderKey? ==> c.keyLost && !Distributes(g, v, c))
  }

  /** The devices that have the key of this send from earlier ones. */
  ghost function Kept(g: Group, v: State, c: Conditions): set<Device> {
    if Remade(g, v, c) then {} else v.reached
  }

  /** What is added to the record after a stanza is prepared. */
  ghost function Recorded(g: Group, v: State, c: Conditions): set<Device> {
    if !c.recordWritten then {}
    else if Selective(v, c) then Targets(g, v, c)
    else if c.resolvedForRecord then SetOf(c.devices)
    else {}
  }

  ghost function Next(g: Group, v: State, c: Conditions): State {
    var marks := if c.marksRead then [] else v.marks;
    match c.preparation
    case Prepared =>
      State(v.recorded + Recorded(g, v, c), marks, Kept(g, v, c) + if c.sent then Carried(g, v, c) else {})
    case NoSenderKey =>
      State(if c.clearWritten then {} else v.recorded, marks,
            if c.retryPrepared && c.sent then FullList(g, c.devices) - c.skipped else {})
    case FailedBeforeKey => v.(marks := marks)
    case FailedAfterKey => v.(marks := marks, reached := Kept(g, v, c))
  }

  class GroupSender {
    const g: Group
    var recorded: set<Device>
    var marks: seq<Device>
    ghost var reached: set<Device>

    ghost function View(): State
      reads this
    {
      State(recorded, marks, reached)
    }

    constructor (g: Group)
      ensures this.g == g && View() == State({}, [], {})
    {
      this.g := g;
      recorded, marks, reached := {}, [], {};
    }

    /** The devices that are not recorded yet, in order. */
    method NewDevices(devices: seq<Device>, known: set<Device>) returns (r: seq<Device>)
      ensures SetOf(r) == SetOf(devices) - known
    {
      r := [];
      for i := 0 to |devices|
        invariant SetOf(r) == SetOf(devices[..i]) - known
      {
        assert SetOf(devices[..i + 1]) == SetOf(devices[..i]) + {devices[i]};
        if devices[i] !in known {
          assert SetOf(r + [devices[i]]) == SetOf(r) + {devices[i]};
          r := r + [devices[i]];
        }
      }
      assert devices[..|devices|] == devices;
    }

    /** Adds the marked devices that read back and are not there yet. */
    method MergeMarks(targets: seq<Device>, marked: seq<Device>) returns (r: seq<Device>)
      ensures SetOf(r) == SetOf(targets) + set d | d in marked && g.parses(d)
    {
      r := targets;
      ghost var merged := {};
      for i := 0 to |marked|
        invariant merged == set d | d in marked[..i] && g.parses(d)
        invariant SetOf(r) == SetOf(targets) + merged
      {
        assert marked[..i + 1] == marked[..i] + [marked[i]];
        if g.parses(marked[i]) {
          merged := merged + {marked[i]};
          if marked[i] !in r {
            assert SetOf(r + [marked[i]]) == SetOf(r) + {marked[i]};
            r := r + [marked[i]];
          }
        }
      }
      assert marked[..|marked|] == marked;
    }

    /** No list stands for all devices; the marks are used up whether or not they are needed. */
    method SelectTargets(c: Conditions) returns (targets: Option<seq<Device>>)
      modifies this
      ensures marks == (if c.marksRead then [] else old(marks)) && recorded == old(recorded) && reached == old(reached)
      ensures targets.Some? <==> Selective(old(View()), c)
      ensures targets.Some? ==> SetOf(targets.value) == Targets(g, old(View()), c)
    {
      var marked := [];
      if c.marksRead {
        marked := marks;
        marks := [];
      }
      if ForceSkdm(c) {
        return None;
      }
      var known := if c.knownRead then recorded else {};
      if known == {} || !c.resolvedForCheck {
        return None;
      }
      var devices := NewDevices(c.devices, known);
      devices := MergeMarks(devices, marked);
      return Some(devices);
    }

    method SendGroupMessage(c: Conditions) returns (ok: bool)
      requires Possible(g, View(), c)
      modifies this
      ensures View() == Next(g, old(View()), c)
      ensures ok <==> c.sent && (c.preparation.Prepared? || (c.preparation.NoSenderKey? && c.retryPrepared))
    {
      ghost var v := View();
      var targets := SelectTargets(c);
      var receiving := if targets.Some? then targets.value else [];
      match c.preparation {
        case Prepared =>
          if receiving != [] {
            if c.recordWritten {
              recorded := recorded + SetOf(receiving);
            }
          } else if ForceSkdm(c) || targets.None? {
            if c.resolvedForRecord && c.recordWritten {
              recorded := recorded + SetOf(c.devices);
            }
          }
          reached := Kept(g, v, c);
          if c.sent {
            reached := reached + Carried(g, v, c);
          }
          return c.sent;
        case NoSenderKey =>
          if c.clearWritten {
            recorded := {};
          }
          reached := {};
          if !c.retryPrepared {
            return false;
          }
          if c.sent {
            reached := FullList(g, c.devices) - c.skipped;
          }
          return c.sent;
        case FailedBeforeKey =>
          return false;
        case FailedAfterKey =>
          reached := Kept(g, v, c);
          return false;
      }
    }
  }

  // ----- whom a send serves, on what it is given -----

  /** A forced send, or one that finds no key, reaches everyone in the group that it can. */
  lemma ForcedGives(g: Group, v: State, c: Conditions, d: Device)
    requires c.force || !c.keyExists
    ensures c.preparation.Prepared? && c.sent && d in c.devices && !g.excluded(d) && d !in c.skipped ==>
      Gives(g, v, c, d) && d in Next(g, v, c).reached
  {
  }

  /** So does the retry after a lost key. */
  lemma RetryGives(g: Group, v: State, c: Conditions, d: Device)
    requires c.preparation.NoSenderKey?
    ensures d in Next(g, v, c).reached <==>
      c.retryPrepared && c.sent && d in c.devices && !g.excluded(d) && d !in c.skipped
    ensures Gives(g, v, c, d) <==> d in Next(g, v, c).reached
    ensures d in Next(g, v, c).recorded <==> !c.clearWritten && d in v.recorded
  {
  }

  /** Exactly whom a stanza carries the key for. */
  lemma CarriedExactly(g: Group, v: State, c: Conditions, d: Device)
    ensures d in Carried(g, v, c) <==>
      && d !in c.skipped
      && if c.force || !c.keyExists then d in c.devices && !g.excluded(d)
         else
           && c.knownRead && v.recorded != {} && c.resolvedForCheck
           && ((d in c.devices && d !in v.recorded) || (c.marksRead && d in v.marks && g.parses(d)))
  {
    assert d in c.devices <==> d in SetOf(c.devices);
  }

  /** Exactly who is recorded after a prepared stanza. */
  lemma RecordedExactly(g: Group, v: State, c: Conditions, d: Device)
    requires c.preparation.Prepared?
    ensures d in Next(g, v, c).recorded <==>
      || d in v.recorded
      || (&& c.recordWritten
          && if !c.force && c.keyExists && c.knownRead && v.recorded != {} && c.resolvedForCheck
             then (d in c.devices) || (c.marksRead && d in v.marks && g.parses(d))
             else c.resolvedForRecord && d in c.devices)
  {
    assert d in c.devices <==> d in SetOf(c.devices);
  }

  /** Exactly who has the key after a prepared stanza, where a lost key that is given out is a new one. */
  lemma ReachedExactly(g: Group, v: State, c: Conditions, d: Device)
    requires c.preparation.Prepared?
    ensures d in Next(g, v, c).reached <==>
      || (c.sent && d in Carried(g, v, c))
      || (d in v.reached && c.keyExists && (!c.keyLost || (!c.force && Listed(g, v, c) == {})))
  {
  }

  // ----- the record tells the truth -----

  /** If the device is recorded, it has the sender key, or does not take part. */
  ghost predicate TruthfulFor(g: Group, v: State, d: Device) {
    d in v.recorded ==> d in v.reached || g.excluded(d)
  }

  ghost predicate Truthful(g: Group, v: State) {
    forall d :: TruthfulFor(g, v, d)
  }

  /** The stanza does not bring the key to this listed device. */
  predicate Misses(c: Conditions, d: Device) {
    !c.sent || d in c.skipped
  }

  /** A new key is made and the device, recorded for the old one, is not listed, or missed. */
  ghost predicate LeavesStale(g: Group, v: State, c: Conditions, d: Device) {
    Remade(g, v, c) && d in v.recorded && (Misses(c, d) || d !in Listed(g, v, c))
  }

  /** The device needs the key and is recorded although it is missed, or nobody is listed. */
  ghost predicate RecordsUnsent(g: Group, v: State, c: Conditions, d: Device) {
    && d in Recorded(g, v, c) && d !in Kept(g, v, c)
    && (Misses(c, d) || (!Selective(v, c) && !ForceSkdm(c)))
  }

  /** The guards of the branches after which the record claims too much about the device. */
  ghost predicate MisleadsFor(g: Group, v: State, c: Conditions, d: Device) {
    !g.excluded(d) &&
    match c.preparation
    case Prepared => LeavesStale(g, v, c, d) || RecordsUnsent(g, v, c, d)
    case NoSenderKey =>
      !c.clearWritten && d in v.recorded && (!c.retryPrepared || Misses(c, d) || d !in c.devices)
    case FailedBeforeKey => false
    case FailedAfterKey => Remade(g, v, c) && d in v.recorded
  }

  ghost predicate Misleads(g: Group, v: State, c: Conditions) {
    exists d :: MisleadsFor(g, v, c, d)
  }

  /** The send brings the key to the device. */
  ghost predicate Gives(g: Group, v: State, c: Conditions, d: Device) {
    match c.preparation
    case Prepared => c.sent && d in Carried(g, v, c)
    case NoSenderKey => c.retryPrepared && c.sent && d in FullList(g, c.devices) - c.skipped
    case _ => false
  }

  /** The record is emptied. */
  predicate Clears(c: Conditions) {
    c.preparation.NoSenderKey? && c.clearWritten
  }

  /** The key the devices have stops being the current one. */
  ghost predicate Drops(g: Group, v: State, c: Conditions) {
    c.preparation.NoSenderKey? || (!c.preparation.FailedBeforeKey? && Remade(g, v, c))
  }

  /**
   For each device by itself: a send keeps the record truthful exactly when it takes none of
   those branches, and makes it truthful again exactly when it brings the key or empties the
   record.
   */
  lemma TruthfulForExactly(g: Group, v: State, c: Conditions, d: Device)
    ensures TruthfulFor(g, v, d) ==> (TruthfulFor(g, Next(g, v, c), d) <==> !MisleadsFor(g, v, c, d))
    ensures !TruthfulFor(g, v, d) ==> (TruthfulFor(g, Next(g, v, c), d) <==> Gives(g, v, c, d) || Clears(c))
  {
    assert d in c.devices <==> d in SetOf(c.devices);
  }

  /** The same for all devices together. */
  lemma TruthfulExactly(g: Group, v: State, c: Conditions)
    requires Truthful(g, v)
    ensures Truthful(g, Next(g, v, c)) <==> !Misleads(g, v, c)
  {
    forall d ensures TruthfulFor(g, Next(g, v, c), d) <==> !MisleadsFor(g, v, c, d) {
      TruthfulForExactly(g, v, c, d);
    }
  }

  /**
   Whatever becomes of a send, all its current devices are recorded afterwards exactly when they
   were before and the record is not emptied, or the stanza is prepared and the record is
   written, of a selective send or after the devices are resolved again; or there are none.
   */
  lemma RecordCovers(g: Group, v: State, c: Conditions)
    ensures SetOf(c.devices) <= Next(g, v, c).recorded <==>
      || c.devices == []
      || (SetOf(c.devices) <= v.recorded && !Clears(c))
      || (c.preparation.Prepared? && c.recordWritten && (Selective(v, c) || c.resolvedForRecord))
  {
    if c.devices != [] {
      assert c.devices[0] in SetOf(c.devices);
    }
  }

  /** Marked for a fresh key, as far as this send can tell. */
  predicate WantsAnew(g: Group, v: State, c: Conditions, d: Device) {
    d in Marked(v, c) && g.parses(d)
  }

  /** A device of the group that this send should bring the key to. */
  ghost predicate Needs(g: Group, v: State, c: Conditions, d: Device) {
    d in c.devices && !g.excluded(d) && (d !in Kept(g, v, c) || WantsAnew(g, v, c, d))
  }

  /** Every current device has the key once the stanza is out, and marked ones get it again. */
  ghost predicate EveryoneServed(g: Group, v: State, c: Conditions) {
    && (forall d :: d in c.devices && !g.excluded(d) ==> d in Next(g, v, c).reached)
    && (forall d :: d in c.devices && !g.excluded(d) && WantsAnew(g, v, c, d) ==> c.sent && d in Carried(g, v, c))
  }

  /** A device the record knows has not got the key and has not asked; a selective send passes it over. */
  ghost predicate PassedOver(g: Group, v: State, c: Conditions, d: Device) {
    d in c.devices && !g.excluded(d) && d in Known(v, c) && d !in Kept(g, v, c) && !WantsAnew(g, v, c, d)
  }

  lemma ServedIffCarried(g: Group, v: State, c: Conditions)
    requires c.preparation.Prepared?
    ensures EveryoneServed(g, v, c) <==> forall d :: Needs(g, v, c, d) ==> c.sent && d in Carried(g, v, c)
  {
    forall d | d in c.devices && !g.excluded(d) && (Needs(g, v, c, d) ==> c.sent && d in Carried(g, v, c))
      ensures d in Next(g, v, c).reached
      ensures WantsAnew(g, v, c, d) ==> c.sent && d in Carried(g, v, c)
    {
    }
  }

  /** Which of the devices in need a selective send does not list. */
  lemma UnlistedNeed(g: Group, v: State, c: Conditions, d: Device)
    requires Selective(v, c)
    ensures Needs(g, v, c, d) && d !in Listed(g, v, c) <==> PassedOver(g, v, c, d)
  {
    assert d in c.devices <==> d in SetOf(c.devices);
  }

  /**
   From any state, a prepared stanza serves everyone exactly when nobody needs the key, or it
   misses none of those who do and the send is forced, or selective and passes over nobody.
   */
  lemma ServedExactly(g: Group, v: State, c: Conditions)
    requires c.preparation.Prepared?
    ensures EveryoneServed(g, v, c) <==>
      || (forall d :: !Needs(g, v, c, d))
      || (&& (forall d :: Needs(g, v, c, d) ==> !Misses(c, d))
          && (ForceSkdm(c) || (Selective(v, c) && forall d :: !PassedOver(g, v, c, d))))
  {
    ServedIffCarried(g, v, c);
    if ForceSkdm(c) {
      assert forall d :: Needs(g, v, c, d) ==> d in FullList(g, c.devices);
    } else if Selective(v, c) {
      forall d ensures Needs(g, v, c, d) && d !in Listed(g, v, c) <==> PassedOver(g, v, c, d) {
        UnlistedNeed(g, v, c, d);
      }
      assert forall d :: PassedOver(g, v, c, d) ==> Needs(g, v, c, d) && d !in Carried(g, v, c);
    }
  }

  /** With a truthful record, a device is passed over only when the key is made anew. */
  lemma PassedOverOnlyIfRemade(g: Group, v: State, c: Conditions, d: Device)
    requires TruthfulFor(g, v, d) && PassedOver(g, v, c, d)
    ensures Remade(g, v, c)
  {
  }

  /** Marks that cannot be read stay for the next send. */
  lemma UnreadMarksStay(g: Group, v: State, c: Conditions)
    ensures Next(g, v, c).marks == if c.marksRead then [] else v.marks
  {
  }

  /**
   A send uses up the marks it reads, whatever becomes of it, and honours one exactly when the
   stanza goes out, does not miss the device, and is selective with a mark that reads back or a
   device that is new, or is a full distribution to a group the device is in.
   */
  lemma MarkHonoured(g: Group, v: State, c: Conditions, d: Device)
    requires d in v.marks && c.marksRead
    ensures d !in Next(g, v, c).marks
    ensures Gives(g, v, c, d) <==>
      && !Misses(c, d)
      && match c.preparation
         case Prepared =>
           if ForceSkdm(c) then d in c.devices && !g.excluded(d)
           else Selective(v, c) && (g.parses(d) || (d in c.devices && d !in v.recorded))
         case NoSenderKey => c.retryPrepared && d in c.devices && !g.excluded(d)
         case _ => false
  {
    assert d in c.devices <==> d in SetOf(c.devices);
  }
}
