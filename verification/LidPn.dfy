/**
 The two-way map between linked ids (LIDs) and phone numbers (PNs), and the two places that turn
 a JID into the address of a Signal session: when a message is received and when one is sent.
 Adds are sequential, as the source's two lock sections per add are not atomic together.
 */
module LidPn {
  import opened Bytes
  import opened Text

  const PN_SERVER: string := "s.whatsapp.net"
  const LID_SERVER: string := "lid"

  datatype Jid = Jid(user: string, server: string, agent: nat, device: nat, integrator: nat)

  datatype Entry = Entry(lid: string, phone: string, createdAt: int)

  // ----- what a sequence of adds means -----

  /** The entry for a phone: greatest timestamp, the last one among equals. */
  function Newest(adds: seq<Entry>, phone: string): Option<Entry> {
    if adds == [] then None
    else
      var e := adds[|adds| - 1];
      var before := Newest(adds[..|adds| - 1], phone);
      if e.phone == phone && (before.None? || before.value.createdAt <= e.createdAt) then Some(e) else before
  }

  /** The entry for a LID: the last one added. */
  function Latest(adds: seq<Entry>, lid: string): Option<Entry> {
    if adds == [] then None
    else if adds[|adds| - 1].lid == lid then Some(adds[|adds| - 1])
    else Latest(adds[..|adds| - 1], lid)
  }

  lemma Snoc(adds: seq<Entry>, e: Entry)
    ensures (adds + [e])[..|adds|] == adds && (adds + [e])[|adds|] == e
  {
  }

  /** Add `k` is for the phone, none is more recent, and later ones are older. */
  predicate IsNewest(adds: seq<Entry>, phone: string, k: nat) {
    && k < |adds| && adds[k].phone == phone
    && (forall i :: 0 <= i < |adds| && adds[i].phone == phone ==> adds[i].createdAt <= adds[k].createdAt)
    && (forall i :: k < i < |adds| && adds[i].phone == phone ==> adds[i].createdAt < adds[k].createdAt)
  }

  lemma IsNewestStep(adds: seq<Entry>, phone: string, k: nat)
    requires adds != [] && IsNewest(adds[..|adds| - 1], phone, k)
    ensures var n := |adds| - 1;
      IsNewest(adds, phone, if adds[n].phone == phone && adds[k].createdAt <= adds[n].createdAt then n else k)
  {
    var n := |adds| - 1;
    assert forall i :: 0 <= i < n ==> adds[..n][i] == adds[i];
  }

  /** `Newest` is the one add for the phone with the greatest timestamp and then position. */
  lemma {:induction false} NewestIs(adds: seq<Entry>, phone: string) returns (k: nat)
    ensures Newest(adds, phone).None? <==> forall i :: 0 <= i < |adds| ==> adds[i].phone != phone
    ensures Newest(adds, phone).Some? ==> IsNewest(adds, phone, k) && Newest(adds, phone) == Some(adds[k])
  {
    k := 0;
    if adds == [] {
    } else {
      var n := |adds| - 1;
      var before := adds[..n];
      k := NewestIs(before, phone);
      assert forall i :: 0 <= i < n ==> before[i] == adds[i];
      if Newest(before, phone).Some? {
        IsNewestStep(adds, phone, k);
        k := if adds[n].phone == phone && adds[k].createdAt <= adds[n].createdAt then n else k;
      } else {
        k := n;
      }
    }
  }

  /** `Latest` is the add for the LID after which there is no other. */
  lemma {:induction false} LatestIs(adds: seq<Entry>, lid: string) returns (k: nat)
    ensures Latest(adds, lid).None? <==> forall i :: 0 <= i < |adds| ==> adds[i].lid != lid
    ensures Latest(adds, lid).Some? ==>
      && k < |adds| && Latest(adds, lid) == Some(adds[k]) && adds[k].lid == lid
      && forall i :: k < i < |adds| ==> adds[i].lid != lid
  {
    k := 0;
    if adds == [] {
    } else {
      var n := |adds| - 1;
      var before := adds[..n];
      k := LatestIs(before, lid);
      assert forall i :: 0 <= i < n ==> before[i] == adds[i];
      if adds[n].lid == lid {
        k := n;
      }
    }
  }

  /** The two maps agree: the phone of a LID's entry has an entry at least as recent. */
  lemma CrossMaps(adds: seq<Entry>, lid: string)
    requires Latest(adds, lid).Some?
    ensures var e := Latest(adds, lid).value;
      Newest(adds, e.phone).Some? && e.createdAt <= Newest(adds, e.phone).value.createdAt
  {
    var k := LatestIs(adds, lid);
    var m := NewestIs(adds, adds[k].phone);
  }

  /** When no LID is ever added for two phones, mapping a phone to its LID and back gives the phone. */
  lemma LidRoundTrip(adds: seq<Entry>, phone: string)
    requires forall i, j :: 0 <= i < |adds| && 0 <= j < |adds| && adds[i].lid == adds[j].lid ==> adds[i].phone == adds[j].phone
    requires Newest(adds, phone).Some?
    ensures var lid := Newest(adds, phone).value.lid;
      Latest(adds, lid).Some? && Latest(adds, lid).value.phone == phone
  {
    var k := NewestIs(adds, phone);
    var m := LatestIs(adds, adds[k].lid);
  }

  // ----- the cache -----

  class LidPnCache {
    var lidToEntry: map<string, Entry>
    var pnToEntry: map<string, Entry>
    /** The adds since the cache was created or cleared. */
    ghost var adds: seq<Entry>

    ghost predicate Valid()
      reads this
    {
      && (forall lid :: lid in lidToEntry <==> Latest(adds, lid).Some?)
      && (forall lid :: lid in lidToEntry ==> Latest(adds, lid) == Some(lidToEntry[lid]))
      && (forall phone :: phone in pnToEntry <==> Newest(adds, phone).Some?)
      && (forall phone :: phone in pnToEntry ==> Newest(adds, phone) == Some(pnToEntry[phone]))
    }

    constructor ()
      ensures Valid() && adds == []
    {
      lidToEntry, pnToEntry, adds := map[], map[], [];
    }

    method GetCurrentLid(phone: string) returns (r: Option<string>)
      requires Valid()
      ensures r == CurrentLid(adds, phone)
    {
      if phone in pnToEntry {
        return Some(pnToEntry[phone].lid);
      }
      return None;
    }

    method GetPhoneNumber(lid: string) returns (r: Option<string>)
      requires Valid()
      ensures r == if Latest(adds, lid).Some? then Some(Latest(adds, lid).value.phone) else None
    {
      if lid in lidToEntry {
        return Some(lidToEntry[lid].phone);
      }
      return None;
    }

    /** Always updates the LID map; updates the PN map unless it holds a newer entry. */
    method Add(entry: Entry)
      requires Valid()
      modifies this
      ensures Valid() && adds == old(adds) + [entry]
    {
      var shouldUpdatePn := entry.phone !in pnToEntry || pnToEntry[entry.phone].createdAt <= entry.createdAt;
      Snoc(adds, entry);
      lidToEntry := lidToEntry[entry.lid := entry];
      if shouldUpdatePn {
        pnToEntry := pnToEntry[entry.phone := entry];
      }
      adds := adds + [entry];
    }

    method WarmUp(entries: seq<Entry>)
      requires Valid()
      modifies this
      ensures Valid() && adds == old(adds) + entries
    {
      Nil(adds);
      for i := 0 to |entries|
        invariant Valid() && adds == old(adds) + entries[..i]
      {
        assert entries[..i + 1] == entries[..i] + [entries[i]];
        Assoc(old(adds), entries[..i], [entries[i]]);
        Add(entries[i]);
      }
      assert entries[..|entries|] == entries;
    }

    method Clear()
      modifies this
      ensures Valid() && adds == []
    {
      lidToEntry := map[];
      pnToEntry := map[];
      adds := [];
    }

    /** The address used for a message to `target`. */
    method ResolveEncryptionJid(target: Jid) returns (r: Jid)
      requires Valid()
      ensures r == SendAddress(adds, target)
    {
      if target.server == LID_SERVER {
        return target;
      } else if target.server == PN_SERVER {
        var lidUser := GetCurrentLid(target.user);
        if lidUser.Some? {
          return Jid(lidUser.value, LID_SERVER, target.agent, target.device, target.integrator);
        }
        return target;
      } else {
        return target;
      }
    }

    /** The address used to decrypt a message from `sender`; learns the mapping it carries. */
    method ReceiveEncryptionJid(sender: Jid, alt: Option<Jid>, now: int) returns (r: Jid)
      requires Valid()
      modifies this
      ensures Valid() && adds == old(adds) + Learned(sender, alt, now)
      ensures r == ReceiveAddress(old(adds), sender, alt)
    {
      Nil(adds);
      if sender.server == LID_SERVER {
        if alt.Some? && alt.value.server == PN_SERVER {
          Add(Entry(sender.user, alt.value.user, now));
        }
        return sender;
      } else if sender.server == PN_SERVER {
        if alt.Some? && alt.value.server == LID_SERVER {
          Add(Entry(alt.value.user, sender.user, now));
          return Jid(alt.value.user, LID_SERVER, sender.agent, sender.device, sender.integrator);
        }
        var lidUser := GetCurrentLid(sender.user);
        if lidUser.Some? {
          return Jid(lidUser.value, LID_SERVER, sender.agent, sender.device, sender.integrator);
        }
        return sender;
      } else {
        return sender;
      }
    }

    /** Addresses for session establishment, one per JID. */
    method ResolveLidMappings(jids: seq<Jid>) returns (resolved: seq<Jid>)
      requires Valid()
      ensures |resolved| == |jids|
      ensures forall i :: 0 <= i < |jids| ==> resolved[i] == SessionAddress(adds, jids[i])
    {
      resolved := [];
      for i := 0 to |jids|
        invariant |resolved| == i
        invariant forall j :: 0 <= j < i ==> resolved[j] == SessionAddress(adds, jids[j])
      {
        var jid := jids[i];
        if jid.server != PN_SERVER && jid.server != LID_SERVER {
          resolved := resolved + [jid];
        } else if jid.server == LID_SERVER {
          resolved := resolved + [jid];
        } else {
          var lidUser := GetCurrentLid(jid.user);
          if lidUser.Some? {
            resolved := resolved + [Jid(lidUser.value, LID_SERVER, 0, jid.device, 0)];
          } else {
            resolved := resolved + [jid];
          }
        }
      }
    }
  }

  function CurrentLid(adds: seq<Entry>, phone: string): Option<string> {
    if Newest(adds, phone).Some? then Some(Newest(adds, phone).value.lid) else None
  }

  function OnLid(j: Jid, lid: string): Jid {
    j.(user := lid, server := LID_SERVER)
  }

  function SendAddress(adds: seq<Entry>, target: Jid): Jid {
    if target.server == PN_SERVER && CurrentLid(adds, target.user).Some?
    then OnLid(target, CurrentLid(adds, target.user).value)
    else target
  }

  /** The mapping a message teaches: its sender and the sender's other address. */
  function Learned(sender: Jid, alt: Option<Jid>, now: int): seq<Entry> {
    if alt.None? then []
    else if sender.server == LID_SERVER && alt.value.server == PN_SERVER then [Entry(sender.user, alt.value.user, now)]
    else if sender.server == PN_SERVER && alt.value.server == LID_SERVER then [Entry(alt.value.user, sender.user, now)]
    else []
  }

  function ReceiveAddress(adds: seq<Entry>, sender: Jid, alt: Option<Jid>): Jid {
    if sender.server == PN_SERVER && alt.Some? && alt.value.server == LID_SERVER
    then OnLid(sender, alt.value.user)
    else SendAddress(adds, sender)
  }

  function SessionAddress(adds: seq<Entry>, jid: Jid): Jid {
    if jid.server == PN_SERVER && CurrentLid(adds, jid.user).Some?
    then Jid(CurrentLid(adds, jid.user).value, LID_SERVER, 0, jid.device, 0)
    else jid
  }

  // ----- addresses of Signal sessions -----

  function DevicePart(device: nat): string {
    if device == 0 then "" else ":" + Decimal(device)
  }

  /** The name a session and its lock are kept under; agent and integrator have no part in it. */
  function SignalAddress(j: Jid): string {
    j.user + (DevicePart(j.device) + "@" + if j.server == PN_SERVER then "c.us" else j.server)
  }

  lemma DevicePartInjective(a: nat, b: nat)
    ensures DevicePart(a) == DevicePart(b) <==> a == b
  {
    if a != 0 && b != 0 && DevicePart(a) == DevicePart(b) {
      SplitSum(":", Decimal(a));
      SplitSum(":", Decimal(b));
      DecimalInjective(a, b);
    }
  }

  /** Only the user differs. */
  lemma SameButUser(j: Jid, a: string, b: string)
    ensures SignalAddress(OnLid(j, a)) == SignalAddress(OnLid(j, b)) <==> a == b
  {
    var tail := DevicePart(j.device) + "@" + LID_SERVER;
    if a + tail == b + tail {
      assert |a + tail| == |a| + |tail| && |b + tail| == |b| + |tail|;
      SplitSum(a, tail);
      SplitSum(b, tail);
    }
  }

  /** Only the device differs. */
  lemma SameButDevice(a: Jid, b: Jid)
    requires a.user == b.user && a.server == b.server == LID_SERVER
    ensures SignalAddress(a) == SignalAddress(b) <==> a.device == b.device
  {
    var da, db := DevicePart(a.device), DevicePart(b.device);
    if SignalAddress(a) == SignalAddress(b) {
      SplitSum(a.user, da + "@" + LID_SERVER);
      SplitSum(b.user, db + "@" + LID_SERVER);
      assert |da + "@" + LID_SERVER| == |da| + 1 + |LID_SERVER| && |db + "@" + LID_SERVER| == |db| + 1 + |LID_SERVER|;
      SplitSum(da, "@" + LID_SERVER);
      SplitSum(db, "@" + LID_SERVER);
      Assoc(da, "@", LID_SERVER);
      Assoc(db, "@", LID_SERVER);
      DevicePartInjective(a.device, b.device);
    }
  }

  // ----- sending and receiving agree -----

  /** The condition on the cache before the message: nothing newer says otherwise. */
  predicate NotOutdated(adds: seq<Entry>, lid: string, phone: string, now: int) {
    var e := Newest(adds, phone);
    e.None? || e.value.createdAt <= now || e.value.lid == lid
  }

  predicate Teaches(sender: Jid, alt: Option<Jid>) {
    alt.Some? &&
    ((sender.server == LID_SERVER && alt.value.server == PN_SERVER) ||
     (sender.server == PN_SERVER && alt.value.server == LID_SERVER))
  }

  lemma NewestAfter(adds: seq<Entry>, e: Entry)
    ensures NotOutdated(adds, e.lid, e.phone, e.createdAt) <==> CurrentLid(adds + [e], e.phone) == Some(e.lid)
  {
    Snoc(adds, e);
  }

  /**
   Right after a message has been processed, sending to its sender uses the address it was
   decrypted under, exactly when the mapping it carries is not overruled by a newer entry.
   */
  lemma SendMatchesReceive(adds: seq<Entry>, sender: Jid, alt: Option<Jid>, now: int)
    ensures SignalAddress(SendAddress(adds + Learned(sender, alt, now), sender))
         == SignalAddress(ReceiveAddress(adds, sender, alt))
       <==> (sender.server == PN_SERVER && Teaches(sender, alt) ==>
              NotOutdated(adds, alt.value.user, sender.user, now))
    ensures SignalAddress(SendAddress(adds + Learned(sender, alt, now), sender))
         == SignalAddress(ReceiveAddress(adds, sender, alt))
       <==> SendAddress(adds + Learned(sender, alt, now), sender) == ReceiveAddress(adds, sender, alt)
  {
    Nil(adds);
    if sender.server == PN_SERVER && Teaches(sender, alt) {
      var e := Entry(alt.value.user, sender.user, now);
      NewestAfter(adds, e);
      Snoc(adds, e);
      SameButUser(sender, CurrentLid(adds + [e], sender.user).value, alt.value.user);
    }
  }

  /** A newer entry for the phone, as a stored mapping may be, keeps the two apart. */
  lemma NewerEntryOverrules(phone: string, device: nat, lid: string, other: string, now: int)
    requires lid != other
    ensures var sender, alt := Jid(phone, PN_SERVER, 0, device, 0), Some(Jid(lid, LID_SERVER, 0, device, 0));
      var adds := [Entry(other, phone, now + 1)];
      && SignalAddress(SendAddress(adds + Learned(sender, alt, now), sender))
      != SignalAddress(ReceiveAddress(adds, sender, alt))
  {
    var sender, alt := Jid(phone, PN_SERVER, 0, device, 0), Some(Jid(lid, LID_SERVER, 0, device, 0));
    var e := Entry(other, phone, now + 1);
    assert [e][..0] == [];
    assert Newest([e], phone) == Some(e);
    SendMatchesReceive([e], sender, alt, now);
  }

  /** With timestamps that never decrease, sending and receiving always agree. */
  lemma AgreeWithClock(adds: seq<Entry>, sender: Jid, alt: Option<Jid>, now: int)
    requires forall i :: 0 <= i < |adds| ==> adds[i].createdAt <= now
    ensures SendAddress(adds + Learned(sender, alt, now), sender) == ReceiveAddress(adds, sender, alt)
  {
    var k := NewestIs(adds, sender.user);
    SendMatchesReceive(adds, sender, alt, now);
  }

  /**
   After a LID message with a PN alternate, the PN resolves to the LID, exactly when no newer
   entry overrules it; it then names the session the message came in on exactly when it names
   the same device.
   */
  lemma PnFollowsLid(adds: seq<Entry>, sender: Jid, alt: Jid, now: int)
    requires sender.server == LID_SERVER && alt.server == PN_SERVER
    ensures SendAddress(adds + Learned(sender, Some(alt), now), alt) == OnLid(alt, sender.user)
       <==> NotOutdated(adds, sender.user, alt.user, now)
    ensures NotOutdated(adds, sender.user, alt.user, now) ==>
      (SignalAddress(SendAddress(adds + Learned(sender, Some(alt), now), alt))
        == SignalAddress(ReceiveAddress(adds, sender, Some(alt)))
       <==> alt.device == sender.device)
  {
    NewestAfter(adds, Entry(sender.user, alt.user, now));
    SameButDevice(OnLid(alt, sender.user), sender);
  }

  /** Session establishment, which rebuilds the JID without agent and integrator, names the session of the send path. */
  lemma SessionMatchesSend(adds: seq<Entry>, jid: Jid)
    ensures SignalAddress(SessionAddress(adds, jid)) == SignalAddress(SendAddress(adds, jid))
  {
  }

  /** So a session established for the sender of a message is the one it was decrypted on, under the same condition. */
  lemma SessionMatchesReceive(adds: seq<Entry>, sender: Jid, alt: Option<Jid>, now: int)
    ensures SignalAddress(SessionAddress(adds + Learned(sender, alt, now), sender))
         == SignalAddress(ReceiveAddress(adds, sender, alt))
       <==> (sender.server == PN_SERVER && Teaches(sender, alt) ==>
              NotOutdated(adds, alt.value.user, sender.user, now))
  {
    SessionMatchesSend(adds + Learned(sender, alt, now), sender);
    SendMatchesReceive(adds, sender, alt, now);
  }

  /** User, device unless it is 0, and server, phones being on `c.us`. */
  lemma AddressMeaning(j: Jid)
    ensures j.server == "s.whatsapp.net" && j.device == 0 ==> SignalAddress(j) == j.user + "@c.us"
    ensures j.server == "lid" && j.device == 0 ==> SignalAddress(j) == j.user + "@lid"
    ensures j.server == "lid" && j.device != 0 ==> SignalAddress(j) == j.user + ":" + Decimal(j.device) + "@lid"
  {
    Nil("@c.us");
    Nil("@lid");
    if j.server == "lid" && j.device != 0 {
      Assoc(j.user, ":" + Decimal(j.device), "@" + "lid");
      Assoc(j.user, ":", Decimal(j.device));
      Assoc(":" + Decimal(j.device), "@", "lid");
    }
  }

  /** A phone that is not mapped shares its session with no LID, whatever their names. */
  lemma PhoneApartFromLids(adds: seq<Entry>, phone: Jid, lid: Jid)
    requires phone.server == PN_SERVER && CurrentLid(adds, phone.user).None? && lid.server == LID_SERVER
    ensures SignalAddress(SendAddress(adds, phone)) != SignalAddress(SendAddress(adds, lid))
  {
    var a, b := SignalAddress(phone), SignalAddress(lid);
    assert a[|a| - 1] == 's' && b[|b| - 1] == 'd';
  }
}
