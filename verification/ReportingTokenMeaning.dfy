/**
 What extraction does to a message, told on fields as the Protocol Buffers Encoding document lays
 them out (section "Message Structure"), with wire types, sizes and field numbers written out. A
 field contributes its own bytes, or its nested extraction under a new length, or nothing; the
 contributions are put in order of field number and, for equal numbers, of the input.
 */
module ReportingTokenMeaning {
  import opened Bytes
  import opened ReportingToken
  import opened ReportingTokenProofs
  import Varint

  // ----- fields on the wire -----

  /** A tag and the bytes of its varint, those of the length if there is one, and the value. */
  datatype WireField = WireField(tag: nat, key: bytes, size: bytes, value: bytes)

  /** The whole of `s` is one varint with value `v`. */
  predicate IsVarint(s: bytes, v: nat) {
    Varint.Decode(s) == Some((v, |s|))
  }

  predicate WellFormed(f: WireField) {
    && IsVarint(f.key, f.tag)
    && (if f.tag % 8 == 0 then f.size == [] && Varint.Decode(f.value).Some? && Varint.Decode(f.value).value.1 == |f.value|
        else if f.tag % 8 == 1 then f.size == [] && |f.value| == 8
        else if f.tag % 8 == 2 then IsVarint(f.size, |f.value|)
        else f.tag % 8 == 5 && f.size == [] && |f.value| == 4)
  }

  function Raw(f: WireField): bytes {
    f.key + f.size + f.value
  }

  function FieldNumber(f: WireField): nat {
    f.tag / 8 % 0x1_0000_0000
  }

  /** What can follow the last complete field: bytes that are no field. */
  predicate BadTail(d: bytes) {
    d != [] &&
    match Varint.Decode(d)
    case None => true
    case Some((tag, t)) =>
      tag % 8 == 3 || tag % 8 == 4 || tag % 8 == 6 || tag % 8 == 7 ||
      ((tag % 8 == 0 || tag % 8 == 2) && Varint.Decode(d[t..]).None?)
  }

  /** Or the beginning of a field. */
  predicate CutTail(d: bytes) {
    d != [] &&
    match Varint.Decode(d)
    case None => false
    case Some((tag, t)) =>
      || (tag % 8 == 1 && |d| < t + 8)
      || (tag % 8 == 5 && |d| < t + 4)
      || (tag % 8 == 2 && Varint.Decode(d[t..]).Some? &&
          |d| < t + Varint.Decode(d[t..]).value.1 + Varint.Decode(d[t..]).value.0)
  }

  lemma TailMeaning(d: bytes)
    ensures BadTail(d) <==> Malformed(d)
    ensures d == [] || BadTail(d) || CutTail(d) <==> Stops(d)
    ensures !(BadTail(d) && CutTail(d))
  {
  }

  lemma VarintThenMore(s: bytes, v: nat, more: bytes)
    requires IsVarint(s, v)
    ensures Varint.Decode(s + more) == Some((v, |s|))
  {
    Varint.DecodeLocal(s, more);
    assert s[..|s|] == s;
  }

  /** The value of a length-delimited field is read as its payload. */
  function Payload(f: WireField): bytes {
    if f.tag % 8 == 2 then f.value else []
  }

  lemma TaggedWire(f: WireField, d: bytes, s: bytes)
    requires WellFormed(f) && d == f.key + (f.size + (f.value + s))
    ensures Tagged(d, f.tag, |f.key|) == One(Field(f.tag, Raw(f), Payload(f)))
  {
    var t, n := |f.key|, |f.size| + |f.value|;
    SplitSum(f.key, f.size + (f.value + s));
    assert d[..t + n] == Raw(f);
    if f.tag % 8 == 0 {
      VarintThenMore(f.value, Varint.Decode(f.value).value.0, s);
      Nil(f.value + s);
    } else if f.tag % 8 == 2 {
      VarintThenMore(f.size, |f.value|, f.value + s);
      assert d[t + |f.size|..t + n] == f.value;
    }
  }

  /** A well-formed field is read as such, whatever follows it. */
  lemma NextWire(f: WireField, s: bytes)
    requires WellFormed(f)
    ensures Next(Raw(f) + s) == One(Field(f.tag, Raw(f), Payload(f)))
  {
    var d := f.key + (f.size + (f.value + s));
    assert d == Raw(f) + s;
    VarintThenMore(f.key, f.tag, f.size + (f.value + s));
    TaggedWire(f, d, s);
  }

  lemma WireComplete(f: WireField)
    requires WellFormed(f)
    ensures Next(Raw(f)) == One(Field(f.tag, Raw(f), Payload(f))) && Complete(Raw(f))
  {
    NextWire(f, []);
    Nil(Raw(f));
  }

  lemma DecodePrefix(d: bytes)
    requires Varint.Decode(d).Some?
    ensures IsVarint(d[..Varint.Decode(d).value.1], Varint.Decode(d).value.0)
  {
    var n := Varint.Decode(d).value.1;
    Varint.DecodeLocal(d, []);
    Nil(d[..n]);
  }

  /** And every complete field is one of these. */
  lemma WireOf(x: bytes) returns (f: WireField)
    requires Complete(x)
    ensures WellFormed(f) && Raw(f) == x
  {
    var (tag, t) := Varint.Decode(x).value;
    DecodePrefix(x);
    SplitAt(x, t);
    if tag % 8 == 2 {
      var (len, k) := Varint.Decode(x[t..]).value;
      DecodePrefix(x[t..]);
      f := WireField(tag, x[..t], x[t..][..k], x[t..][k..]);
      SplitAt(x[t..], k);
      Assoc(x[..t], x[t..][..k], x[t..][k..]);
    } else {
      f := WireField(tag, x[..t], [], x[t..]);
      Nil(x[..t]);
      if tag % 8 == 0 {
        DecodePrefix(x[t..]);
        assert x[t..][..|x| - t] == x[t..];
      }
    }
  }

  // ----- what a field contributes -----

  /** The whitelist entry that counts is the first with the number. */
  lemma {:induction false} LookupMeaning(w: seq<ReportingField>, j: nat)
    requires j < |w| && forall i :: 0 <= i < j ==> w[i].fieldNumber != w[j].fieldNumber
    ensures Lookup(w, w[j].fieldNumber) == Some(w[j])
    decreases j
  {
    if j == 0 {
    } else {
      LookupMeaning(w[1..], j - 1);
    }
  }

  lemma {:induction false} LookupNone(w: seq<ReportingField>, k: nat)
    ensures Lookup(w, k).None? <==> forall j :: 0 <= j < |w| ==> w[j].fieldNumber != k
  {
    if w == [] {
    } else {
      LookupNone(w[1..], k);
      assert forall j :: 0 < j < |w| ==> w[j] == w[1..][j - 1];
    }
  }

  /**
   Nothing if its number is not listed; its own bytes if it is not length-delimited or the entry
   says nothing about its inside; else what its inside gives, under its tag and the new length.
   */
  function Output(f: WireField, w: seq<ReportingField>, top: seq<ReportingField>): Option<bytes> {
    match Lookup(w, FieldNumber(f))
    case None => None
    case Some(e) =>
      if f.tag % 8 != 2 || (!e.isMessage && e.subfields.None?) then Some(Raw(f))
      else
        match Extract(f.value, if e.isMessage then top else e.subfields.value, top)
        case None => None
        case Some(nested) => Some(Varint.Encode(f.tag) + Varint.Encode(|nested|) + nested)
  }

  lemma KeptMeaning(f: WireField, w: seq<ReportingField>, top: seq<ReportingField>)
    requires WellFormed(f)
    ensures Kept(Raw(f), w, top) ==
      if Output(f, w, top).Some? then [Item(FieldNumber(f), Output(f, w, top).value)] else []
  {
    WireComplete(f);
    var e := Lookup(w, FieldNumber(f));
    if e.Some? && f.tag % 8 == 2 && (e.value.isMessage || e.value.subfields.Some?) {
      ExtractSize(f.value, if e.value.isMessage then top else e.value.subfields.value, top);
    }
  }

  // ----- several fields -----

  function Raws(fs: seq<WireField>): seq<bytes> {
    seq(|fs|, i requires 0 <= i < |fs| => Raw(fs[i]))
  }

  predicate AllWellFormed(fs: seq<WireField>) {
    forall i :: 0 <= i < |fs| ==> WellFormed(fs[i])
  }

  /** Field `i` contributes. */
  predicate Counts(fs: seq<WireField>, i: nat, w: seq<ReportingField>, top: seq<ReportingField>) {
    i < |fs| && Output(fs[i], w, top).Some?
  }

  function NumberAt(fs: seq<WireField>, i: nat): nat {
    if i < |fs| then FieldNumber(fs[i]) else 0
  }

  /** Field `i` comes before field `j` in the result. */
  predicate Precedes(fs: seq<WireField>, i: nat, j: nat) {
    && i < |fs| && j < |fs|
    && (FieldNumber(fs[i]) < FieldNumber(fs[j]) || (FieldNumber(fs[i]) == FieldNumber(fs[j]) && i < j))
  }

  /** The contributing fields, each once, in the order of the result. */
  predicate InOrder(fs: seq<WireField>, order: seq<nat>, w: seq<ReportingField>, top: seq<ReportingField>) {
    && (forall i <- order :: Counts(fs, i, w, top))
    && (forall i :: 0 <= i < |fs| && Counts(fs, i, w, top) ==> i in order)
    && (forall a, b :: 0 <= a < b < |order| ==> Precedes(fs, order[a], order[b]))
  }

  function OutputAt(fs: seq<WireField>, i: nat, w: seq<ReportingField>, top: seq<ReportingField>): bytes {
    if Counts(fs, i, w, top) then Output(fs[i], w, top).value else []
  }

  function Outputs(fs: seq<WireField>, order: seq<nat>, w: seq<ReportingField>, top: seq<ReportingField>): seq<bytes> {
    seq(|order|, j requires 0 <= j < |order| => OutputAt(fs, order[j], w, top))
  }

  // The same as items of the extractor.

  function ItemAt(fs: seq<WireField>, i: nat, w: seq<ReportingField>, top: seq<ReportingField>): Item {
    Item(if i < |fs| then FieldNumber(fs[i]) else 0, OutputAt(fs, i, w, top))
  }

  function ItemsFor(fs: seq<WireField>, order: seq<nat>, w: seq<ReportingField>, top: seq<ReportingField>): seq<Item> {
    if order == [] then [] else [ItemAt(fs, order[0], w, top)] + ItemsFor(fs, order[1..], w, top)
  }

  lemma {:induction false} ItemsForAt(
      fs: seq<WireField>, order: seq<nat>, j: nat, w: seq<ReportingField>, top: seq<ReportingField>)
    requires j < |order|
    ensures |ItemsFor(fs, order, w, top)| == |order| && ItemsFor(fs, order, w, top)[j] == ItemAt(fs, order[j], w, top)
  {
    if |order| == 1 {
    } else {
      ItemsForAt(fs, order[1..], if j == 0 then 0 else j - 1, w, top);
    }
  }

  lemma {:induction false} ContentFor(
      fs: seq<WireField>, order: seq<nat>, w: seq<ReportingField>, top: seq<ReportingField>)
    ensures Content(ItemsFor(fs, order, w, top)) == Concat(Outputs(fs, order, w, top))
  {
    if order == [] {
    } else {
      ContentFor(fs, order[1..], w, top);
      assert Outputs(fs, order, w, top)[1..] == Outputs(fs, order[1..], w, top);
    }
  }

  /** The contributing fields from `i` on, in input order. */
  function CountingFrom(fs: seq<WireField>, i: nat, w: seq<ReportingField>, top: seq<ReportingField>): seq<nat>
    requires i <= |fs|
    decreases |fs| - i
  {
    if i == |fs| then []
    else (if Counts(fs, i, w, top) then [i] else []) + CountingFrom(fs, i + 1, w, top)
  }

  lemma {:induction false} CountingItems(fs: seq<WireField>, i: nat, w: seq<ReportingField>, top: seq<ReportingField>)
    requires AllWellFormed(fs) && i <= |fs|
    ensures ItemsOf(Raws(fs)[i..], w, top) == ItemsFor(fs, CountingFrom(fs, i, w, top), w, top)
    decreases |fs| - i
  {
    if i == |fs| {
    } else {
      CountingItems(fs, i + 1, w, top);
      KeptMeaning(fs[i], w, top);
      DropDrop(Raws(fs), i, 1);
      if Counts(fs, i, w, top) {
        TailOfSum([i], CountingFrom(fs, i + 1, w, top));
      } else {
        Nil(CountingFrom(fs, i + 1, w, top));
        Nil(ItemsFor(fs, CountingFrom(fs, i + 1, w, top), w, top));
      }
    }
  }

  predicate Increasing(s: seq<nat>) {
    forall a, b :: 0 <= a < b < |s| ==> s[a] < s[b]
  }

  lemma IncreasingCons(h: nat, rest: seq<nat>)
    requires Increasing(rest) && forall i <- rest :: h < i
    ensures Increasing([h] + rest)
  {
    var s := [h] + rest;
    assert forall b :: 0 < b < |s| ==> s[b] == rest[b - 1] && s[b] in rest;
  }

  lemma {:induction false} CountingMember(
      fs: seq<WireField>, i: nat, j: nat, w: seq<ReportingField>, top: seq<ReportingField>)
    requires i <= |fs|
    ensures j in CountingFrom(fs, i, w, top) <==> i <= j && Counts(fs, j, w, top)
    decreases |fs| - i
  {
    if i == |fs| {
    } else {
      CountingMember(fs, i + 1, j, w, top);
    }
  }

  lemma {:induction false} CountingIncreasing(fs: seq<WireField>, i: nat, w: seq<ReportingField>, top: seq<ReportingField>)
    requires i <= |fs|
    ensures Increasing(CountingFrom(fs, i, w, top))
    decreases |fs| - i
  {
    if i == |fs| {
    } else {
      var rest := CountingFrom(fs, i + 1, w, top);
      CountingIncreasing(fs, i + 1, w, top);
      forall j <- rest ensures i < j {
        CountingMember(fs, i + 1, j, w, top);
      }
      IncreasingCons(i, rest);
      Nil(rest);
    }
  }

  /** The indices of fields with number `k`, in the order given. */
  function Numbered(fs: seq<WireField>, order: seq<nat>, k: nat): seq<nat> {
    if order == [] then []
    else (if order[0] < |fs| && FieldNumber(fs[order[0]]) == k then [order[0]] else []) + Numbered(fs, order[1..], k)
  }

  lemma {:induction false} OnlyNumbered(
      fs: seq<WireField>, order: seq<nat>, k: nat, w: seq<ReportingField>, top: seq<ReportingField>)
    requires forall i <- order :: Counts(fs, i, w, top)
    ensures Only(ItemsFor(fs, order, w, top), k) == ItemsFor(fs, Numbered(fs, order, k), w, top)
  {
    if order == [] {
    } else {
      assert Counts(fs, order[0], w, top);
      var rest := ItemsFor(fs, order[1..], w, top);
      OnlyNumbered(fs, order[1..], k, w, top);
      TailOfSum([ItemAt(fs, order[0], w, top)], rest);
      TailOfSum([order[0]], Numbered(fs, order[1..], k));
      Nil(Numbered(fs, order[1..], k));
    }
  }

  lemma {:induction false} NumberedMember(fs: seq<WireField>, order: seq<nat>, k: nat, i: nat)
    ensures i in Numbered(fs, order, k) <==> i in order && i < |fs| && FieldNumber(fs[i]) == k
  {
    if order == [] {
    } else {
      NumberedMember(fs, order[1..], k, i);
      Cons(order);
    }
  }

  /** Fields with the same number are in input order. */
  predicate Stable(fs: seq<WireField>, order: seq<nat>) {
    forall a, b :: 0 <= a < b < |order| && NumberAt(fs, order[a]) == NumberAt(fs, order[b]) ==> order[a] < order[b]
  }

  lemma {:induction false} NumberedIncreasing(fs: seq<WireField>, order: seq<nat>, k: nat)
    requires Stable(fs, order)
    ensures Increasing(Numbered(fs, order, k))
  {
    if order == [] {
    } else {
      var h, tail := order[0], order[1..];
      var rest := Numbered(fs, tail, k);
      assert forall b :: 0 <= b < |tail| ==> tail[b] == order[b + 1];
      NumberedIncreasing(fs, tail, k);
      if h < |fs| && FieldNumber(fs[h]) == k {
        forall i <- rest ensures h < i {
          NumberedMember(fs, tail, k, i);
          var c :| 0 <= c < |tail| && tail[c] == i;
          assert order[c + 1] == i;
        }
        IncreasingCons(h, rest);
      } else {
        Nil(rest);
      }
    }
  }

  lemma EmptyIfEmpty(a: seq<nat>, b: seq<nat>)
    requires forall i: nat :: i in a ==> i in b
    ensures a != [] ==> b != []
  {
    assert a != [] ==> a[0] in a;
  }

  lemma FirstIsLeast(a: seq<nat>, b: seq<nat>)
    requires a != [] && b != [] && Increasing(a) && Increasing(b) && a[0] in b && b[0] in a
    ensures a[0] == b[0]
  {
  }

  lemma {:induction false} IncreasingUnique(a: seq<nat>, b: seq<nat>)
    requires Increasing(a) && Increasing(b) && forall i: nat :: i in a <==> i in b
    ensures a == b
  {
    EmptyIfEmpty(a, b);
    EmptyIfEmpty(b, a);
    if a == [] {
    } else {
      assert a[0] in a && b[0] in b;
      FirstIsLeast(a, b);
      forall i: nat ensures i in a[1..] <==> i in b[1..] {
        TailMember(a, i);
        TailMember(b, i);
      }
      IncreasingUnique(a[1..], b[1..]);
      Cons(a);
      Cons(b);
    }
  }

  lemma TailMember(s: seq<nat>, i: nat)
    requires s != [] && Increasing(s)
    ensures i in s[1..] <==> i in s && i != s[0]
  {
    Cons(s);
  }

  lemma SameOnly(fs: seq<WireField>, order: seq<nat>, k: nat, w: seq<ReportingField>, top: seq<ReportingField>)
    requires AllWellFormed(fs) && InOrder(fs, order, w, top)
    ensures Only(ItemsFor(fs, order, w, top), k) == Only(ItemsOf(Raws(fs), w, top), k)
  {
    var all := CountingFrom(fs, 0, w, top);
    assert Raws(fs)[0..] == Raws(fs);
    CountingItems(fs, 0, w, top);
    CountingIncreasing(fs, 0, w, top);
    forall i: nat ensures i in all <==> i in order {
      CountingMember(fs, 0, i, w, top);
    }
    OnlyNumbered(fs, order, k, w, top);
    OnlyNumbered(fs, all, k, w, top);
    NumberedIncreasing(fs, order, k);
    NumberedIncreasing(fs, all, k);
    forall i: nat ensures i in Numbered(fs, order, k) <==> i in Numbered(fs, all, k) {
      NumberedMember(fs, order, k, i);
      NumberedMember(fs, all, k, i);
    }
    IncreasingUnique(Numbered(fs, order, k), Numbered(fs, all, k));
  }

  lemma OrderSorted(fs: seq<WireField>, order: seq<nat>, w: seq<ReportingField>, top: seq<ReportingField>)
    requires InOrder(fs, order, w, top)
    ensures Sorted(ItemsFor(fs, order, w, top)) && |ItemsFor(fs, order, w, top)| == |order|
  {
    if order != [] {
      ItemsForAt(fs, order, 0, w, top);
    }
    forall j | 0 <= j < |order| ensures ItemsFor(fs, order, w, top)[j] == ItemAt(fs, order[j], w, top) {
      ItemsForAt(fs, order, j, w, top);
    }
  }

  /**
   The meaning of extraction: a message of well-formed fields, followed by nothing, by bytes that
   are no field, or by the beginning of one, gives no result if the bytes are no field or no field
   contributes, and else the contributions by field number, equal numbers in input order.
   */
  lemma ExtractFields(fs: seq<WireField>, tail: bytes, order: seq<nat>, w: seq<ReportingField>, top: seq<ReportingField>)
    requires AllWellFormed(fs) && (tail == [] || BadTail(tail) || CutTail(tail)) && InOrder(fs, order, w, top)
    ensures Extract(Concat(Raws(fs)) + tail, w, top)
         == if BadTail(tail) || order == [] then None else Some(Concat(Outputs(fs, order, w, top)))
  {
    TailMeaning(tail);
    forall i | 0 <= i < |fs| ensures Complete(Raws(fs)[i]) {
      WireComplete(fs[i]);
    }
    var t := ItemsFor(fs, order, w, top);
    OrderSorted(fs, order, w, top);
    forall k ensures Only(t, k) == Only(ItemsOf(Raws(fs), w, top), k) {
      SameOnly(fs, order, k, w, top);
    }
    SortIs(ItemsOf(Raws(fs), w, top), t);
    ExtractMeaning(Raws(fs), tail, t, w, top);
    ContentFor(fs, order, w, top);
    SortProperties(ItemsOf(Raws(fs), w, top));
    SameLength(ItemsOf(Raws(fs), w, top), t);
  }

  lemma SameLength(s: seq<Item>, t: seq<Item>)
    requires t == Sort(s) && multiset(t) == multiset(s)
    ensures s == [] <==> t == []
  {
    assert |multiset(s)| == |s| && |multiset(t)| == |t|;
  }

  /** Every input is such a message. */
  lemma {:induction false} SplitFields(d: bytes) returns (fs: seq<WireField>, tail: bytes)
    ensures d == Concat(Raws(fs)) + tail && AllWellFormed(fs) && (tail == [] || BadTail(tail) || CutTail(tail))
  {
    var xs;
    xs, tail := Split(d);
    TailMeaning(tail);
    fs := WiresOf(xs);
  }

  lemma RawsCons(f: WireField, rest: seq<WireField>)
    ensures Raws([f] + rest) == [Raw(f)] + Raws(rest)
  {
  }

  lemma {:induction false} WiresOf(xs: seq<bytes>) returns (fs: seq<WireField>)
    requires AllComplete(xs)
    ensures AllWellFormed(fs) && Raws(fs) == xs
  {
    if xs == [] {
      fs := [];
    } else {
      var f := WireOf(xs[0]);
      var rest := WiresOf(xs[1..]);
      fs := [f] + rest;
      RawsCons(f, rest);
      Cons(xs);
    }
  }

  /** And its contributing fields can be put in order. */
  lemma {:induction false} OrderFields(fs: seq<WireField>, w: seq<ReportingField>, top: seq<ReportingField>)
    returns (order: seq<nat>)
    ensures InOrder(fs, order, w, top)
  {
    order := OrderUpTo(fs, |fs|, w, top);
  }

  /** The contributing fields below `n` in order. */
  predicate InOrderUpTo(fs: seq<WireField>, n: nat, order: seq<nat>, w: seq<ReportingField>, top: seq<ReportingField>) {
    && (forall i <- order :: i < n && Counts(fs, i, w, top))
    && (forall i :: 0 <= i < n && Counts(fs, i, w, top) ==> i in order)
    && (forall a, b :: 0 <= a < b < |order| ==> Precedes(fs, order[a], order[b]))
  }

  lemma {:induction false} OrderUpTo(fs: seq<WireField>, n: nat, w: seq<ReportingField>, top: seq<ReportingField>)
    returns (order: seq<nat>)
    requires n <= |fs|
    ensures InOrderUpTo(fs, n, order, w, top)
    decreases n
  {
    if n == 0 {
      order := [];
    } else {
      var last := n - 1;
      order := OrderUpTo(fs, last, w, top);
      if Counts(fs, last, w, top) {
        order := PutLast(fs, last, n, order, w, top);
      }
    }
  }

  /** A field goes after all earlier ones whose number is not greater. */
  lemma PutLast(
      fs: seq<WireField>, n: nat, after: nat, order: seq<nat>, w: seq<ReportingField>, top: seq<ReportingField>)
    returns (more: seq<nat>)
    requires after == n + 1 && InOrderUpTo(fs, n, order, w, top) && Counts(fs, n, w, top)
    ensures InOrderUpTo(fs, after, more, w, top)
  {
    var p: nat := |order|;
    while p > 0 && NumberAt(fs, order[p - 1]) > NumberAt(fs, n)
      invariant p <= |order|
      invariant forall j :: p <= j < |order| ==> NumberAt(fs, order[j]) > NumberAt(fs, n)
    {
      p := p - 1;
    }
    more := order[..p] + [n] + order[p..];
    Placed(fs, n, order, p, more);
    assert forall i: nat :: i in more <==> i in order || i == n by {
      SplitAt(order, p);
    }
  }

  lemma Placed(fs: seq<WireField>, n: nat, order: seq<nat>, p: nat, more: seq<nat>)
    requires n < |fs| && p <= |order| && more == order[..p] + [n] + order[p..]
    requires forall i <- order :: i < n
    requires forall a, b :: 0 <= a < b < |order| ==> Precedes(fs, order[a], order[b])
    requires p > 0 ==> NumberAt(fs, order[p - 1]) <= NumberAt(fs, n)
    requires forall j :: p <= j < |order| ==> NumberAt(fs, order[j]) > NumberAt(fs, n)
    ensures forall a, b :: 0 <= a < b < |more| ==> Precedes(fs, more[a], more[b])
  {
    assert forall j :: 0 <= j < |order| ==> order[j] in order;
    forall j | 0 <= j < p ensures Precedes(fs, order[j], n) {
      if j < p - 1 {
        assert Precedes(fs, order[j], order[p - 1]);
      }
    }
    forall a, b | 0 <= a < b < |more| ensures Precedes(fs, more[a], more[b]) {
      if b < p {
        assert more[a] == order[a] && more[b] == order[b];
      } else if b == p {
        assert more[a] == order[a] && more[b] == n;
      } else if a == p {
        assert more[a] == n && more[b] == order[b - 1];
      } else {
        assert more[b] == order[b - 1] && more[a] == order[if a < p then a else a - 1];
      }
    }
  }

  /** A message of one field is that field's contribution. */
  lemma ExtractOne(f: WireField, w: seq<ReportingField>, top: seq<ReportingField>)
    requires WellFormed(f)
    ensures Extract(Raw(f), w, top) == Output(f, w, top)
  {
    assert Raws([f]) == [Raw(f)];
    ConcatOne(Raw(f));
    Nil(Raw(f));
    var out := Output(f, w, top);
    if out.Some? {
      ExtractFields([f], [], [0], w, top);
      assert Outputs([f], [0], w, top) == [out.value];
      ConcatOne(out.value);
    } else {
      ExtractFields([f], [], [], w, top);
    }
  }

  /** A length-delimited field with the shortest tag and length. */
  lemma NestWellFormed(tag: nat, m: bytes)
    requires tag < Varint.U64 && |m| < Varint.U64 && tag % 8 == 2
    ensures WellFormed(WireField(tag, Varint.Encode(tag), Varint.Encode(|m|), m))
    ensures Raw(WireField(tag, Varint.Encode(tag), Varint.Encode(|m|), m)) == Nest(tag, m)
  {
    Varint.RoundTrip(tag, []);
    Varint.RoundTrip(|m|, []);
    Nil(Varint.Encode(tag));
    Nil(Varint.Encode(|m|));
  }

  /** A listed field about whose inside the entry says nothing is kept as it is. */
  lemma ExtractPlain(tag: nat, m: bytes, w: seq<ReportingField>, top: seq<ReportingField>)
    requires tag < Varint.U64 && |m| < Varint.U64 && tag % 8 == 2
    requires Lookup(w, tag / 8 % 0x1_0000_0000).Some?
    requires var e := Lookup(w, tag / 8 % 0x1_0000_0000).value; !e.isMessage && e.subfields.None?
    ensures Extract(Nest(tag, m), w, top) == Some(Nest(tag, m))
  {
    NestWellFormed(tag, m);
    ExtractOne(WireField(tag, Varint.Encode(tag), Varint.Encode(|m|), m), w, top);
  }
}
