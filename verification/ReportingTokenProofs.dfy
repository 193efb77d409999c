/** What the extractor promises: size, idempotence, and dependence on the kept fields only. */
module ReportingTokenProofs {
  import opened Bytes
  import opened ReportingToken
  import Varint

  // ----- the stable sort -----

  predicate Sorted(s: seq<Item>) {
    forall i, j :: 0 <= i < j < |s| ==> s[i].number <= s[j].number
  }

  /** The items with number `k`, in order. */
  function Only(s: seq<Item>, k: nat): seq<Item> {
    if s == [] then []
    else if s[0].number == k then [s[0]] + Only(s[1..], k)
    else Only(s[1..], k)
  }

  lemma {:induction false} InsertMultiset(x: Item, s: seq<Item>)
    ensures multiset(Insert(x, s)) == multiset{x} + multiset(s)
  {
    if s == [] || s[0].number >= x.number {
    } else {
      InsertMultiset(x, s[1..]);
      Cons(s);
    }
  }

  lemma {:induction false} InsertSorted(x: Item, s: seq<Item>)
    requires Sorted(s)
    ensures Sorted(Insert(x, s))
  {
    if s == [] || s[0].number >= x.number {
      SortedCons(x, s);
    } else {
      var t := Insert(x, s[1..]);
      InsertSorted(x, s[1..]);
      InsertMultiset(x, s[1..]);
      HeadBelowInsert(s[0], x, s[1..], t);
      SortedCons(s[0], t);
    }
  }

  lemma HeadBelowInsert(h: Item, x: Item, s: seq<Item>, t: seq<Item>)
    requires h.number <= x.number && multiset(t) == multiset{x} + multiset(s)
    requires forall i :: 0 <= i < |s| ==> h.number <= s[i].number
    ensures forall i :: 0 <= i < |t| ==> h.number <= t[i].number
  {
    forall i | 0 <= i < |t| ensures h.number <= t[i].number {
      assert t[i] in multiset(t);
      assert t[i] == x || t[i] in s;
    }
  }

  lemma SortedCons(x: Item, s: seq<Item>)
    requires Sorted(s) && forall i :: 0 <= i < |s| ==> x.number <= s[i].number
    ensures Sorted([x] + s)
  {
  }

  /** Sorting gives an ordered permutation. */
  lemma {:induction false} SortProperties(s: seq<Item>)
    ensures Sorted(Sort(s))
    ensures multiset(Sort(s)) == multiset(s)
  {
    if s == [] {
    } else {
      SortProperties(s[1..]);
      InsertSorted(s[0], Sort(s[1..]));
      InsertMultiset(s[0], Sort(s[1..]));
      Cons(s);
    }
  }

  lemma {:induction false} OnlyInsert(x: Item, s: seq<Item>, k: nat)
    ensures Only(Insert(x, s), k) == if x.number == k then [x] + Only(s, k) else Only(s, k)
  {
    if s == [] || s[0].number >= x.number {
      SplitSum([x], s);
    } else {
      OnlyInsert(x, s[1..], k);
      SplitSum([s[0]], Insert(x, s[1..]));
    }
  }

  /** Sorting keeps the order of items with equal numbers. */
  lemma {:induction false} SortStable(s: seq<Item>, k: nat)
    ensures Only(Sort(s), k) == Only(s, k)
  {
    if s == [] {
    } else {
      SortStable(s[1..], k);
      OnlyInsert(s[0], Sort(s[1..]), k);
    }
  }

  lemma {:induction false} OnlyMember(s: seq<Item>, k: nat)
    ensures Only(s, k) != [] <==> exists i :: 0 <= i < |s| && s[i].number == k
  {
    if s == [] {
    } else {
      OnlyMember(s[1..], k);
      if s[0].number != k {
        if Only(s, k) != [] {
          var i :| 0 <= i < |s[1..]| && s[1..][i].number == k;
          assert s[i + 1].number == k;
        } else {
          forall i | 0 <= i < |s| ensures s[i].number != k {
            assert i == 0 || s[1..][i - 1] == s[i];
          }
        }
      }
    }
  }

  lemma HeadBelow(u: seq<Item>, v: seq<Item>)
    requires Sorted(u) && u != [] && v != []
    requires forall k :: Only(u, k) == Only(v, k)
    ensures u[0].number <= v[0].number
  {
    var k := v[0].number;
    assert Only(u, k) == Only(v, k);
    OnlyMember(u, k);
    OnlyMember(v, k);
  }

  lemma OnlyHead(s: seq<Item>)
    requires s != []
    ensures Only(s, s[0].number) != []
  {
  }

  /** An ordered sequence is determined by its per-number subsequences. */
  lemma {:induction false} SortedUnique(u: seq<Item>, v: seq<Item>)
    requires Sorted(u) && Sorted(v)
    requires forall k :: Only(u, k) == Only(v, k)
    ensures u == v
  {
    if u == [] {
      if v != [] {
        OnlyHead(v);
        assert false;
      }
    } else if v == [] {
      OnlyHead(u);
      assert false;
    } else {
      HeadBelow(u, v);
      HeadBelow(v, u);
      var n := u[0].number;
      assert Only(u, n) == Only(v, n);
      assert u[0] == Only(u, n)[0] == Only(v, n)[0] == v[0];
      forall k ensures Only(u[1..], k) == Only(v[1..], k) {
        assert Only(u, k) == Only(v, k);
        if k == n {
          assert Only(u[1..], k) == Only(u, k)[1..];
          assert Only(v[1..], k) == Only(v, k)[1..];
        }
      }
      SortedUnique(u[1..], v[1..]);
      Cons(u);
      Cons(v);
    }
  }

  /** `Sort` gives the one ordered sequence that keeps the order of equal numbers. */
  lemma SortIs(s: seq<Item>, t: seq<Item>)
    requires Sorted(t) && forall k :: Only(t, k) == Only(s, k)
    ensures Sort(s) == t
  {
    SortProperties(s);
    forall k ensures Only(Sort(s), k) == Only(t, k) {
      SortStable(s, k);
      assert Only(t, k) == Only(s, k);
    }
    SortedUnique(Sort(s), t);
  }

  lemma {:induction false} ContentInsert(x: Item, s: seq<Item>)
    ensures |Content(Insert(x, s))| == |x.content| + |Content(s)|
  {
    if s == [] || s[0].number >= x.number {
      SplitSum([x], s);
    } else {
      ContentInsert(x, s[1..]);
      SplitSum([s[0]], Insert(x, s[1..]));
    }
  }

  lemma {:induction false} ContentSort(s: seq<Item>)
    ensures |Content(Sort(s))| == |Content(s)|
  {
    if s == [] {
    } else {
      ContentSort(s[1..]);
      ContentInsert(s[0], Sort(s[1..]));
    }
  }

  lemma ContentCons(x: Item, s: seq<Item>)
    ensures Content([x] + s) == x.content + Content(s)
  {
    SplitSum([x], s);
  }

  // ----- size -----

  /** A length-delimited field takes at least the room of its shortest re-encoding. */
  lemma NextRoom(d: bytes)
    requires Next(d).One? && WireType(Next(d).field.tag) == LENGTH_DELIMITED
    ensures var f := Next(d).field; |Nest(f.tag, f.payload)| <= |f.raw|
  {
    Varint.EncodeMinimal(d);
    Varint.EncodeMinimal(d[Varint.Decode(d).value.1..]);
  }

  lemma {:induction false} RewriteSize(d: bytes, w: seq<ReportingField>, top: seq<ReportingField>)
    requires Next(d).One?
    ensures var f := Next(d).field;
      |Rewrite(f, w, top)| <= 1 &&
      forall x <- Rewrite(f, w, top) ::
        x.number == Number(f.tag) && 0 < |x.content| <= |f.raw|
    decreases |Next(d).field.payload|, 2
  {
    var f := Next(d).field;
    var e := Lookup(w, Number(f.tag));
    if e.Some? && WireType(f.tag) == LENGTH_DELIMITED && Inner(e.value, top).Some? {
      var inner := Inner(e.value, top).value;
      ExtractSize(f.payload, inner, top);
      if Extract(f.payload, inner, top).Some? {
        var nested := Extract(f.payload, inner, top).value;
        NextRoom(d);
        Varint.EncodeMonotone(|nested|, |f.payload|);
      }
    }
  }

  lemma {:induction false} CollectSize(d: bytes, w: seq<ReportingField>, top: seq<ReportingField>)
    ensures Collect(d, w, top).Some? ==>
      var items := Collect(d, w, top).value;
      |Content(items)| <= |d| && forall x <- items :: x.content != []
    decreases |d|, 0
  {
    if d == [] || !Next(d).One? || Collect(d, w, top).None? {
    } else {
      var f := Next(d).field;
      var rest := d[|f.raw|..];
      CollectSize(rest, w, top);
      RewriteSize(d, w, top);
      var r := Collect(rest, w, top).value;
      if Rewrite(f, w, top) == [] {
        Nil(r);
      } else {
        var x := Rewrite(f, w, top)[0];
        assert Rewrite(f, w, top) == [x];
        ContentCons(x, r);
      }
    }
  }

  /** Extracted content is never empty and never longer than its input, at every depth. */
  lemma {:induction false} ExtractSize(d: bytes, w: seq<ReportingField>, top: seq<ReportingField>)
    ensures Extract(d, w, top).Some? ==> 0 < |Extract(d, w, top).value| <= |d|
    decreases |d|, 1
  {
    CollectSize(d, w, top);
    match Collect(d, w, top)
    case None =>
    case Some(items) =>
      ContentSort(items);
      if items != [] {
        assert items[0] in items;
      }
  }

  // ----- idempotence -----

  lemma TaggedLocalVarint(d: bytes, s: bytes, tag: nat, t: nat)
    requires 0 < t <= |d| && Tagged(d, tag, t).One? && WireType(tag) == VARINT
    ensures Tagged(Tagged(d, tag, t).field.raw + s, tag, t) == Tagged(d, tag, t)
  {
    var raw := Tagged(d, tag, t).field.raw;
    var k := Varint.Decode(d[t..]).value.1;
    TakeOfSum(raw, s, t);
    assert raw[t..] == d[t..][..k];
    Varint.DecodeLocal(d[t..], s);
    SplitSum(raw, s);
  }

  lemma TaggedLocalLength(d: bytes, s: bytes, tag: nat, t: nat)
    requires 0 < t <= |d| && Tagged(d, tag, t).One? && WireType(tag) == LENGTH_DELIMITED
    ensures Tagged(Tagged(d, tag, t).field.raw + s, tag, t) == Tagged(d, tag, t)
  {
    var raw := Tagged(d, tag, t).field.raw;
    var e := raw + s;
    var (len, k) := Varint.Decode(d[t..]).value;
    assert e[t..] == d[t..][..k] + e[t + k..];
    Varint.DecodeLocal(d[t..], e[t + k..]);
    SplitSum(raw, s);
    assert e[t + k..|raw|] == d[t + k..|raw|];
  }

  lemma TaggedLocal(d: bytes, s: bytes, tag: nat, t: nat)
    requires 0 < t <= |d| && Tagged(d, tag, t).One?
    ensures Tagged(Tagged(d, tag, t).field.raw + s, tag, t) == Tagged(d, tag, t)
  {
    if WireType(tag) == VARINT {
      TaggedLocalVarint(d, s, tag, t);
    } else if WireType(tag) == LENGTH_DELIMITED {
      TaggedLocalLength(d, s, tag, t);
    } else {
      SplitSum(Tagged(d, tag, t).field.raw, s);
    }
  }

  /** Reading one field depends only on that field's bytes. */
  lemma NextLocal(d: bytes, s: bytes)
    requires Next(d).One?
    ensures Next(Next(d).field.raw + s) == Next(d)
  {
    var e := Next(d).field.raw + s;
    var (tag, t) := Varint.Decode(d).value;
    SplitAt(e, t);
    assert e[..t] == d[..t];
    Varint.DecodeLocal(d, e[t..]);
    TaggedLocal(d, s, tag, t);
  }

  lemma NextComplete(d: bytes)
    requires Next(d).One?
    ensures Complete(Next(d).field.raw)
  {
    NextLocal(d, []);
    Nil(Next(d).field.raw);
  }

  /** A rewritten field reads back as the same tag around the nested content. */
  lemma NextNest(tag: nat, nested: bytes)
    requires tag < Varint.U64 && |nested| < Varint.U64 && WireType(tag) == LENGTH_DELIMITED
    ensures Next(Nest(tag, nested)) == One(Field(tag, Nest(tag, nested), nested))
  {
    var e, a, b := Nest(tag, nested), Varint.Encode(tag), Varint.Encode(|nested|);
    Assoc(a, b, nested);
    Varint.RoundTrip(tag, b + nested);
    SplitSum(a, b + nested);
    Varint.RoundTrip(|nested|, nested);
    SplitSum(b, nested);
    DropDrop(e, |a|, |b|);
    assert e[..|e|] == e && e[|a| + |b|..|e|] == e[|a| + |b|..];
  }

  /** An item whose bytes read back as one field that is rewritten to the same item. */
  predicate Fixpoint(x: Item, w: seq<ReportingField>, top: seq<ReportingField>) {
    var s := Next(x.content);
    s.One? && s.field.raw == x.content && Rewrite(s.field, w, top) == [x]
  }

  lemma {:induction false} RewriteFixpoint(d: bytes, w: seq<ReportingField>, top: seq<ReportingField>)
    requires Next(d).One?
    ensures forall x <- Rewrite(Next(d).field, w, top) :: Fixpoint(x, w, top)
    decreases |Next(d).field.payload|, 2
  {
    var f := Next(d).field;
    var e := Lookup(w, Number(f.tag));
    if e.Some? {
      if WireType(f.tag) == LENGTH_DELIMITED && Inner(e.value, top).Some? {
        var inner := Inner(e.value, top).value;
        ExtractSize(f.payload, inner, top);
        ExtractIdempotent(f.payload, inner, top);
        if Extract(f.payload, inner, top).Some? {
          NextRoom(d);
          NextNest(f.tag, Extract(f.payload, inner, top).value);
        }
      } else {
        NextLocal(d, []);
        Nil(f.raw);
      }
    }
  }

  lemma {:induction false} CollectFixpoint(d: bytes, w: seq<ReportingField>, top: seq<ReportingField>)
    ensures Collect(d, w, top).Some? ==> forall x <- Collect(d, w, top).value :: Fixpoint(x, w, top)
    decreases |d|, 0
  {
    if d == [] || !Next(d).One? {
    } else {
      CollectFixpoint(d[|Next(d).field.raw|..], w, top);
      RewriteFixpoint(d, w, top);
    }
  }

  lemma {:induction false} CollectContent(items: seq<Item>, w: seq<ReportingField>, top: seq<ReportingField>)
    requires forall x <- items :: Fixpoint(x, w, top)
    ensures Collect(Content(items), w, top) == Some(items)
  {
    if items == [] {
    } else {
      var x, rest := items[0], items[1..];
      assert x in items;
      CollectContent(rest, w, top);
      NextLocal(x.content, Content(rest));
      SplitSum(x.content, Content(rest));
      Cons(items);
    }
  }

  /** Extraction is idempotent: its output, extracted again, is unchanged. */
  lemma {:induction false} ExtractIdempotent(d: bytes, w: seq<ReportingField>, top: seq<ReportingField>)
    ensures Extract(d, w, top).Some? ==>
      Extract(Extract(d, w, top).value, w, top) == Extract(d, w, top)
    decreases |d|, 1
  {
    if Extract(d, w, top).Some? {
      var items := Collect(d, w, top).value;
      var sorted := Sort(items);
      CollectFixpoint(d, w, top);
      SortProperties(items);
      forall x <- sorted ensures Fixpoint(x, w, top) {
        assert x in multiset(sorted);
      }
      CollectContent(sorted, w, top);
      SortIs(sorted, sorted);
      assert sorted != [] by { assert items[0] in multiset(sorted); }
    }
  }

  // ----- meaning -----

  /** A byte string that is exactly one field of known wire type. */
  predicate Complete(x: bytes) {
    Next(x).One? && Next(x).field.raw == x
  }

  predicate AllComplete(xs: seq<bytes>) {
    forall i :: 0 <= i < |xs| ==> Complete(xs[i])
  }

  /** Where a scan ends: nothing left, a cut-off field, or bytes that are not a field. */
  predicate Stops(rest: bytes) {
    rest == [] || !Next(rest).One?
  }

  predicate Malformed(rest: bytes) {
    rest != [] && Next(rest).Bad?
  }

  /** What the field at the start of `x` contributes. */
  function Kept(x: bytes, w: seq<ReportingField>, top: seq<ReportingField>): seq<Item> {
    if Next(x).One? then Rewrite(Next(x).field, w, top) else []
  }

  function ItemsOf(xs: seq<bytes>, w: seq<ReportingField>, top: seq<ReportingField>): seq<Item> {
    if xs == [] then [] else Kept(xs[0], w, top) + ItemsOf(xs[1..], w, top)
  }

  /** Every input is complete fields followed by an end of scan. */
  lemma {:induction false} Split(d: bytes) returns (xs: seq<bytes>, rest: bytes)
    ensures d == Concat(xs) + rest && AllComplete(xs) && Stops(rest)
    decreases |d|
  {
    if Stops(d) {
      xs, rest := [], d;
    } else {
      var x := Next(d).field.raw;
      NextComplete(d);
      var ys;
      ys, rest := Split(d[|x|..]);
      xs := [x] + ys;
      ConcatCons(x, ys);
      SplitAt(d, |x|);
      Assoc(x, Concat(ys), rest);
    }
  }

  lemma CollectCons(x: bytes, b: bytes, w: seq<ReportingField>, top: seq<ReportingField>)
    requires Complete(x)
    ensures Collect(x + b, w, top) == Before(Kept(x, w, top), Collect(b, w, top))
  {
    NextLocal(x, b);
    SplitSum(x, b);
  }

  lemma BeforeNothing(r: Option<seq<Item>>)
    ensures Before([], r) == r
  {
    match r
    case None =>
    case Some(items) => Nil(items);
  }

  lemma BeforeBefore(a: seq<Item>, b: seq<Item>, r: Option<seq<Item>>)
    ensures Before(a, Before(b, r)) == Before(a + b, r)
  {
    match r
    case None =>
    case Some(c) => Assoc(a, b, c);
  }

  lemma {:induction false} CollectPrefix(xs: seq<bytes>, rest: bytes, w: seq<ReportingField>, top: seq<ReportingField>)
    requires AllComplete(xs)
    ensures Collect(Concat(xs) + rest, w, top) == Before(ItemsOf(xs, w, top), Collect(rest, w, top))
  {
    if xs == [] {
      Nil(rest);
      BeforeNothing(Collect(rest, w, top));
    } else {
      var tail := Concat(xs[1..]) + rest;
      Assoc(xs[0], Concat(xs[1..]), rest);
      CollectCons(xs[0], tail, w, top);
      CollectPrefix(xs[1..], rest, w, top);
      BeforeBefore(Kept(xs[0], w, top), ItemsOf(xs[1..], w, top), Collect(rest, w, top));
    }
  }

  /**
   The meaning of extraction, for any split of the input into complete fields and an end of
   scan, and any ordering `t` of the kept items by number that keeps the order of equal numbers:
   no result exactly when the scan ends on malformed bytes or nothing was kept, else the
   contents of `t` in order.
   */
  lemma ExtractMeaning(xs: seq<bytes>, rest: bytes, t: seq<Item>, w: seq<ReportingField>, top: seq<ReportingField>)
    requires AllComplete(xs) && Stops(rest)
    requires Sorted(t) && forall k :: Only(t, k) == Only(ItemsOf(xs, w, top), k)
    ensures Extract(Concat(xs) + rest, w, top)
         == if Malformed(rest) || ItemsOf(xs, w, top) == [] then None else Some(Content(t))
  {
    CollectPrefix(xs, rest, w, top);
    var items := ItemsOf(xs, w, top);
    SortIs(items, t);
    Nil(items);
  }

  // ----- dependence on kept fields only -----

  predicate Whitelisted(w: seq<ReportingField>, k: nat) {
    Lookup(w, k).Some?
  }

  predicate HasNumber(x: bytes, k: nat) {
    Next(x).One? && Number(Next(x).field.tag) == k
  }

  /** The fields with number `k`, in order. */
  function FieldsNumbered(xs: seq<bytes>, k: nat): seq<bytes> {
    Filter(x => HasNumber(x, k), xs)
  }

  lemma {:induction false} OnlyAppend(a: seq<Item>, b: seq<Item>, k: nat)
    ensures Only(a + b, k) == Only(a, k) + Only(b, k)
  {
    if a == [] {
      Nil(b);
      Nil(Only(b, k));
    } else {
      OnlyAppend(a[1..], b, k);
      TailOfSum(a, b);
      Assoc([a[0]], Only(a[1..], k), Only(b, k));
    }
  }

  lemma OnlyKept(x: bytes, k: nat, w: seq<ReportingField>, top: seq<ReportingField>)
    ensures Only(Kept(x, w, top), k) == if HasNumber(x, k) then Kept(x, w, top) else []
    ensures HasNumber(x, k) && !Whitelisted(w, k) ==> Kept(x, w, top) == []
  {
    if Next(x).One? {
      RewriteSize(x, w, top);
      var a := Kept(x, w, top);
      if a != [] {
        assert a[0] in a && a == [a[0]] && a[1..] == [];
      }
    }
  }

  lemma {:induction false} OnlyItems(xs: seq<bytes>, k: nat, w: seq<ReportingField>, top: seq<ReportingField>)
    ensures Only(ItemsOf(xs, w, top), k) == ItemsOf(FieldsNumbered(xs, k), w, top)
    ensures !Whitelisted(w, k) ==> Only(ItemsOf(xs, w, top), k) == []
  {
    if xs == [] {
    } else {
      var x := xs[0];
      OnlyAppend(Kept(x, w, top), ItemsOf(xs[1..], w, top), k);
      OnlyItems(xs[1..], k, w, top);
      OnlyKept(x, k, w, top);
      var rest := FieldsNumbered(xs[1..], k);
      if HasNumber(x, k) {
        SplitSum([x], rest);
      } else {
        Nil(rest);
        Nil(ItemsOf(rest, w, top));
      }
    }
  }

  lemma SameOnlySameSort(s: seq<Item>, t: seq<Item>)
    requires forall k :: Only(s, k) == Only(t, k)
    ensures Sort(s) == Sort(t)
    ensures s == [] <==> t == []
  {
    SortProperties(s);
    forall k ensures Only(Sort(s), k) == Only(t, k) {
      SortStable(s, k);
      assert Only(s, k) == Only(t, k);
    }
    SortIs(t, Sort(s));
    SortProperties(t);
    assert |multiset(s)| == |multiset(Sort(s))| && |multiset(t)| == |multiset(Sort(t))|;
  }

  /**
   Extraction sees only, for each whitelisted number, the fields with that number in their
   order. Reordering fields of different numbers, and adding or removing fields that are not
   whitelisted, changes nothing, whatever bytes follow.
   */
  lemma ExtractSeesKeptOnly(xs: seq<bytes>, ys: seq<bytes>, tail: bytes, w: seq<ReportingField>, top: seq<ReportingField>)
    requires AllComplete(xs) && AllComplete(ys)
    requires forall k :: Whitelisted(w, k) ==> FieldsNumbered(xs, k) == FieldsNumbered(ys, k)
    ensures Extract(Concat(xs) + tail, w, top) == Extract(Concat(ys) + tail, w, top)
  {
    CollectPrefix(xs, tail, w, top);
    CollectPrefix(ys, tail, w, top);
    if Collect(tail, w, top).Some? {
      var r := Collect(tail, w, top).value;
      var s, t := ItemsOf(xs, w, top) + r, ItemsOf(ys, w, top) + r;
      forall k ensures Only(s, k) == Only(t, k) {
        OnlyItems(xs, k, w, top);
        OnlyItems(ys, k, w, top);
        OnlyAppend(ItemsOf(xs, w, top), r, k);
        OnlyAppend(ItemsOf(ys, w, top), r, k);
      }
      SameOnlySameSort(s, t);
    }
  }

  /** Neighbouring fields with different numbers may be swapped. */
  lemma SwapFields(xs: seq<bytes>, x: bytes, y: bytes, tail: bytes, w: seq<ReportingField>, top: seq<ReportingField>)
    requires AllComplete(xs) && Complete(x) && Complete(y)
    requires Number(Next(x).field.tag) != Number(Next(y).field.tag)
    ensures Extract(Concat(xs) + x + y + tail, w, top) == Extract(Concat(xs) + y + x + tail, w, top)
  {
    var a, b := xs + [x, y], xs + [y, x];
    forall k ensures FieldsNumbered(a, k) == FieldsNumbered(b, k) {
      var p := z => HasNumber(z, k);
      FilterPair(p, xs, x, y);
      FilterPair(p, xs, y, x);
    }
    ExtractSeesKeptOnly(a, b, tail, w, top);
    ConcatPair(xs, x, y);
    ConcatPair(xs, y, x);
  }

  lemma FilterPair(p: bytes -> bool, xs: seq<bytes>, x: bytes, y: bytes)
    ensures Filter(p, xs + [x, y])
         == if p(x) && p(y) then Filter(p, xs) + [x] + [y]
            else if p(x) then Filter(p, xs) + [x]
            else if p(y) then Filter(p, xs) + [y]
            else Filter(p, xs)
  {
    assert xs + [x, y] == xs + [x] + [y];
    FilterSnoc(p, xs + [x], y);
    FilterSnoc(p, xs, x);
  }

  lemma ConcatPair(xs: seq<bytes>, x: bytes, y: bytes)
    ensures Concat(xs + [x, y]) == Concat(xs) + x + y
  {
    assert xs + [x, y] == xs + [x] + [y];
    ConcatSnoc(xs + [x], y);
    ConcatSnoc(xs, x);
  }

  /** A complete field that is not whitelisted may be inserted anywhere between fields. */
  lemma InsertUnlisted(xs: seq<bytes>, u: bytes, tail: bytes, w: seq<ReportingField>, top: seq<ReportingField>)
    requires AllComplete(xs) && Complete(u) && !Whitelisted(w, Number(Next(u).field.tag))
    ensures Extract(Concat(xs) + u + tail, w, top) == Extract(Concat(xs) + tail, w, top)
  {
    forall k | Whitelisted(w, k) ensures FieldsNumbered(xs + [u], k) == FieldsNumbered(xs, k) {
      FilterSnoc(x => HasNumber(x, k), xs, u);
    }
    ExtractSeesKeptOnly(xs + [u], xs, tail, w, top);
    ConcatSnoc(xs, u);
  }
}
