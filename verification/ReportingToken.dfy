/**
 The reporting-token extractor: parse protobuf wire bytes, keep the whitelisted fields, rewrite
 nested messages under their own whitelist, sort by field number and concatenate.

 `Extract` says what the result is, by recursion on the input; module `ReportingTokenLoop` has
 the byte-position loop of the source, proved to compute it.
 */
module ReportingToken {
  import opened Bytes
  import Varint

  datatype ReportingField = ReportingField(
    fieldNumber: nat,
    subfields: Option<seq<ReportingField>>,
    isMessage: bool)

  const VARINT: nat := 0
  const FIXED64: nat := 1
  const LENGTH_DELIMITED: nat := 2
  const FIXED32: nat := 5

  /** The tag is a 64-bit word; the field number is cut to 32 bits. */
  function Number(tag: nat): nat {
    (tag / 8) % 0x1_0000_0000
  }

  function WireType(tag: nat): nat {
    tag % 8
  }

  /** One complete field: its tag, its bytes as read, and its value when length-delimited. */
  datatype Field = Field(tag: nat, raw: bytes, payload: bytes)

  /** `Bad` makes the whole extraction fail, `Cut` ends the scan and keeps what was read. */
  datatype Step = Bad | Cut | One(field: Field)

  function Fixed(d: bytes, tag: nat, size: nat): Step {
    if size > |d| then Cut else One(Field(tag, d[..size], []))
  }

  /** The field at the start of `d` once its tag has been read from the first `t` bytes. */
  function Tagged(d: bytes, tag: nat, t: nat): (s: Step)
    requires 0 < t <= |d|
    ensures s.One? ==> s.field.tag == tag && t < |s.field.raw| <= |d|
    ensures s.One? ==> s.field.raw == d[..|s.field.raw|] && |s.field.payload| < |s.field.raw|
    ensures s.One? ==> |s.field.payload| < Varint.U64
  {
    if WireType(tag) == VARINT then
      match Varint.Decode(d[t..])
      case None => Bad
      case Some((_, k)) => One(Field(tag, d[..t + k], []))
    else if WireType(tag) == FIXED64 then Fixed(d, tag, t + 8)
    else if WireType(tag) == FIXED32 then Fixed(d, tag, t + 4)
    else if WireType(tag) == LENGTH_DELIMITED then
      match Varint.Decode(d[t..])
      case None => Bad
      case Some((len, k)) =>
        if t + k + len > |d| then Cut
        else One(Field(tag, d[..t + k + len], d[t + k..t + k + len]))
    else Bad
  }

  function Next(d: bytes): (s: Step)
    ensures s.One? ==> s.field.tag < Varint.U64 && 0 < |s.field.raw| <= |d|
    ensures s.One? ==> s.field.raw == d[..|s.field.raw|] && |s.field.payload| < |s.field.raw|
    ensures s.One? ==> |s.field.payload| < Varint.U64
  {
    match Varint.Decode(d)
    case None => Bad
    case Some((tag, t)) => Tagged(d, tag, t)
  }

  /** A kept field: its sort key and the bytes it contributes. */
  datatype Item = Item(number: nat, content: bytes)

  /** The first whitelist entry with the given number. */
  function Lookup(whitelist: seq<ReportingField>, number: nat): Option<ReportingField> {
    if whitelist == [] then None
    else if whitelist[0].fieldNumber == number then Some(whitelist[0])
    else Lookup(whitelist[1..], number)
  }

  /** The whitelist that applies inside a field, when it is one to be rewritten. */
  function Inner(e: ReportingField, top: seq<ReportingField>): Option<seq<ReportingField>> {
    if e.isMessage then Some(top) else e.subfields
  }

  function Nest(tag: nat, nested: bytes): bytes {
    Varint.Encode(tag) + Varint.Encode(|nested|) + nested
  }

  /** What a complete field contributes: nothing, its own bytes, or a rewritten nested message. */
  function Rewrite(f: Field, whitelist: seq<ReportingField>, top: seq<ReportingField>): seq<Item>
    decreases |f.payload|, 2
  {
    match Lookup(whitelist, Number(f.tag))
    case None => []
    case Some(e) =>
      if WireType(f.tag) == LENGTH_DELIMITED && Inner(e, top).Some? then
        match Extract(f.payload, Inner(e, top).value, top)
        case None => []
        case Some(nested) =>
          if nested == [] then [] else [Item(Number(f.tag), Nest(f.tag, nested))]
      else [Item(Number(f.tag), f.raw)]
  }

  /** The kept fields of the longest prefix of complete fields, in input order. */
  function Collect(d: bytes, whitelist: seq<ReportingField>, top: seq<ReportingField>): Option<seq<Item>>
    decreases |d|, 0
  {
    if d == [] then Some([])
    else
      match Next(d)
      case Bad => None
      case Cut => Some([])
      case One(f) =>
        match Collect(d[|f.raw|..], whitelist, top)
        case None => None
        case Some(rest) => Some(Rewrite(f, whitelist, top) + rest)
  }

  function Insert(x: Item, s: seq<Item>): seq<Item> {
    if s == [] || x.number <= s[0].number then [x] + s else [s[0]] + Insert(x, s[1..])
  }

  /** Stable sort by field number. */
  function Sort(s: seq<Item>): seq<Item> {
    if s == [] then [] else Insert(s[0], Sort(s[1..]))
  }

  function Content(s: seq<Item>): bytes {
    if s == [] then [] else s[0].content + Content(s[1..])
  }

  function Extract(d: bytes, whitelist: seq<ReportingField>, top: seq<ReportingField>): Option<bytes>
    decreases |d|, 1
  {
    match Collect(d, whitelist, top)
    case None => None
    case Some(items) => if items == [] then None else Some(Content(Sort(items)))
  }

  // ----- the loop -----

  /** The scan so far, put in front of whatever the rest of the input yields. */
  function Before(items: seq<Item>, rest: Option<seq<Item>>): Option<seq<Item>> {
    match rest
    case None => None
    case Some(r) => Some(items + r)
  }

  method Find(whitelist: seq<ReportingField>, number: nat) returns (entry: Option<ReportingField>)
    ensures entry == Lookup(whitelist, number)
  {
    assert whitelist[0..] == whitelist;
    for i := 0 to |whitelist|
      invariant Lookup(whitelist, number) == Lookup(whitelist[i..], number)
    {
      DropDrop(whitelist, i, 1);
      if whitelist[i].fieldNumber == number {
        return Some(whitelist[i]);
      }
    }
    return None;
  }

  /** Tag and length re-encoded through two stack buffers, then the nested content. */
  method BuildNested(tag: nat, nested: bytes) returns (fieldBytes: bytes)
    requires tag < Varint.U64 && |nested| < Varint.U64
    ensures fieldBytes == Nest(tag, nested)
  {
    var tagBuf := new byte[10](_ => 0);
    var tagLen := Varint.EncodeVarintToBuf(tag, tagBuf);
    fieldBytes := tagBuf[..tagLen];
    var lenBuf := new byte[10](_ => 0);
    var lenLen := Varint.EncodeVarintToBuf(|nested|, lenBuf);
    fieldBytes := fieldBytes + lenBuf[..lenLen];
    fieldBytes := fieldBytes + nested;
  }

  method Join(items: seq<Item>) returns (result: bytes)
    ensures result == Content(items)
  {
    result := [];
    assert items[0..] == items;
    for i := 0 to |items|
      invariant Content(items) == result + Content(items[i..])
    {
      DropDrop(items, i, 1);
      Assoc(result, items[i].content, Content(items[i + 1..]));
      result := result + items[i].content;
    }
  }
}
