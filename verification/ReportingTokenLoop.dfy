/** The extraction loop over byte positions, proved to compute `Extract`. */
module ReportingTokenLoop {
  import opened Bytes
  import opened ReportingToken
  import opened ReportingTokenProofs
  import Varint

  lemma CollectOne(e: bytes, f: Field, w: seq<ReportingField>, top: seq<ReportingField>)
    requires e != [] && Next(e) == One(f)
    ensures Collect(e, w, top) == Before(Rewrite(f, w, top), Collect(e[|f.raw|..], w, top))
  {
  }

  /** The first half of a turn: read the field that starts here. */
  method ReadField(rest: bytes) returns (step: Step)
    ensures step == Next(rest)
  {
    var decodedTag := Varint.DecodeVarint(rest);
    if decodedTag.None? {
      return Bad;
    }
    var (tag, tagLen) := decodedTag.value;
    if WireType(tag) == VARINT {
      var decoded := Varint.DecodeVarint(rest[tagLen..]);
      if decoded.None? {
        return Bad;
      }
      return One(Field(tag, rest[..tagLen + decoded.value.1], []));
    } else if WireType(tag) == FIXED64 {
      return Fixed(rest, tag, tagLen + 8);
    } else if WireType(tag) == FIXED32 {
      return Fixed(rest, tag, tagLen + 4);
    } else if WireType(tag) == LENGTH_DELIMITED {
      var decoded := Varint.DecodeVarint(rest[tagLen..]);
      if decoded.None? {
        return Bad;
      }
      var valueStart := tagLen + decoded.value.1;
      var valueEnd := valueStart + decoded.value.0;
      if valueEnd > |rest| {
        return Cut;
      }
      return One(Field(tag, rest[..valueEnd], rest[valueStart..valueEnd]));
    } else {
      return Bad;
    }
  }

  /** The second half: look the field up, and copy it or rewrite its nested message. */
  method KeepField(f: Field, w: seq<ReportingField>, top: seq<ReportingField>) returns (kept: seq<Item>)
    requires f.tag < Varint.U64 && |f.payload| < Varint.U64
    ensures kept == Rewrite(f, w, top)
    decreases |f.payload|, 2
  {
    var number := Number(f.tag);
    var entry := Find(w, number);
    if entry.None? {
      return [];
    }
    if WireType(f.tag) == LENGTH_DELIMITED && (entry.value.isMessage || entry.value.subfields.Some?) {
      var inner := if entry.value.isMessage then top else entry.value.subfields.value;
      var nested := ExtractReportingTokenContent(f.payload, inner, top);
      ExtractSize(f.payload, inner, top);
      if nested.None? || nested.value == [] {
        return [];
      }
      var fieldBytes := BuildNested(f.tag, nested.value);
      return [Item(number, fieldBytes)];
    }
    return [Item(number, f.raw)];
  }

  /** What a scan gives that has kept `items` and has `rest` still to read. */
  function Resumed(items: seq<Item>, rest: bytes, w: seq<ReportingField>, top: seq<ReportingField>): Option<seq<Item>> {
    Before(items, Collect(rest, w, top))
  }

  lemma ScanStart(data: bytes, w: seq<ReportingField>, top: seq<ReportingField>)
    ensures Collect(data, w, top) == Resumed([], data[0..], w, top)
  {
    assert data[0..] == data;
    BeforeNothing(Collect(data, w, top));
  }

  lemma ScanStep(
      whole: Option<seq<Item>>, items: seq<Item>, rest: bytes, f: Field,
      w: seq<ReportingField>, top: seq<ReportingField>)
    requires whole == Resumed(items, rest, w, top) && rest != [] && Next(rest) == One(f)
    ensures whole == Resumed(items + Rewrite(f, w, top), rest[|f.raw|..], w, top)
  {
    CollectOne(rest, f, w, top);
    BeforeBefore(items, Rewrite(f, w, top), Collect(rest[|f.raw|..], w, top));
  }

  lemma ScanEnd(
      whole: Option<seq<Item>>, items: seq<Item>, rest: bytes, w: seq<ReportingField>, top: seq<ReportingField>)
    requires whole == Resumed(items, rest, w, top) && (rest == [] || !Next(rest).One?)
    ensures whole == if rest != [] && Next(rest).Bad? then None else Some(items)
  {
    Nil(items);
  }

  lemma ResumedAt(items: seq<Item>, data: bytes, pos: nat, n: nat, after: nat,
                  w: seq<ReportingField>, top: seq<ReportingField>)
    requires after == pos + n <= |data|
    ensures Resumed(items, data[after..], w, top) == Resumed(items, data[pos..][n..], w, top)
  {
    DropDrop(data, pos, n);
  }

  /** The scan: fields are kept in input order until the input ends, is cut off or is malformed. */
  method CollectFields(data: bytes, w: seq<ReportingField>, top: seq<ReportingField>)
    returns (r: Option<seq<Item>>)
    ensures r == Collect(data, w, top)
    decreases |data|, 0
  {
    var extracted: seq<Item> := [];
    var pos := 0;
    ghost var whole := Collect(data, w, top);
    ScanStart(data, w, top);
    while pos < |data|
      invariant pos <= |data| && whole == Resumed(extracted, data[pos..], w, top)
    {
      var step := ReadField(data[pos..]);
      if !step.One? {
        ScanEnd(whole, extracted, data[pos..], w, top);
        return if step.Bad? then None else Some(extracted);
      }
      ScanStep(whole, extracted, data[pos..], step.field, w, top);
      var kept := KeepField(step.field, w, top);
      extracted := extracted + kept;
      var after := pos + |step.field.raw|;
      ResumedAt(extracted, data, pos, |step.field.raw|, after, w, top);
      pos := after;
    }
    ScanEnd(whole, extracted, data[pos..], w, top);
    return Some(extracted);
  }

  method ExtractReportingTokenContent(data: bytes, w: seq<ReportingField>, top: seq<ReportingField>)
    returns (r: Option<bytes>)
    ensures r == Extract(data, w, top)
    decreases |data|, 1
  {
    var extracted := CollectFields(data, w, top);
    if extracted.None? || extracted.value == [] {
      return None;
    }
    var result := Join(Sort(extracted.value));
    r := Some(result);
  }
}
