/** The field table the extractor is run with, and what it does to message wrappers. */
module ReportingTokenTable {
  import opened Bytes
  import opened ReportingToken
  import opened ReportingTokenMeaning
  import Varint

  function Plain(number: nat): ReportingField {
    ReportingField(number, None, false)
  }

  function WithSubfields(number: nat, subfields: seq<ReportingField>): ReportingField {
    ReportingField(number, Some(subfields), false)
  }

  function Message(number: nat): ReportingField {
    ReportingField(number, None, true)
  }

  const CONTEXT_INFO_SUBFIELDS: seq<ReportingField> := [
    Plain(21), Plain(22)
  ]

  const FUTURE_PROOF_SUBFIELDS: seq<ReportingField> := [
    Message(1)
  ]

  const IMAGE_MESSAGE_SUBFIELDS: seq<ReportingField> := [
    Plain(2), Plain(3), Plain(8), Plain(11), WithSubfields(17, CONTEXT_INFO_SUBFIELDS), Plain(25)
  ]

  const CONTACT_MESSAGE_SUBFIELDS: seq<ReportingField> := [
    Plain(1), Plain(16), WithSubfields(17, CONTEXT_INFO_SUBFIELDS)
  ]

  const LOCATION_MESSAGE_SUBFIELDS: seq<ReportingField> := [
    Plain(3), Plain(4), Plain(5), Plain(16), WithSubfields(17, CONTEXT_INFO_SUBFIELDS)
  ]

  const EXTENDED_TEXT_MESSAGE_SUBFIELDS: seq<ReportingField> := [
    Plain(1), WithSubfields(17, CONTEXT_INFO_SUBFIELDS), Plain(30)
  ]

  const DOCUMENT_MESSAGE_SUBFIELDS: seq<ReportingField> := [
    Plain(2), Plain(7), Plain(10), WithSubfields(17, CONTEXT_INFO_SUBFIELDS), Plain(20)
  ]

  const AUDIO_MESSAGE_SUBFIELDS: seq<ReportingField> := [
    Plain(2), Plain(7), Plain(9), WithSubfields(17, CONTEXT_INFO_SUBFIELDS), Plain(21)
  ]

  const VIDEO_MESSAGE_SUBFIELDS: seq<ReportingField> := [
    Plain(2), Plain(6), Plain(7), Plain(13), WithSubfields(17, CONTEXT_INFO_SUBFIELDS), Plain(20)
  ]

  const PROTOCOL_MESSAGE_SUBFIELDS: seq<ReportingField> := [
    Plain(1), Plain(2), Message(14), Plain(15)
  ]

  const LIVE_LOCATION_MESSAGE_SUBFIELDS: seq<ReportingField> := [
    Plain(6), Plain(16), WithSubfields(17, CONTEXT_INFO_SUBFIELDS)
  ]

  const STICKER_MESSAGE_SUBFIELDS: seq<ReportingField> := [
    Plain(4), Plain(5), Plain(8), Plain(13), WithSubfields(17, CONTEXT_INFO_SUBFIELDS)
  ]

  const GROUP_INVITE_MESSAGE_SUBFIELDS: seq<ReportingField> := [
    Plain(1), Plain(2), Plain(4), Plain(5), Plain(6), WithSubfields(7, CONTEXT_INFO_SUBFIELDS)
  ]

  const POLL_OPTION_SUBFIELDS: seq<ReportingField> := [
    Plain(1), Plain(2)
  ]

  const POLL_CREATION_MESSAGE_SUBFIELDS: seq<ReportingField> := [
    Plain(2), WithSubfields(3, POLL_OPTION_SUBFIELDS), WithSubfields(5, CONTEXT_INFO_SUBFIELDS),
    WithSubfields(8, POLL_OPTION_SUBFIELDS)
  ]

  const POLL_RESULT_OPTION_SUBFIELDS: seq<ReportingField> := [
    Plain(1)
  ]

  const POLL_RESULT_SUBFIELDS: seq<ReportingField> := [
    Plain(1), WithSubfields(2, POLL_RESULT_OPTION_SUBFIELDS), WithSubfields(3, CONTEXT_INFO_SUBFIELDS)
  ]

  const REPORTING_FIELDS: seq<ReportingField> := [
    Plain(1), WithSubfields(3, IMAGE_MESSAGE_SUBFIELDS), WithSubfields(4, CONTACT_MESSAGE_SUBFIELDS),
    WithSubfields(5, LOCATION_MESSAGE_SUBFIELDS), WithSubfields(6, EXTENDED_TEXT_MESSAGE_SUBFIELDS),
    WithSubfields(7, DOCUMENT_MESSAGE_SUBFIELDS), WithSubfields(8, AUDIO_MESSAGE_SUBFIELDS),
    WithSubfields(9, VIDEO_MESSAGE_SUBFIELDS), WithSubfields(12, PROTOCOL_MESSAGE_SUBFIELDS),
    WithSubfields(18, LIVE_LOCATION_MESSAGE_SUBFIELDS), WithSubfields(26, STICKER_MESSAGE_SUBFIELDS),
    WithSubfields(28, GROUP_INVITE_MESSAGE_SUBFIELDS), WithSubfields(37, FUTURE_PROOF_SUBFIELDS),
    WithSubfields(49, POLL_CREATION_MESSAGE_SUBFIELDS), WithSubfields(53, FUTURE_PROOF_SUBFIELDS),
    WithSubfields(55, FUTURE_PROOF_SUBFIELDS), WithSubfields(58, FUTURE_PROOF_SUBFIELDS),
    WithSubfields(59, FUTURE_PROOF_SUBFIELDS), WithSubfields(60, POLL_CREATION_MESSAGE_SUBFIELDS),
    WithSubfields(64, POLL_CREATION_MESSAGE_SUBFIELDS), WithSubfields(66, VIDEO_MESSAGE_SUBFIELDS),
    WithSubfields(74, FUTURE_PROOF_SUBFIELDS), WithSubfields(87, FUTURE_PROOF_SUBFIELDS),
    WithSubfields(88, POLL_RESULT_SUBFIELDS), WithSubfields(92, FUTURE_PROOF_SUBFIELDS),
    WithSubfields(93, FUTURE_PROOF_SUBFIELDS), WithSubfields(94, FUTURE_PROOF_SUBFIELDS)
  ]

  /** The numbers of the fields that wrap a whole message. */
  const WRAPPERS: set<nat> := {37, 53, 55, 58, 59, 74, 87, 92, 93, 94}

  lemma WrapperIndex(k: nat) returns (i: nat)
    requires k in WRAPPERS
    ensures i < |REPORTING_FIELDS| && REPORTING_FIELDS[i] == WithSubfields(k, FUTURE_PROOF_SUBFIELDS)
    ensures forall j :: 0 <= j < i ==> REPORTING_FIELDS[j].fieldNumber < k
  {
    i := if k == 37 then 12 else if k == 53 then 14 else if k == 55 then 15 else if k == 58 then 16
         else if k == 59 then 17 else if k == 74 then 21 else if k == 87 then 22 else if k == 92 then 24
         else if k == 93 then 25 else 26;
  }

  lemma LookupWrapper(k: nat)
    requires k in WRAPPERS
    ensures Lookup(REPORTING_FIELDS, k) == Some(WithSubfields(k, FUTURE_PROOF_SUBFIELDS))
  {
    var i := WrapperIndex(k);
    LookupMeaning(REPORTING_FIELDS, i);
  }

  /** The extraction of a field around a message, in terms of the extraction of the message. */
  function Around(tag: nat, y: Option<bytes>): Option<bytes> {
    match y
    case None => None
    case Some(c) => Some(Nest(tag, c))
  }

  lemma ExtractAround(tag: nat, m: bytes, w: seq<ReportingField>, top: seq<ReportingField>, inner: seq<ReportingField>)
    requires tag < Varint.U64 && |m| < Varint.U64 && WireType(tag) == LENGTH_DELIMITED
    requires Lookup(w, Number(tag)).Some? && Inner(Lookup(w, Number(tag)).value, top) == Some(inner)
    ensures Extract(Nest(tag, m), w, top) == Around(tag, Extract(m, inner, top))
  {
    NestWellFormed(tag, m);
    ExtractOne(WireField(tag, Varint.Encode(tag), Varint.Encode(|m|), m), w, top);
  }

  lemma NestSize(tag: nat, m: bytes)
    requires tag < Varint.U64 && |m| < Varint.U64
    ensures |Nest(tag, m)| <= |m| + 20
  {
    Varint.RoundTrip(|m|, []);
    Varint.RoundTrip(tag, []);
  }

  /** A message inside field 1 of a wrapper, as the wrapper types carry it. */
  function Wrap(k: nat, m: bytes): bytes {
    Nest(8 * k + 2, Nest(10, m))
  }

  /** One rewritten field inside another. */
  lemma ExtractTwo(tag: nat, inTag: nat, m: bytes, top: seq<ReportingField>, future: seq<ReportingField>)
    requires tag < Varint.U64 && inTag < Varint.U64 && |m| < Varint.U64 - 20
    requires WireType(tag) == LENGTH_DELIMITED && WireType(inTag) == LENGTH_DELIMITED
    requires Lookup(top, Number(tag)) == Some(WithSubfields(Number(tag), future))
    requires Lookup(future, Number(inTag)) == Some(Message(Number(inTag)))
    ensures Extract(Nest(tag, Nest(inTag, m)), top, top) == Around(tag, Around(inTag, Extract(m, top, top)))
  {
    NestSize(inTag, m);
    ExtractAround(inTag, m, future, top, top);
    ExtractAround(tag, Nest(inTag, m), top, top, future);
  }

  lemma WrapperTags(k: nat)
    requires k in WRAPPERS
    ensures Number(8 * k + 2) == k && WireType(8 * k + 2) == LENGTH_DELIMITED
    ensures Number(10) == 1 && WireType(10) == LENGTH_DELIMITED
    ensures Lookup(REPORTING_FIELDS, k) == Some(WithSubfields(k, FUTURE_PROOF_SUBFIELDS))
    ensures Lookup(FUTURE_PROOF_SUBFIELDS, 1) == Some(Message(1))
  {
    LookupWrapper(k);
    LookupMeaning(FUTURE_PROOF_SUBFIELDS, 0);
  }

  /** Wrapping a message and extracting gives the wrapped extraction of the message. */
  lemma WrapperTransparent(k: nat, m: bytes)
    requires k in WRAPPERS && |m| < Varint.U64 - 20
    ensures Extract(Wrap(k, m), REPORTING_FIELDS, REPORTING_FIELDS)
         == Around(8 * k + 2, Around(10, Extract(m, REPORTING_FIELDS, REPORTING_FIELDS)))
  {
    WrapperTags(k);
    ExtractTwo(8 * k + 2, 10, m, REPORTING_FIELDS, FUTURE_PROOF_SUBFIELDS);
  }

  /** A plain text message, field 1 with tag 10, is kept as it is. */
  lemma ConversationKept(text: bytes)
    requires |text| < Varint.U64
    ensures Extract([10] + Varint.Encode(|text|) + text, REPORTING_FIELDS, REPORTING_FIELDS)
         == Some([10] + Varint.Encode(|text|) + text)
  {
    FirstPlainKept(10, text, REPORTING_FIELDS);
  }

  lemma FirstPlainKept(tag: nat, text: bytes, w: seq<ReportingField>)
    requires tag == 10 && |text| < Varint.U64 && w != [] && w[0] == Plain(1)
    ensures Extract([tag] + Varint.Encode(|text|) + text, w, w) == Some([tag] + Varint.Encode(|text|) + text)
  {
    assert tag / 8 % 0x1_0000_0000 == 1;
    LookupMeaning(w, 0);
    ExtractPlain(tag, text, w, w);
  }
}
