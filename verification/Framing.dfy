/** Length-prefixed frames: the encoder, the buffering decoder, and what chunking can do to them. */
module Framing {
  import opened Bytes

  const FRAME_LENGTH_SIZE: nat := 3
  const FRAME_MAX_SIZE: nat := 0x100_0000

  function LengthPrefix(n: nat): bytes
    requires n < FRAME_MAX_SIZE
  {
    [n / 65536, n / 256 % 256, n % 256]
  }

  function Frame(payload: bytes): bytes
    requires |payload| < FRAME_MAX_SIZE
  {
    LengthPrefix(|payload|) + payload
  }

  /** A frame is the length in three bytes, most significant first, and then the payload. */
  lemma FrameMeaning(payload: bytes)
    requires |payload| < 16777216
    ensures var f := Frame(payload);
      && |f| == 3 + |payload| && f[3..] == payload
      && (f[0] as int) * 65536 + (f[1] as int) * 256 + f[2] as int == |payload|
  {
    var n := |payload|;
    assert n == (n / 65536) * 65536 + (n / 256 % 256) * 256 + n % 256;
  }

  /** Refills `out` with the optional header, the three length bytes and the payload. */
  method EncodeFrameInto(payload: bytes, header: Option<bytes>, out: Buffer) returns (ok: bool)
    modifies out
    ensures ok <==> |payload| < FRAME_MAX_SIZE
    ensures ok ==> out.data == if header.Some? then header.value + Frame(payload) else Frame(payload)
    ensures !ok ==> out.data == old(out.data)
  {
    if |payload| >= FRAME_MAX_SIZE {
      return false;
    }
    out.data := [];
    if header.Some? {
      out.data := out.data + header.value;
    }
    var lenBytes := [|payload| / 0x100_0000, |payload| / 65536 % 256, |payload| / 256 % 256, |payload| % 256];
    assert lenBytes[1..] == LengthPrefix(|payload|);
    Assoc(out.data, LengthPrefix(|payload|), payload);
    Nil(Frame(payload));
    out.data := out.data + lenBytes[1..] + payload;
    return true;
  }

  function HeadLength(b: bytes): (n: nat)
    requires FRAME_LENGTH_SIZE <= |b|
    ensures n < FRAME_MAX_SIZE
  {
    (b[0] as int) * 65536 + (b[1] as int) * 256 + b[2] as int
  }

  /** Whether a whole frame is at the front of the buffer. */
  predicate HasFrame(b: bytes) {
    FRAME_LENGTH_SIZE <= |b| && FRAME_LENGTH_SIZE + HeadLength(b) <= |b|
  }

  function FirstFrame(b: bytes): bytes
    requires HasFrame(b)
  {
    b[FRAME_LENGTH_SIZE..FRAME_LENGTH_SIZE + HeadLength(b)]
  }

  function AfterFrame(b: bytes): bytes
    requires HasFrame(b)
  {
    b[FRAME_LENGTH_SIZE + HeadLength(b)..]
  }

  class FrameDecoder {
    var buffer: bytes

    constructor ()
      ensures buffer == []
    {
      buffer := [];
    }

    method Feed(data: bytes)
      modifies this
      ensures buffer == old(buffer) + data
    {
      buffer := buffer + data;
    }

    /** Takes one whole frame off the front, or leaves the buffer as it is. */
    method DecodeFrame() returns (r: Option<bytes>)
      modifies this
      ensures HasFrame(old(buffer)) ==> r == Some(FirstFrame(old(buffer))) && buffer == AfterFrame(old(buffer))
      ensures !HasFrame(old(buffer)) ==> r == None && buffer == old(buffer)
    {
      if |buffer| < FRAME_LENGTH_SIZE {
        return None;
      }
      var frameLen := HeadLength(buffer);
      if frameLen > FRAME_MAX_SIZE {
        // The source skips the prefix here; three bytes cannot say a length this large.
        assert false;
      }
      if |buffer| >= FRAME_LENGTH_SIZE + frameLen {
        DropDrop(buffer, FRAME_LENGTH_SIZE, frameLen);
        r := Some(buffer[FRAME_LENGTH_SIZE..FRAME_LENGTH_SIZE + frameLen]);
        buffer := buffer[FRAME_LENGTH_SIZE..];
        buffer := buffer[frameLen..];
      } else {
        return None;
      }
    }
  }

  /** All whole frames of a byte stream in order, and the unfinished rest. */
  datatype Parsed = Parsed(frames: seq<bytes>, rest: bytes)

  function Parse(b: bytes): Parsed
    decreases |b|
  {
    if HasFrame(b) then
      var p := Parse(AfterFrame(b));
      Parsed([FirstFrame(b)] + p.frames, p.rest)
    else Parsed([], b)
  }

  predicate Fits(payloads: seq<bytes>) {
    forall i :: 0 <= i < |payloads| ==> |payloads[i]| < FRAME_MAX_SIZE
  }

  /** The bytes on the wire for a list of payloads. */
  function Wire(payloads: seq<bytes>): bytes
    requires Fits(payloads)
  {
    if payloads == [] then [] else Frame(payloads[0]) + Wire(payloads[1..])
  }

  // ----- the encoder and the parser are inverse -----

  lemma FrameParts(payload: bytes, s: bytes)
    requires |payload| < FRAME_MAX_SIZE
    ensures HasFrame(Frame(payload) + s)
    ensures FirstFrame(Frame(payload) + s) == payload && AfterFrame(Frame(payload) + s) == s
  {
    var n := |payload|;
    var b := Frame(payload) + s;
    assert n == (n / 65536) * 65536 + (n / 256 % 256) * 256 + n % 256;
    assert HeadLength(b) == n;
    SplitSum(Frame(payload), s);
    assert FirstFrame(b) == payload;
  }

  /** Parsing the wire bytes of a list of payloads gives those payloads, then whatever follows. */
  lemma {:induction false} ParseWire(ps: seq<bytes>, s: bytes)
    requires Fits(ps)
    ensures Parse(Wire(ps) + s) == Parsed(ps + Parse(s).frames, Parse(s).rest)
  {
    if ps == [] {
      Nil(s);
      Nil(Parse(s).frames);
    } else {
      var tail := Wire(ps[1..]) + s;
      Assoc(Frame(ps[0]), Wire(ps[1..]), s);
      FrameParts(ps[0], tail);
      ParseWire(ps[1..], s);
      Assoc([ps[0]], ps[1..], Parse(s).frames);
      Cons(ps);
    }
  }

  lemma FrameRebuild(b: bytes)
    requires HasFrame(b)
    ensures Frame(FirstFrame(b)) + AfterFrame(b) == b
  {
    var n := HeadLength(b);
    PrefixOfLength(b[0], b[1], b[2], n);
    assert b[..3] == [b[0], b[1], b[2]];
    var m := 3 + n;
    SplitAt(b, m);
    SplitAt(b[..m], 3);
    assert b[..m][..3] == b[..3] && b[..m][3..] == FirstFrame(b);
  }

  lemma PrefixOfLength(x: byte, y: byte, z: byte, n: nat)
    requires n == x * 0x1_0000 + y * 0x100 + z
    ensures n < FRAME_MAX_SIZE && LengthPrefix(n) == [x, y, z]
  {
    var q: nat := x * 0x100 + y;
    assert n == 256 * q + z;
    assert n / 256 == q && n % 256 == z;
    assert q % 256 == y;
    assert n / 0x1_0000 == x;
  }

  /** Nothing is lost: any stream is the wire bytes of its frames, then an unfinished rest. */
  lemma {:induction false} ParseLossless(b: bytes)
    ensures Fits(Parse(b).frames)
    ensures Wire(Parse(b).frames) + Parse(b).rest == b
    ensures !HasFrame(Parse(b).rest)
    decreases |b|
  {
    if HasFrame(b) {
      var p := Parse(AfterFrame(b));
      ParseLossless(AfterFrame(b));
      FrameRebuild(b);
      SplitSum([FirstFrame(b)], p.frames);
      Assoc(Frame(FirstFrame(b)), Wire(p.frames), p.rest);
    } else {
      Nil(b);
    }
  }

  // ----- chunking -----

  /** Parsing more input is parsing the rest of the earlier input followed by it. */
  lemma ParseMore(a: bytes, b: bytes)
    ensures Parse(a + b)
         == Parsed(Parse(a).frames + Parse(Parse(a).rest + b).frames, Parse(Parse(a).rest + b).rest)
  {
    var p := Parse(a);
    ParseLossless(a);
    Assoc(Wire(p.frames), p.rest, b);
    ParseWire(p.frames, p.rest + b);
  }

  /** Feeding chunk after chunk and draining after each: what comes out, chunk by chunk. */
  function FeedAndDrain(buffer: bytes, chunks: seq<bytes>): (seq<seq<bytes>>, bytes)
    decreases |chunks|
  {
    if chunks == [] then ([], buffer)
    else
      var p := Parse(buffer + chunks[0]);
      var (later, rest) := FeedAndDrain(p.rest, chunks[1..]);
      ([p.frames] + later, rest)
  }

  function Flatten(fs: seq<seq<bytes>>): seq<bytes> {
    if fs == [] then [] else fs[0] + Flatten(fs[1..])
  }

  /** Frames do not depend on how the bytes were cut into chunks. */
  lemma {:induction false} ChunkingIrrelevant(buffer: bytes, chunks: seq<bytes>)
    requires !HasFrame(buffer)
    ensures Flatten(FeedAndDrain(buffer, chunks).0) == Parse(buffer + Concat(chunks)).frames
    ensures FeedAndDrain(buffer, chunks).1 == Parse(buffer + Concat(chunks)).rest
    decreases |chunks|
  {
    if chunks == [] {
      Nil(buffer);
    } else {
      var p := Parse(buffer + chunks[0]);
      ParseLossless(buffer + chunks[0]);
      ChunkingIrrelevant(p.rest, chunks[1..]);
      ParseMore(buffer + chunks[0], Concat(chunks[1..]));
      Assoc(buffer, chunks[0], Concat(chunks[1..]));
      SplitSum([p.frames], FeedAndDrain(p.rest, chunks[1..]).0);
    }
  }

  lemma NoPartialFrame(payload: bytes, part: bytes)
    requires |payload| < FRAME_MAX_SIZE && part <= Frame(payload) && |part| < |Frame(payload)|
    ensures !HasFrame(part)
  {
    FrameParts(payload, []);
    Nil(Frame(payload));
  }

  /** Cutting the wire bytes anywhere leaves whole frames and a strict part of the next one. */
  lemma {:induction false} CutWire(ps: seq<bytes>, n: nat) returns (k: nat, part: bytes)
    requires Fits(ps) && n <= |Wire(ps)|
    ensures k <= |ps| && Fits(ps[..k]) && Wire(ps)[..n] == Wire(ps[..k]) + part
    ensures part == [] || (k < |ps| && part <= Frame(ps[k]))
    ensures k < |ps| ==> |part| < |Frame(ps[k])|
  {
    if ps == [] {
      k, part := 0, [];
    } else {
      var f, w := Frame(ps[0]), Wire(ps[1..]);
      if n < |f| {
        k, part := 0, f[..n];
        TakeOfSum(f, w, n);
        Nil(part);
      } else {
        var j;
        j, part := CutWire(ps[1..], n - |f|);
        k := j + 1;
        WireTake(ps, j);
        assert (f + w)[..n] == f + w[..n - |f|];
        Assoc(f, Wire(ps[1..][..j]), part);
      }
    }
  }

  lemma WireTake(ps: seq<bytes>, j: nat)
    requires Fits(ps) && j < |ps|
    ensures Fits(ps[..j + 1]) && Fits(ps[1..][..j])
    ensures Wire(ps[..j + 1]) == Frame(ps[0]) + Wire(ps[1..][..j])
  {
    assert ps[..j + 1][1..] == ps[1..][..j];
  }

  /**
   After any prefix of the wire bytes, the decoder has given out exactly the payloads whose
   frames are complete, and holds exactly the bytes of the unfinished one.
   */
  lemma ParsePrefix(ps: seq<bytes>, n: nat) returns (k: nat, part: bytes)
    requires Fits(ps) && n <= |Wire(ps)|
    ensures k <= |ps| && Fits(ps[..k]) && Wire(ps)[..n] == Wire(ps[..k]) + part
    ensures k < |ps| ==> |part| < |Frame(ps[k])|
    ensures k == |ps| ==> part == []
    ensures Parse(Wire(ps)[..n]) == Parsed(ps[..k], part)
  {
    k, part := CutWire(ps, n);
    if k < |ps| && part != [] {
      NoPartialFrame(ps[k], part);
    }
    ParseWire(ps[..k], part);
    Nil(ps[..k]);
  }

  /**
   The same under chunking: at any moment of reading the wire bytes of `ps` in any chunks, the
   first `k` payloads have been given out and less than one frame is held back.
   */
  lemma AfterEachChunk(ps: seq<bytes>, chunks: seq<bytes>, j: nat) returns (k: nat, part: bytes)
    requires Fits(ps) && Concat(chunks) == Wire(ps) && j <= |chunks|
    ensures k <= |ps| && Fits(ps[..k]) && Concat(chunks[..j]) == Wire(ps[..k]) + part
    ensures k < |ps| ==> |part| < |Frame(ps[k])|
    ensures k == |ps| ==> part == []
    ensures Flatten(FeedAndDrain([], chunks[..j]).0) == ps[..k] && FeedAndDrain([], chunks[..j]).1 == part
  {
    var seen := Concat(chunks[..j]);
    SplitAt(chunks, j);
    ConcatAppend(chunks[..j], chunks[j..]);
    SplitSum(seen, Concat(chunks[j..]));
    k, part := ParsePrefix(ps, |seen|);
    ChunkingIrrelevant([], chunks[..j]);
    Nil(seen);
  }
}
