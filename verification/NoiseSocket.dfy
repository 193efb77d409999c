/**
 The encrypted socket: a sender that owns the write counter, a receiver that owns the read
 counter, and the frames between them. AES-GCM is any keyed pair of functions in which opening
 undoes sealing under the same nonce and sealing adds the sixteen-byte tag.
 */
module NoiseSocket {
  import opened Bytes
  import opened Framing

  const U32: nat := 0x1_0000_0000
  const INLINE_ENCRYPT_THRESHOLD: nat := 16 * 1024
  const TAG_SIZE: nat := 16
  const NONCE_SIZE: nat := 12

  datatype Aead = Aead(seal: (bytes, bytes) -> bytes, open: (bytes, bytes) -> Option<bytes>)

  ghost predicate Sound(key: Aead) {
    forall iv, p :: |key.seal(iv, p)| == |p| + TAG_SIZE && key.open(iv, key.seal(iv, p)) == Some(p)
  }

  ghost predicate TagSized(key: Aead) {
    forall iv, p :: |key.seal(iv, p)| == |p| + TAG_SIZE
  }

  function GenerateIv(counter: nat): (iv: bytes)
    requires counter < U32
    ensures |iv| == NONCE_SIZE
  {
    [0, 0, 0, 0, 0, 0, 0, 0] +
    [counter / 0x100_0000, counter / 0x1_0000 % 256, counter / 0x100 % 256, counter % 256]
  }

  lemma IvBytes(c: nat)
    requires c < U32
    ensures var iv := GenerateIv(c);
      c == (iv[8] as int) * 0x100_0000 + (iv[9] as int) * 0x1_0000 + (iv[10] as int) * 0x100 + iv[11] as int
  {
    assert c / 0x100 == (c / 0x1_0000) * 256 + c / 0x100 % 256;
    assert c / 0x1_0000 == (c / 0x100_0000) * 256 + c / 0x1_0000 % 256;
  }

  /** Eight zero bytes, then the counter in four bytes, most significant first. */
  lemma IvMeaning(c: nat)
    requires c < U32
    ensures var iv := GenerateIv(c);
      && |iv| == 12 && (forall i :: 0 <= i < 8 ==> iv[i] == 0)
      && c == (iv[8] as int) * 0x100_0000 + (iv[9] as int) * 0x1_0000 + (iv[10] as int) * 0x100 + iv[11] as int
  {
    IvBytes(c);
  }

  /** Different counters give different nonces. */
  lemma IvInjective(a: nat, b: nat)
    requires a < U32 && b < U32 && GenerateIv(a) == GenerateIv(b)
    ensures a == b
  {
    IvBytes(a);
    IvBytes(b);
  }

  datatype ErrorKind = Crypto | Oversize | Join | Transport

  /** Both buffers come back to the caller, whatever happened. */
  datatype SendResult =
    | Sent(plaintextBuf: bytes, outBuf: bytes)
    | Failed(kind: ErrorKind, plaintextBuf: bytes, outBuf: bytes)

  /** What the environment does to one job. */
  datatype Fault = NoFault | CryptoFault | JoinFault | TransportFault

  datatype SendJob = SendJob(plaintextBuf: bytes, outBuf: bytes, fault: Fault)

  /** The frame a job puts on the wire when it succeeds under `counter`. */
  function SealedFrame(key: Aead, counter: nat, plaintext: bytes): bytes
    requires counter < U32 && |key.seal(GenerateIv(counter), plaintext)| < FRAME_MAX_SIZE
  {
    Frame(key.seal(GenerateIv(counter), plaintext))
  }

  /** A join fault can only happen on the branch that hands the work to another thread. */
  predicate Succeeds(job: SendJob) {
    && |job.plaintextBuf| + TAG_SIZE < FRAME_MAX_SIZE
    && job.fault != CryptoFault && job.fault != TransportFault
    && (job.fault == JoinFault ==> |job.plaintextBuf| <= INLINE_ENCRYPT_THRESHOLD)
  }

  /** How a job ends, and what is left in the two buffers the caller gets back. */
  ghost function Outcome(key: Aead, counter: nat, job: SendJob): SendResult
    requires counter < U32 && TagSized(key)
  {
    var small := |job.plaintextBuf| <= INLINE_ENCRYPT_THRESHOLD;
    if job.fault == CryptoFault then
      if small then Failed(Crypto, [], job.plaintextBuf) else Failed(Crypto, job.plaintextBuf, job.outBuf)
    else if !small && job.fault == JoinFault then Failed(Join, job.plaintextBuf, job.outBuf)
    else if |job.plaintextBuf| + TAG_SIZE >= FRAME_MAX_SIZE then Failed(Oversize, [], [])
    else if job.fault == TransportFault then
      assert |key.seal(GenerateIv(counter), job.plaintextBuf)| < FRAME_MAX_SIZE;
      Failed(Transport, [], SealedFrame(key, counter, job.plaintextBuf))
    else Sent([], [])
  }

  /** A job that meets no fault and fits a frame returns both buffers empty, and only such a job. */
  lemma SentExactly(key: Aead, counter: nat, job: SendJob)
    requires counter < U32 && TagSized(key)
    ensures Outcome(key, counter, job).Sent? <==>
      |job.plaintextBuf| < 16777200 && (job.fault == NoFault || (job.fault == JoinFault && |job.plaintextBuf| <= 16384))
    ensures Outcome(key, counter, job).Sent? ==> Outcome(key, counter, job) == Sent([], [])
  {
  }

  /** What comes back from a job that fails: the kind, and what is left in each buffer. */
  lemma FailedMeaning(key: Aead, counter: nat, job: SendJob)
    requires counter < U32 && TagSized(key)
    ensures var r, n := Outcome(key, counter, job), |job.plaintextBuf|;
      && (job.fault == CryptoFault && n <= 16384 ==> r == Failed(Crypto, [], job.plaintextBuf))
      && (job.fault == CryptoFault && n > 16384 ==> r == Failed(Crypto, job.plaintextBuf, job.outBuf))
      && (job.fault == JoinFault && n > 16384 ==> r == Failed(Join, job.plaintextBuf, job.outBuf))
      && ((job.fault == NoFault || job.fault == TransportFault) && n >= 16777200 ==> r == Failed(Oversize, [], []))
      && (job.fault == TransportFault && n < 16777200 ==>
            && r.Failed? && r.kind == Transport && r.plaintextBuf == []
            && |r.outBuf| == n + 19 && r.outBuf[3..] == key.seal(GenerateIv(counter), job.plaintextBuf))
  {
  }

  class Sender {
    const key: Aead
    var writeCounter: nat
    /** What the transport accepted, one entry per successful send. */
    var wire: seq<bytes>

    constructor (key: Aead)
      ensures this.key == key && writeCounter == 0 && wire == []
    {
      this.key := key;
      writeCounter := 0;
      wire := [];
    }

    /** Copies the plaintext into `out`, seals it there, and frames it through the other buffer. */
    method EncryptInline(plaintextBuf: Buffer, outBuf: Buffer, counter: nat, fault: Fault)
      returns (ok: bool)
      requires plaintextBuf != outBuf && counter < U32 && TagSized(key)
      requires |plaintextBuf.data| <= INLINE_ENCRYPT_THRESHOLD
      modifies plaintextBuf, outBuf
      ensures plaintextBuf.data == []
      ensures ok <==> fault != CryptoFault
      ensures |key.seal(GenerateIv(counter), old(plaintextBuf.data))| < FRAME_MAX_SIZE
      ensures ok ==> outBuf.data == SealedFrame(key, counter, old(plaintextBuf.data))
      ensures !ok ==> outBuf.data == old(plaintextBuf.data)
    {
      outBuf.data := [];
      Nil(plaintextBuf.data);
      outBuf.data := outBuf.data + plaintextBuf.data;
      plaintextBuf.data := [];
      if fault == CryptoFault {
        return false;
      }
      outBuf.data := key.seal(GenerateIv(counter), outBuf.data);
      Nil(outBuf.data);
      plaintextBuf.data := plaintextBuf.data + outBuf.data;
      outBuf.data := [];
      // At most 16 KiB and a tag, so framing cannot refuse it.
      ok := EncodeFrameInto(plaintextBuf.data, None, outBuf);
      plaintextBuf.data := [];
    }

    /** One job: take the counter, seal inline or on another thread, frame, hand over. */
    method ProcessSendJob(job: SendJob) returns (r: SendResult)
      requires writeCounter < U32 && TagSized(key)
      modifies this
      ensures writeCounter == (old(writeCounter) + 1) % U32
      ensures r == Outcome(key, old(writeCounter), job)
      ensures r.Sent? <==> Succeeds(job)
      ensures wire == old(wire) + WireOf(key, old(writeCounter), job)
    {
      Nil(wire);
      var counter := writeCounter;
      writeCounter := (writeCounter + 1) % U32;
      var plaintextBuf := new Buffer(job.plaintextBuf);
      var outBuf := new Buffer(job.outBuf);
      if |plaintextBuf.data| <= INLINE_ENCRYPT_THRESHOLD {
        var ok := EncryptInline(plaintextBuf, outBuf, counter, job.fault);
        if !ok {
          return Failed(Crypto, plaintextBuf.data, outBuf.data);
        }
      } else {
        if job.fault == CryptoFault {
          return Failed(Crypto, plaintextBuf.data, outBuf.data);
        }
        if job.fault == JoinFault {
          return Failed(Join, plaintextBuf.data, outBuf.data);
        }
        var ciphertext := key.seal(GenerateIv(counter), plaintextBuf.data);
        plaintextBuf.data := [];
        outBuf.data := [];
        var ok := EncodeFrameInto(ciphertext, None, outBuf);
        if !ok {
          return Failed(Oversize, plaintextBuf.data, outBuf.data);
        }
      }
      if job.fault == TransportFault {
        return Failed(Transport, plaintextBuf.data, outBuf.data);
      }
      wire := wire + [outBuf.data];
      outBuf.data := [];
      return Sent(plaintextBuf.data, outBuf.data);
    }

    /** The sender loop over its job channel; it owns the counter. */
    method Run(jobs: seq<SendJob>) returns (results: seq<SendResult>)
      requires TagSized(key) && writeCounter < U32
      modifies this
      ensures |results| == |jobs|
      ensures forall i :: 0 <= i < |jobs| ==> (results[i].Sent? <==> Succeeds(jobs[i]))
      ensures wire == old(wire) + WireLog(key, old(writeCounter), jobs)
      ensures writeCounter == Advance(old(writeCounter), |jobs|)
    {
      results := [];
      assert jobs[..0] == [];
      Nil(wire);
      var i := 0;
      while i < |jobs|
        invariant i == |results| <= |jobs|
        invariant forall j :: 0 <= j < i ==> (results[j].Sent? <==> Succeeds(jobs[j]))
        invariant wire == old(wire) + WireLog(key, old(writeCounter), jobs[..i])
        invariant writeCounter == Advance(old(writeCounter), i)
      {
        var next := i + 1;
        WireLogSnoc(key, old(writeCounter), jobs, i, next);
        Assoc(old(wire), WireLog(key, old(writeCounter), jobs[..i]), WireOf(key, writeCounter, jobs[i]));
        AdvanceNext(old(writeCounter), i, next);
        var r := ProcessSendJob(jobs[i]);
        results := results + [r];
        i := next;
      }
      assert jobs[..|jobs|] == jobs;
    }
  }

  /** A 32-bit counter after `n` increments. */
  function Advance(c: nat, n: nat): (r: nat)
    requires c < U32
    ensures r < U32
    decreases n
  {
    if n == 0 then c else Advance((c + 1) % U32, n - 1)
  }

  lemma AdvanceNext(c: nat, i: nat, next: nat)
    requires c < U32 && next == i + 1
    ensures Advance(c, next) == (Advance(c, i) + 1) % U32
  {
    AdvanceSum(c, i, 1);
  }

  lemma {:induction false} AdvanceSum(c: nat, a: nat, b: nat)
    requires c < U32
    ensures Advance(Advance(c, a), b) == Advance(c, a + b)
    decreases a
  {
    if a == 0 {
    } else {
      AdvanceSum((c + 1) % U32, a - 1, b);
    }
  }

  lemma Residue(x: nat, q: nat, m: nat)
    requires m < U32 && x == U32 * q + m
    ensures x % U32 == m
  {
  }

  lemma ModAdd(a: nat, b: nat)
    ensures (a % U32 + b) % U32 == (a + b) % U32
  {
    var q, y := a / U32, a % U32 + b;
    Residue(a + b, q + y / U32, y % U32);
  }

  /** `n` wrapping increments are addition modulo 2^32. */
  lemma {:induction false} AdvanceIsSum(c: nat, n: nat)
    requires c < U32
    ensures Advance(c, n) == (c + n) % 0x1_0000_0000
    decreases n
  {
    if n == 0 {
    } else {
      AdvanceIsSum((c + 1) % U32, n - 1);
      ModAdd(c + 1, n - 1);
    }
  }

  /** What a job that took counter `c` puts on the wire. */
  ghost function WireOf(key: Aead, c: nat, job: SendJob): seq<bytes>
    requires TagSized(key) && c < U32
  {
    if Succeeds(job) then
      assert |key.seal(GenerateIv(c), job.plaintextBuf)| < FRAME_MAX_SIZE;
      [SealedFrame(key, c, job.plaintextBuf)]
    else []
  }

  /** The frames a list of jobs puts on the wire: job `i` uses the counter after `i` increments. */
  ghost function WireLog(key: Aead, start: nat, jobs: seq<SendJob>): seq<bytes>
    requires TagSized(key) && start < U32
    decreases |jobs|
  {
    if jobs == [] then []
    else
      var i := |jobs| - 1;
      WireLog(key, start, jobs[..i]) + WireOf(key, Advance(start, i), jobs[i])
  }

  lemma WireLogSnoc(key: Aead, start: nat, jobs: seq<SendJob>, i: nat, next: nat)
    requires TagSized(key) && start < U32 && next == i + 1 <= |jobs|
    ensures WireLog(key, start, jobs[..next])
         == WireLog(key, start, jobs[..i]) + WireOf(key, Advance(start, i), jobs[i])
  {
    assert jobs[..next][..i] == jobs[..i];
  }

  /** Within any 2^32 consecutive jobs no two use the same nonce. */
  lemma NoncesDistinct(start: nat, i: nat, j: nat)
    requires start < U32 && i < j < i + U32
    ensures GenerateIv(Advance(start, i)) != GenerateIv(Advance(start, j))
  {
    AdvanceIsSum(start, i);
    AdvanceIsSum(start, j);
    ResiduesDistinct(start + i, start + j);
    if GenerateIv(Advance(start, i)) == GenerateIv(Advance(start, j)) {
      IvInjective(Advance(start, i), Advance(start, j));
      assert false;
    }
  }

  lemma ResiduesDistinct(a: nat, b: nat)
    requires a < b < a + U32
    ensures a % U32 != b % U32
  {
  }

  // ----- the receiving side -----

  class Receiver {
    const key: Aead
    var readCounter: nat

    constructor (key: Aead)
      ensures this.key == key && readCounter == 0
    {
      this.key := key;
      readCounter := 0;
    }

    /** The counter moves on whether or not the frame opens. */
    method DecryptFrame(ciphertext: bytes) returns (r: Option<bytes>)
      requires readCounter < U32
      modifies this
      ensures readCounter == (old(readCounter) + 1) % U32
      ensures r == key.open(GenerateIv(old(readCounter)), ciphertext)
    {
      var counter := readCounter;
      readCounter := (readCounter + 1) % U32;
      r := key.open(GenerateIv(counter), ciphertext);
    }

    /** Drains the decoder: every whole frame in its buffer is opened, in order. */
    method Drain(decoder: FrameDecoder) returns (plaintexts: seq<Option<bytes>>)
      requires readCounter < U32
      modifies this, decoder
      ensures plaintexts == OpenAll(key, old(readCounter), Parse(old(decoder.buffer)).frames)
      ensures decoder.buffer == Parse(old(decoder.buffer)).rest
      ensures readCounter == Advance(old(readCounter), |plaintexts|)
    {
      plaintexts := [];
      ghost var done: seq<bytes> := [];
      ghost var all := Parse(decoder.buffer);
      Nil(all.frames);
      while true
        invariant readCounter == Advance(old(readCounter), |done|)
        invariant Parsed(done + Parse(decoder.buffer).frames, Parse(decoder.buffer).rest) == all
        invariant plaintexts == OpenAll(key, old(readCounter), done)
        decreases |decoder.buffer|
      {
        var frame := decoder.DecodeFrame();
        if frame.None? {
          Nil(done);
          break;
        }
        Assoc(done, [frame.value], Parse(decoder.buffer).frames);
        OpenAllSnoc(key, old(readCounter), done, frame.value);
        AdvanceSum(old(readCounter), |done|, 1);
        var plain := DecryptFrame(frame.value);
        plaintexts := plaintexts + [plain];
        done := done + [frame.value];
      }
    }

    /** The read loop: feed each chunk that arrives, then drain. */
    method ReadChunks(decoder: FrameDecoder, chunks: seq<bytes>) returns (plaintexts: seq<Option<bytes>>)
      requires readCounter < U32 && !HasFrame(decoder.buffer)
      modifies this, decoder
      ensures plaintexts == OpenAll(key, old(readCounter), Parse(old(decoder.buffer) + Concat(chunks)).frames)
      ensures decoder.buffer == Parse(old(decoder.buffer) + Concat(chunks)).rest
      ensures readCounter == Advance(old(readCounter), |plaintexts|)
    {
      plaintexts := [];
      ghost var fed: bytes := decoder.buffer;
      ghost var frames: seq<bytes> := [];
      assert chunks[0..] == chunks;
      for i := 0 to |chunks|
        invariant readCounter == Advance(old(readCounter), |frames|)
        invariant fed + Concat(chunks[i..]) == old(decoder.buffer) + Concat(chunks)
        invariant Parse(fed) == Parsed(frames, decoder.buffer)
        invariant plaintexts == OpenAll(key, old(readCounter), frames)
      {
        ghost var chunk := chunks[i];
        DropDrop(chunks, i, 1);
        Assoc(fed, chunk, Concat(chunks[i + 1..]));
        ParseMore(fed, chunk);
        fed := fed + chunk;
        decoder.Feed(chunks[i]);
        ghost var more := Parse(decoder.buffer).frames;
        OpenAllAppend(key, old(readCounter), frames, more);
        AdvanceSum(old(readCounter), |frames|, |more|);
        var some := Drain(decoder);
        plaintexts := plaintexts + some;
        frames := frames + more;
      }
      Nil(fed);
    }
  }

  /** The frames opened one after the other under the counter `c` and its successors. */
  function OpenAll(key: Aead, c: nat, frames: seq<bytes>): (r: seq<Option<bytes>>)
    requires c < U32
    ensures |r| == |frames|
    decreases |frames|
  {
    if frames == [] then []
    else [key.open(GenerateIv(c), frames[0])] + OpenAll(key, (c + 1) % U32, frames[1..])
  }

  lemma {:induction false} OpenAllAppend(key: Aead, c: nat, a: seq<bytes>, b: seq<bytes>)
    requires c < U32
    ensures OpenAll(key, c, a + b) == OpenAll(key, c, a) + OpenAll(key, Advance(c, |a|), b)
    decreases |a|
  {
    if a == [] {
      Nil(b);
      Nil(OpenAll(key, c, b));
    } else {
      var d := (c + 1) % U32;
      OpenAllAppend(key, d, a[1..], b);
      TailOfSum(a, b);
      Assoc([key.open(GenerateIv(c), a[0])], OpenAll(key, d, a[1..]), OpenAll(key, Advance(c, |a|), b));
    }
  }

  lemma OpenAllSnoc(key: Aead, c: nat, a: seq<bytes>, f: bytes)
    requires c < U32
    ensures OpenAll(key, c, a + [f]) == OpenAll(key, c, a) + [key.open(GenerateIv(Advance(c, |a|)), f)]
  {
    OpenAllAppend(key, c, a, [f]);
    Nil([key.open(GenerateIv(Advance(c, |a|)), f)]);
  }

  // ----- end to end -----

  /** The positions of the jobs that succeed, in order. */
  function Successes(jobs: seq<SendJob>): (r: seq<nat>)
    ensures |r| <= |jobs|
    ensures forall m :: 0 <= m < |r| ==> m <= r[m] < |jobs| && Succeeds(jobs[r[m]])
    decreases |jobs|
  {
    if jobs == [] then []
    else
      var i := |jobs| - 1;
      Successes(jobs[..i]) + if Succeeds(jobs[i]) then [i] else []
  }

  /** The ciphertexts that reach the wire. */
  function Sealed(key: Aead, start: nat, jobs: seq<SendJob>): (r: seq<bytes>)
    requires start < U32
    ensures |r| == |Successes(jobs)|
    decreases |jobs|
  {
    if jobs == [] then []
    else
      var i := |jobs| - 1;
      Sealed(key, start, jobs[..i]) +
      if Succeeds(jobs[i]) then [key.seal(GenerateIv(Advance(start, i)), jobs[i].plaintextBuf)] else []
  }

  lemma {:induction false} SealedAt(key: Aead, start: nat, jobs: seq<SendJob>, m: nat)
    requires start < U32 && m < |Successes(jobs)|
    ensures var i := Successes(jobs)[m];
      Sealed(key, start, jobs)[m] == key.seal(GenerateIv(Advance(start, i)), jobs[i].plaintextBuf)
    decreases |jobs|
  {
    var n := |jobs| - 1;
    if m < |Successes(jobs[..n])| {
      SealedAt(key, start, jobs[..n], m);
    }
  }

  lemma {:induction false} WireLogBytes(key: Aead, start: nat, jobs: seq<SendJob>)
    requires TagSized(key) && start < U32
    ensures Fits(Sealed(key, start, jobs))
    ensures Concat(WireLog(key, start, jobs)) == Wire(Sealed(key, start, jobs))
    decreases |jobs|
  {
    if jobs == [] {
    } else {
      var i := |jobs| - 1;
      var before := jobs[..i];
      WireLogBytes(key, start, before);
      if Succeeds(jobs[i]) {
        var sealed := key.seal(GenerateIv(Advance(start, i)), jobs[i].plaintextBuf);
        ConcatSnoc(WireLog(key, start, before), Frame(sealed));
        WireSnoc(Sealed(key, start, before), sealed);
      } else {
        Nil(WireLog(key, start, before));
        Nil(Sealed(key, start, before));
      }
    }
  }

  lemma {:induction false} WireSnoc(a: seq<bytes>, p: bytes)
    requires Fits(a) && |p| < FRAME_MAX_SIZE
    ensures Fits(a + [p]) && Wire(a + [p]) == Wire(a) + Frame(p)
  {
    if a == [] {
      Nil([p]);
      Nil(Frame(p));
    } else {
      WireSnoc(a[1..], p);
      TailOfSum(a, [p]);
      Assoc(Frame(a[0]), Wire(a[1..]), Frame(p));
    }
  }

  lemma {:induction false} OpenAllAt(key: Aead, c: nat, frames: seq<bytes>, m: nat)
    requires c < U32 && m < |frames|
    ensures OpenAll(key, c, frames)[m] == key.open(GenerateIv(Advance(c, m)), frames[m])
    decreases m
  {
    if m == 0 {
    } else {
      OpenAllAt(key, (c + 1) % U32, frames[1..], m - 1);
    }
  }

  /** What the wire bytes of any jobs parse to, whatever the chunking. */
  lemma WireParses(key: Aead, start: nat, jobs: seq<SendJob>, chunks: seq<bytes>)
    requires TagSized(key) && start < U32 && Concat(chunks) == Concat(WireLog(key, start, jobs))
    ensures Parse(Concat(chunks)) == Parsed(Sealed(key, start, jobs), [])
  {
    var sealed := Sealed(key, start, jobs);
    WireLogBytes(key, start, jobs);
    ParseWire(sealed, []);
    Nil(Wire(sealed));
    Nil(sealed);
  }

  predicate AllSucceed(jobs: seq<SendJob>) {
    forall i :: 0 <= i < |jobs| ==> Succeeds(jobs[i])
  }

  lemma {:induction false} SuccessesAll(jobs: seq<SendJob>)
    requires AllSucceed(jobs)
    ensures |Successes(jobs)| == |jobs| && forall m :: 0 <= m < |jobs| ==> Successes(jobs)[m] == m
    decreases |jobs|
  {
    if jobs == [] {
    } else {
      SuccessesAll(jobs[..|jobs| - 1]);
    }
  }

  function Plaintexts(jobs: seq<SendJob>): seq<Option<bytes>> {
    seq(|jobs|, i requires 0 <= i < |jobs| => Some(jobs[i].plaintextBuf))
  }

  /**
   End to end: jobs that all succeed put bytes on the wire which, cut into chunks in any way and
   read by a peer whose counter started where the sender's did, open to exactly the plaintexts
   in order. The counters stay in step across the 32-bit wrap.
   */
  lemma EndToEnd(key: Aead, start: nat, jobs: seq<SendJob>, chunks: seq<bytes>)
    requires Sound(key) && start < U32 && AllSucceed(jobs)
    requires Concat(chunks) == Concat(WireLog(key, start, jobs))
    ensures OpenAll(key, start, Parse(Concat(chunks)).frames) == Plaintexts(jobs)
    ensures Parse(Concat(chunks)).rest == []
  {
    WireParses(key, start, jobs, chunks);
    SuccessesAll(jobs);
    var sealed := Sealed(key, start, jobs);
    forall m | 0 <= m < |jobs| ensures OpenAll(key, start, sealed)[m] == Plaintexts(jobs)[m] {
      OpenAllAt(key, start, sealed, m);
      SealedAt(key, start, jobs, m);
    }
  }

  /** Opening under another nonce than the one used for sealing fails. */
  ghost predicate Authenticating(key: Aead) {
    forall iv, other, p :: |iv| == |other| == NONCE_SIZE && iv != other ==> key.open(other, key.seal(iv, p)).None?
  }

  function NonceTag(iv: bytes): (tag: bytes)
    ensures |tag| == TAG_SIZE
  {
    if |iv| == NONCE_SIZE then iv + [0, 0, 0, 0] else seq(TAG_SIZE, i => 0)
  }

  function AppendTag(iv: bytes, p: bytes): bytes {
    p + NonceTag(iv)
  }

  function CheckTag(iv: bytes, c: bytes): Option<bytes> {
    if |c| >= TAG_SIZE && c[|c| - TAG_SIZE..] == NonceTag(iv) then Some(c[..|c| - TAG_SIZE]) else None
  }

  /** The two laws can be met together: the nonce itself may serve as the tag. */
  lemma LawfulKey() returns (key: Aead)
    ensures Sound(key) && Authenticating(key)
  {
    key := Aead(AppendTag, CheckTag);
    forall iv, p ensures key.open(iv, key.seal(iv, p)) == Some(p) {
      SplitSum(p, NonceTag(iv));
    }
    forall iv: bytes, other: bytes, p: bytes | |iv| == |other| == NONCE_SIZE && iv != other
      ensures key.open(other, key.seal(iv, p)).None?
    {
      SplitSum(p, NonceTag(iv));
      SplitSum(iv, [0, 0, 0, 0]);
      SplitSum(other, [0, 0, 0, 0]);
    }
  }

  lemma InStepExactly(start: nat, i: nat, m: nat)
    requires start < U32 && m <= i
    ensures GenerateIv(Advance(start, i)) == GenerateIv(Advance(start, m)) <==> (i - m) % U32 == 0
  {
    AdvanceIsSum(start, i);
    AdvanceIsSum(start, m);
    ModAdd(i - m, start + m);
    if GenerateIv(Advance(start, i)) == GenerateIv(Advance(start, m)) {
      IvInjective(Advance(start, i), Advance(start, m));
      SameResidue(start + i, start + m);
    }
  }

  lemma SameResidue(a: nat, b: nat)
    requires b <= a && a % U32 == b % U32
    ensures (a - b) % U32 == 0
  {
    Residue(a - b, a / U32 - b / U32, 0);
  }

  /**
   Any jobs, failed ones included: the peer gets one frame per success, and the frame of job `i`
   opens to its plaintext exactly when the number of jobs that failed before it is a multiple of
   2^32. A single failed job therefore cuts the peer off from everything sent after it.
   */
  lemma DeliveredExactly(key: Aead, start: nat, jobs: seq<SendJob>, chunks: seq<bytes>, frames: seq<bytes>, m: nat, i: nat)
    requires Sound(key) && Authenticating(key) && start < U32
    requires Concat(chunks) == Concat(WireLog(key, start, jobs)) && frames == Parse(Concat(chunks)).frames
    requires m < |Successes(jobs)| && i == Successes(jobs)[m]
    ensures |frames| == |Successes(jobs)|
    ensures OpenAll(key, start, frames)[m] == if (i - m) % U32 == 0 then Some(jobs[i].plaintextBuf) else None
  {
    WireParses(key, start, jobs, chunks);
    SealedOpens(key, start, jobs, m, i);
  }

  lemma SealedOpensIf(key: Aead, start: nat, jobs: seq<SendJob>, m: nat, i: nat, same: bool)
    requires Sound(key) && Authenticating(key) && start < U32
    requires m < |Successes(jobs)| && i == Successes(jobs)[m]
    requires same <==> GenerateIv(Advance(start, i)) == GenerateIv(Advance(start, m))
    ensures OpenAll(key, start, Sealed(key, start, jobs))[m] == if same then Some(jobs[i].plaintextBuf) else None
  {
    OpenAllAt(key, start, Sealed(key, start, jobs), m);
    SealedAt(key, start, jobs, m);
  }

  lemma SealedOpens(key: Aead, start: nat, jobs: seq<SendJob>, m: nat, i: nat)
    requires Sound(key) && Authenticating(key) && start < U32
    requires m < |Successes(jobs)| && i == Successes(jobs)[m]
    ensures OpenAll(key, start, Sealed(key, start, jobs))[m]
         == if (i - m) % U32 == 0 then Some(jobs[i].plaintextBuf) else None
  {
    InStepExactly(start, i, m);
    SealedOpensIf(key, start, jobs, m, i, (i - m) % U32 == 0);
  }

  /** What the peer makes of frame `m` when it is the frame of job `i`. */
  function ReceivedAt(jobs: seq<SendJob>, m: nat, i: nat): Option<bytes>
    requires m <= i < |jobs|
  {
    if (i - m) % U32 == 0 then Some(jobs[i].plaintextBuf) else None
  }

  /** What the peer makes of the frames of these jobs. */
  function Received(jobs: seq<SendJob>): (r: seq<Option<bytes>>)
    ensures |r| == |Successes(jobs)|
  {
    seq(|Successes(jobs)|, m requires 0 <= m < |Successes(jobs)| => ReceivedAt(jobs, m, Successes(jobs)[m]))
  }

  lemma OpensAsReceived(key: Aead, start: nat, jobs: seq<SendJob>, m: nat, i: nat)
    requires Sound(key) && Authenticating(key) && start < U32
    requires m < |Successes(jobs)| && i == Successes(jobs)[m]
    ensures OpenAll(key, start, Sealed(key, start, jobs))[m] == ReceivedAt(jobs, m, i)
  {
    var same := (i - m) % U32 == 0;
    InStepExactly(start, i, m);
    SealedOpensIf(key, start, jobs, m, i, same);
  }

  lemma OpenSealed(key: Aead, start: nat, jobs: seq<SendJob>)
    requires Sound(key) && Authenticating(key) && start < U32
    ensures OpenAll(key, start, Sealed(key, start, jobs)) == Received(jobs)
  {
    forall m: nat | m < |Successes(jobs)|
      ensures OpenAll(key, start, Sealed(key, start, jobs))[m] == Received(jobs)[m]
    {
      OpensAsReceived(key, start, jobs, m, Successes(jobs)[m]);
    }
  }

  /** `DeliveredExactly` and `EndToEnd` for all frames at once. */
  lemma Delivered(key: Aead, start: nat, jobs: seq<SendJob>, chunks: seq<bytes>, texts: seq<Option<bytes>>)
    requires Sound(key) && start < U32 && Concat(chunks) == Concat(WireLog(key, start, jobs))
    requires texts == OpenAll(key, start, Parse(Concat(chunks)).frames)
    ensures |texts| == |Successes(jobs)|
    ensures Authenticating(key) ==> texts == Received(jobs)
    ensures AllSucceed(jobs) ==> texts == Plaintexts(jobs)
  {
    WireParses(key, start, jobs, chunks);
    if Authenticating(key) {
      OpenSealed(key, start, jobs);
    }
    if AllSucceed(jobs) {
      EndToEnd(key, start, jobs, chunks);
    }
  }

  /**
   The same with the machinery in place, for any jobs: a sender, a transport that cuts as it
   likes, a reader.
   */
  method Session(sender: Sender, receiver: Receiver, jobs: seq<SendJob>, chunks: seq<bytes>)
    returns (plaintexts: seq<Option<bytes>>)
    requires sender.key == receiver.key && Sound(sender.key)
    requires sender.writeCounter == receiver.readCounter < U32 && sender.wire == []
    requires Concat(chunks) == Concat(WireLog(sender.key, sender.writeCounter, jobs))
    modifies sender, receiver
    ensures Concat(sender.wire) == Concat(chunks)
    ensures |plaintexts| == |Successes(jobs)|
    ensures Authenticating(sender.key) ==> plaintexts == Received(jobs)
    ensures AllSucceed(jobs) ==> plaintexts == Plaintexts(jobs)
  {
    ghost var start := sender.writeCounter;
    Nil(WireLog(sender.key, sender.writeCounter, jobs));
    var results := sender.Run(jobs);
    plaintexts := ReadAll(receiver, chunks);
    Delivered(sender.key, start, jobs, chunks, plaintexts);
  }

  method ReadAll(receiver: Receiver, chunks: seq<bytes>) returns (plaintexts: seq<Option<bytes>>)
    requires receiver.readCounter < U32
    modifies receiver
    ensures plaintexts == OpenAll(receiver.key, old(receiver.readCounter), Parse(Concat(chunks)).frames)
  {
    var decoder := new FrameDecoder();
    Nil(Concat(chunks));
    plaintexts := receiver.ReadChunks(decoder, chunks);
  }

  /** A job that succeeds puts one frame on the wire, its sealed plaintext under the job's counter. */
  lemma WireMeaning(key: Aead, counter: nat, job: SendJob)
    requires counter < U32 && TagSized(key)
    ensures |WireOf(key, counter, job)| == if Outcome(key, counter, job).Sent? then 1 else 0
    ensures Outcome(key, counter, job).Sent? ==>
      var f := WireOf(key, counter, job)[0];
      && |f| == |job.plaintextBuf| + 19 && f[3..] == key.seal(GenerateIv(counter), job.plaintextBuf)
      && (f[0] as int) * 65536 + (f[1] as int) * 256 + f[2] as int == |job.plaintextBuf| + 16
  {
    if Outcome(key, counter, job).Sent? {
      FrameMeaning(key.seal(GenerateIv(counter), job.plaintextBuf));
    }
  }
}
