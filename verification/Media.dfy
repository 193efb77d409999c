/** Media encryption, one-shot decryption and decryption of a stream of reads. */
module Media {
  import opened Bytes
  import opened Cbc

  const MAC_SIZE: nat := 10

  datatype MediaType =
    | Image | Video | Audio | Document | History | AppState | Sticker | StickerPack | LinkThumbnail

  function AppInfo(t: MediaType): string {
    match t
    case Image => "WhatsApp Image Keys"
    case Video => "WhatsApp Video Keys"
    case Audio => "WhatsApp Audio Keys"
    case Document => "WhatsApp Document Keys"
    case History => "WhatsApp History Keys"
    case AppState => "WhatsApp App State Keys"
    case Sticker => "WhatsApp Image Keys"
    case StickerPack => "WhatsApp Sticker Pack Keys"
    case LinkThumbnail => "WhatsApp Link Thumbnail Keys"
  }

  datatype Keys = Keys(iv: bytes, cipherKey: bytes, macKey: bytes)

  function GetMediaKeys(s: Suite, mediaKey: bytes, t: MediaType): (k: Keys)
    requires Sized(s)
    ensures |k.iv| == BLOCK && |k.cipherKey| == 32 && |k.macKey| == 32
  {
    var expanded := s.expand(mediaKey, AppInfo(t));
    Keys(expanded[0..16], expanded[16..48], expanded[48..80])
  }

  /** The first eighty bytes of the expanded key are the vector, the cipher key and the MAC key. */
  lemma KeysMeaning(s: Suite, mediaKey: bytes, t: MediaType)
    requires Sized(s)
    ensures var k := GetMediaKeys(s, mediaKey, t);
      k.iv + k.cipherKey + k.macKey == s.expand(mediaKey, AppInfo(t))[..80]
  {
  }

  /** The names the keys are expanded under. */
  lemma AppInfoMeaning()
    ensures AppInfo(Image) == AppInfo(Sticker) == "WhatsApp Image Keys" && AppInfo(Video) == "WhatsApp Video Keys"
    ensures AppInfo(Audio) == "WhatsApp Audio Keys" && AppInfo(Document) == "WhatsApp Document Keys"
    ensures AppInfo(History) == "WhatsApp History Keys" && AppInfo(AppState) == "WhatsApp App State Keys"
    ensures AppInfo(StickerPack) == "WhatsApp Sticker Pack Keys"
    ensures AppInfo(LinkThumbnail) == "WhatsApp Link Thumbnail Keys"
  {
  }

  /** Keys of different media types are expanded under different names, but stickers are images. */
  lemma AppInfoDistinct(a: MediaType, b: MediaType)
    ensures AppInfo(a) == AppInfo(b) <==> a == b || {a, b} == {Image, Sticker}
  {
    var x, y := AppInfo(a), AppInfo(b);
    assert x == y ==> |x| == |y| && x[9] == y[9];
  }

  datatype MediaError = ReadFailed | TooShort | InvalidSize | MacMismatch | BadCiphertext | BadPadding

  function Mac(s: Suite, k: Keys, ciphertext: bytes): (m: bytes)
    requires Sized(s)
    ensures |m| == MAC_SIZE
  {
    s.hmac(k.macKey, k.iv + ciphertext)[..MAC_SIZE]
  }

  /** The ciphertext and its truncated MAC, as uploaded. */
  function Upload(s: Suite, k: Keys, plaintext: bytes): bytes
    requires Sized(s) && |k.iv| == BLOCK
  {
    var data := Encrypt(s, k.cipherKey, k.iv, Pad(plaintext));
    data + Mac(s, k, data)
  }

  /** The upload: the chained ciphertext, then ten bytes of the MAC over the vector and the ciphertext. */
  lemma UploadMeaning(s: Suite, mediaKey: bytes, t: MediaType, p: bytes)
    requires Sized(s)
    ensures var e := s.expand(mediaKey, AppInfo(t));
      var c := Encrypt(s, e[16..48], e[..16], Pad(p));
      Upload(s, GetMediaKeys(s, mediaKey, t), p) == c + s.hmac(e[48..80], e[..16] + c)[..10]
  {
  }

  datatype EncryptedMedia = EncryptedMedia(dataToUpload: bytes, mediaKey: bytes, fileSha256: bytes, fileEncSha256: bytes)

  /** The media key is drawn at random by the caller of the model. */
  method EncryptMedia(s: Suite, plaintext: bytes, t: MediaType, mediaKey: bytes) returns (r: EncryptedMedia)
    requires Sized(s)
    ensures r.dataToUpload == Upload(s, GetMediaKeys(s, mediaKey, t), plaintext)
    ensures r.mediaKey == mediaKey && r.fileSha256 == s.sha256(plaintext)
    ensures r.fileEncSha256 == s.sha256(r.dataToUpload)
  {
    var fileSha256 := s.sha256(plaintext);
    var k := GetMediaKeys(s, mediaKey, t);
    var data := new Buffer([]);
    data.data := data.data + Encrypt(s, k.cipherKey, k.iv, Pad(plaintext));
    Nil(Encrypt(s, k.cipherKey, k.iv, Pad(plaintext)));
    var macInput := k.iv;
    macInput := macInput + data.data;
    var macFull := s.hmac(k.macKey, macInput);
    data.data := data.data + macFull[..MAC_SIZE];
    return EncryptedMedia(data.data, mediaKey, fileSha256, s.sha256(data.data));
  }

  /** One-shot decryption of a whole download. */
  function VerifyAndDecrypt(s: Suite, k: Keys, payload: bytes): Result<bytes, MediaError>
    requires Sized(s) && |k.iv| == BLOCK
  {
    if |payload| <= MAC_SIZE then Err(TooShort)
    else
      var ciphertext := payload[..|payload| - MAC_SIZE];
      if Mac(s, k, ciphertext) != payload[|payload| - MAC_SIZE..] then Err(MacMismatch)
      else if |ciphertext| % BLOCK != 0 then Err(BadCiphertext)
      else
        match Unpad(Decrypt(s, k.cipherKey, k.iv, ciphertext))
        case None => Err(BadCiphertext)
        case Some(p) => Ok(p)
  }

  lemma PayloadParts(payload: bytes, c: bytes, m: bytes)
    requires |m| == MAC_SIZE && |payload| >= MAC_SIZE
    ensures payload == c + m
       <==> payload[..|payload| - MAC_SIZE] == c && payload[|payload| - MAC_SIZE..] == m
  {
    SplitAt(payload, |payload| - MAC_SIZE);
    SplitSum(c, m);
  }

  /** One-shot decryption accepts exactly the uploads, and gives back what was encrypted. */
  lemma VerifyExact(s: Suite, k: Keys, payload: bytes, p: bytes)
    requires Sound(s) && |k.iv| == BLOCK
    ensures VerifyAndDecrypt(s, k, payload) == Ok(p) <==> payload == Upload(s, k, p)
  {
    var data := Encrypt(s, k.cipherKey, k.iv, Pad(p));
    DecryptEncrypt(s, k.cipherKey, k.iv, Pad(p));
    if |payload| > MAC_SIZE {
      var c := payload[..|payload| - MAC_SIZE];
      PayloadParts(payload, data, Mac(s, k, data));
      if |c| % BLOCK == 0 {
        UnpadExact(Decrypt(s, k.cipherKey, k.iv, c), p);
        EncryptDecrypt(s, k.cipherKey, k.iv, c);
      }
    }
  }

  /** Whether the last ten bytes are the MAC of what precedes them. */
  ghost predicate Authentic(s: Suite, k: Keys, x: bytes)
    requires Sized(s) && |x| >= 10
  {
    x[|x| - 10..] == s.hmac(k.macKey, k.iv + x[..|x| - 10])[..10]
  }

  /** Which error one-shot decryption gives: too short, not authentic, or authentic but no upload. */
  lemma VerifyErrors(s: Suite, k: Keys, x: bytes)
    requires Sound(s) && |k.iv| == BLOCK
    ensures VerifyAndDecrypt(s, k, x) == Err(TooShort) <==> |x| <= 10
    ensures VerifyAndDecrypt(s, k, x) == Err(MacMismatch) <==> |x| > 10 && !Authentic(s, k, x)
    ensures VerifyAndDecrypt(s, k, x) == Err(BadCiphertext) <==>
      |x| > 10 && Authentic(s, k, x) && forall p :: x != Upload(s, k, p)
  {
    forall p ensures VerifyAndDecrypt(s, k, x) == Ok(p) <==> x == Upload(s, k, p) {
      VerifyExact(s, k, x, p);
    }
    if VerifyAndDecrypt(s, k, x).Ok? {
      assert x == Upload(s, k, VerifyAndDecrypt(s, k, x).value);
    }
  }

  // ----- the stream -----

  /** One call of the reader; an empty read is the end of the stream. */
  datatype Read = Data(chunk: bytes) | IoError

  /** The bytes delivered before the end of the stream, unless a read fails first. */
  function StreamOf(input: seq<Read>): Option<bytes> {
    if input == [] || input[0] == Data([]) then Some([])
    else if input[0].IoError? then None
    else
      match StreamOf(input[1..])
      case None => None
      case Some(rest) => Some(input[0].chunk + rest)
  }

  /** What the streaming decryption returns for a stream, in terms of the whole stream. */
  function DecryptWhole(s: Suite, k: Keys, x: bytes): Result<bytes, MediaError>
    requires Sized(s) && |k.iv| == BLOCK
  {
    if |x| < MAC_SIZE + BLOCK || (|x| - MAC_SIZE) % BLOCK != 0 then Err(InvalidSize)
    else
      var c := x[..|x| - MAC_SIZE];
      if x[|x| - MAC_SIZE..] != Mac(s, k, c) then Err(MacMismatch)
      else
        match Unpad(Decrypt(s, k.cipherKey, k.iv, c))
        case None => Err(BadPadding)
        case Some(p) => Ok(p)
  }

  /** Streaming and one-shot decryption accept the same inputs with the same plaintext. */
  lemma StreamAgrees(s: Suite, k: Keys, x: bytes)
    requires Sized(s) && |k.iv| == BLOCK
    ensures DecryptWhole(s, k, x).Ok? <==> VerifyAndDecrypt(s, k, x).Ok?
    ensures DecryptWhole(s, k, x).Ok? ==> DecryptWhole(s, k, x) == VerifyAndDecrypt(s, k, x)
  {
    if |x| > MAC_SIZE && |x| < MAC_SIZE + BLOCK {
      assert |x[..|x| - MAC_SIZE]| % BLOCK != 0;
    }
  }

  /** Decrypts whole blocks, carrying the previous ciphertext block along. */
  method DecryptBlocks(s: Suite, key: bytes, prev: bytes, c: bytes) returns (plain: bytes, last: bytes)
    requires |prev| == BLOCK && |c| % BLOCK == 0 && Sized(s)
    ensures plain == Decrypt(s, key, prev, c) && last == Last(prev, c)
  {
    plain, last := [], prev;
    var i := 0;
    assert c[0..] == c;
    Nil(Decrypt(s, key, prev, c));
    while i < |c|
      invariant i <= |c| && i % BLOCK == 0 && |last| == BLOCK
      invariant Decrypt(s, key, prev, c) == plain + Decrypt(s, key, last, c[i..])
      invariant Last(prev, c) == Last(last, c[i..])
    {
      var cblock := c[i..i + BLOCK];
      var block := XorBlock(s.open(key, cblock), last);
      assert c[i..][..BLOCK] == cblock;
      DropDrop(c, i, BLOCK);
      Assoc(plain, block, Decrypt(s, key, cblock, c[i + BLOCK..]));
      plain := plain + block;
      last := cblock;
      i := i + BLOCK;
    }
    Nil(plain);
  }

  /** The last loop of the source: the previous block is not moved on. */
  method DecryptFinal(s: Suite, key: bytes, prev: bytes, c: bytes) returns (plain: bytes)
    requires |prev| == BLOCK && |c| % BLOCK == 0 && Sized(s)
    ensures plain == Frozen(s, key, prev, c)
  {
    plain := [];
    var i := 0;
    assert c[0..] == c;
    Nil(Frozen(s, key, prev, c));
    while i < |c|
      invariant i <= |c| && i % BLOCK == 0
      invariant Frozen(s, key, prev, c) == plain + Frozen(s, key, prev, c[i..])
    {
      var next := i + BLOCK;
      var cblock := c[i..next];
      var block := XorBlock(s.open(key, cblock), prev);
      FrozenStep(s, key, prev, c, i, next);
      Assoc(plain, block, Frozen(s, key, prev, c[next..]));
      plain := plain + block;
      i := next;
    }
    Nil(plain);
  }

  lemma FrozenStep(s: Suite, key: bytes, prev: bytes, c: bytes, i: nat, next: nat)
    requires |prev| == BLOCK && |c| % BLOCK == 0 && i % BLOCK == 0 && i < |c| && next == i + BLOCK && Sized(s)
    ensures Frozen(s, key, prev, c[i..])
         == XorBlock(s.open(key, c[i..next]), prev) + Frozen(s, key, prev, c[next..])
  {
    assert c[i..][..BLOCK] == c[i..next];
    DropDrop(c, i, BLOCK);
  }

  /**
   The loop state after the bytes `done + tail` have been read: `done` is decrypted and hashed,
   `tail` is carried over and is never longer than a MAC, a block and fifteen bytes.
   */
  ghost predicate Carried(s: Suite, k: Keys, done: bytes, tail: bytes, macInput: bytes, plain: bytes, prev: bytes)
    requires Sized(s) && |k.iv| == BLOCK
  {
    && |done| % BLOCK == 0
    && |tail| <= MAC_SIZE + BLOCK + 15
    && macInput == k.iv + done
    && plain == Decrypt(s, k.cipherKey, k.iv, done)
    && prev == Last(k.iv, done)
    && (done != [] ==> |tail| >= MAC_SIZE + BLOCK)
  }

  lemma CarryOn(s: Suite, k: Keys, done: bytes, tail: bytes, chunk: bytes, n: nat)
    requires Sized(s) && |k.iv| == BLOCK && |done| % BLOCK == 0 && n % BLOCK == 0
    requires n <= |tail + chunk|
    ensures var all := tail + chunk;
      && Decrypt(s, k.cipherKey, k.iv, done + all[..n])
         == Decrypt(s, k.cipherKey, k.iv, done) + Decrypt(s, k.cipherKey, Last(k.iv, done), all[..n])
      && Last(k.iv, done + all[..n]) == Last(Last(k.iv, done), all[..n])
      && k.iv + done + all[..n] == k.iv + (done + all[..n])
      && (done + all[..n]) + all[n..] == (done + tail) + chunk
  {
    var all := tail + chunk;
    DecryptSplit(s, k.cipherKey, k.iv, done, all[..n]);
    Assoc(k.iv, done, all[..n]);
    Assoc(done, all[..n], all[n..]);
    SplitAt(all, n);
    Assoc(done, tail, chunk);
  }

  /** One turn of the read loop: append the chunk, decrypt what cannot be the end. */
  method Absorb(s: Suite, k: Keys, ghost done: bytes, tail: bytes, macInput: bytes, plain: bytes, prev: bytes, chunk: bytes)
    returns (ghost done': bytes, tail': bytes, macInput': bytes, plain': bytes, prev': bytes)
    requires Sized(s) && |k.iv| == BLOCK && Carried(s, k, done, tail, macInput, plain, prev)
    ensures Carried(s, k, done', tail', macInput', plain', prev')
    ensures done' + tail' == (done + tail) + chunk
  {
    done', tail', macInput', plain', prev' := done, tail + chunk, macInput, plain, prev;
    Assoc(done, tail, chunk);
    if |tail'| > MAC_SIZE + BLOCK {
      var processable := |tail'| - (MAC_SIZE + BLOCK);
      processable := processable - processable % BLOCK;
      if processable >= BLOCK {
        var toProcess, rest := tail'[..processable], tail'[processable..];
        CarryOn(s, k, done, tail, chunk, processable);
        macInput' := macInput' + toProcess;
        var more;
        more, prev' := DecryptBlocks(s, k.cipherKey, prev', toProcess);
        plain' := plain' + more;
        done' := done + toProcess;
        tail' := rest;
      }
    }
  }

  /** What the code after the loop makes of the carried state is what the whole stream means. */
  lemma FinishMeaning(s: Suite, k: Keys, done: bytes, tail: bytes, macInput: bytes, plain: bytes, prev: bytes)
    requires Sized(s) && |k.iv| == BLOCK && Carried(s, k, done, tail, macInput, plain, prev)
    requires |tail| >= MAC_SIZE + BLOCK && (|tail| - MAC_SIZE) % BLOCK == 0
    ensures var x, c := done + tail, tail[..|tail| - MAC_SIZE];
      && |c| == BLOCK
      && x[..|x| - MAC_SIZE] == done + c && x[|x| - MAC_SIZE..] == tail[|tail| - MAC_SIZE..]
      && macInput + c == k.iv + (done + c)
      && Decrypt(s, k.cipherKey, k.iv, done + c) == plain + Frozen(s, k.cipherKey, prev, c)
  {
    var x, c := done + tail, tail[..|tail| - MAC_SIZE];
    assert |tail| == MAC_SIZE + BLOCK;
    assert x[..|x| - MAC_SIZE] == done + c;
    Assoc(k.iv, done, c);
    DecryptSplit(s, k.cipherKey, k.iv, done, c);
    assert AllPreceded(prev, prev, c) by { assert c[BLOCK..] == []; }
    FrozenExact(s, k.cipherKey, prev, prev, c);
  }

  /** Only the last block can hold padding, so it may be removed there. */
  lemma UnpadLast(plain: bytes, last: bytes)
    requires |last| == BLOCK
    ensures Unpad(last).None? <==> Unpad(plain + last).None?
    ensures Unpad(last).Some? ==> Unpad(plain + last) == Some(plain + Unpad(last).value)
  {
    var q := plain + last;
    var n := last[BLOCK - 1];
    assert q[|q| - 1] == n;
    if 1 <= n <= BLOCK {
      assert q[|q| - n..] == last[BLOCK - n..];
      assert q[..|q| - n] == plain + last[..BLOCK - n];
    }
  }

  /** After the last read: size check, MAC check, the final block, its padding. */
  method Finish(s: Suite, k: Keys, ghost done: bytes, tail: bytes, macInput: bytes, plain: bytes, prev: bytes)
    returns (r: Result<bytes, MediaError>)
    requires Sized(s) && |k.iv| == BLOCK && Carried(s, k, done, tail, macInput, plain, prev)
    ensures r == DecryptWhole(s, k, done + tail)
  {
    if |tail| < MAC_SIZE + BLOCK || (|tail| - MAC_SIZE) % BLOCK != 0 {
      return Err(InvalidSize);
    }
    var finalCiphertext, macBytes := tail[..|tail| - MAC_SIZE], tail[|tail| - MAC_SIZE..];
    FinishMeaning(s, k, done, tail, macInput, plain, prev);
    var expected := s.hmac(k.macKey, macInput + finalCiphertext)[..MAC_SIZE];
    if macBytes != expected {
      return Err(MacMismatch);
    }
    var finalPlain := DecryptFinal(s, k.cipherKey, prev, finalCiphertext);
    UnpadLast(plain, finalPlain);
    var padLen := finalPlain[|finalPlain| - 1];
    if padLen == 0 || padLen > BLOCK || padLen > |finalPlain| {
      return Err(BadPadding);
    }
    if finalPlain[|finalPlain| - padLen..] != Repeat(padLen) {
      return Err(BadPadding);
    }
    finalPlain := finalPlain[..|finalPlain| - padLen];
    return Ok(plain + finalPlain);
  }

  /**
   Decrypts as the reads come in. For every way the reader cuts the stream, the result is the
   one the whole stream has; a failed read before the end is an error.
   */
  method DecryptStream(s: Suite, input: seq<Read>, mediaKey: bytes, t: MediaType)
    returns (r: Result<bytes, MediaError>)
    requires Sized(s)
    ensures match StreamOf(input)
            case None => r == Err(ReadFailed)
            case Some(x) => r == DecryptWhole(s, GetMediaKeys(s, mediaKey, t), x)
  {
    var k := GetMediaKeys(s, mediaKey, t);
    var tail: bytes, macInput, plain: bytes, prev := [], k.iv, [], k.iv;
    ghost var done: bytes := [];
    ghost var read: bytes := [];
    var i := 0;
    assert input[0..] == input;
    Nil(k.iv);
    AfterNothing(StreamOf(input));
    while i < |input| && input[i] != Data([])
      invariant i <= |input|
      invariant Carried(s, k, done, tail, macInput, plain, prev)
      invariant done + tail == read
      invariant StreamOf(input) == After(read, StreamOf(input[i..]))
    {
      if input[i].IoError? {
        return Err(ReadFailed);
      }
      StreamStep(read, input, i);
      done, tail, macInput, plain, prev := Absorb(s, k, done, tail, macInput, plain, prev, input[i].chunk);
      read := read + input[i].chunk;
      i := i + 1;
    }
    Nil(read);
    r := Finish(s, k, done, tail, macInput, plain, prev);
  }

  function After(read: bytes, rest: Option<bytes>): Option<bytes> {
    match rest
    case None => None
    case Some(x) => Some(read + x)
  }

  lemma AfterNothing(rest: Option<bytes>)
    ensures After([], rest) == rest
  {
    match rest
    case None =>
    case Some(x) => Nil(x);
  }

  lemma StreamStep(read: bytes, input: seq<Read>, i: nat)
    requires i < |input| && input[i] != Data([]) && input[i].Data?
    ensures After(read, StreamOf(input[i..])) == After(read + input[i].chunk, StreamOf(input[i + 1..]))
  {
    DropDrop(input, i, 1);
    match StreamOf(input[i + 1..])
    case None =>
    case Some(x) => Assoc(read, input[i].chunk, x);
  }

  /**
   The central promise: whatever the key and media type, the streaming decryption gives
   `p` exactly when the stream is the upload of `p`.
   */
  lemma StreamExact(s: Suite, k: Keys, x: bytes, p: bytes)
    requires Sound(s) && |k.iv| == BLOCK
    ensures DecryptWhole(s, k, x) == Ok(p) <==> x == Upload(s, k, p)
  {
    StreamAgrees(s, k, x);
    VerifyExact(s, k, x, p);
  }

  /** Encrypt, cut into reads in any way, decrypt both ways: the plaintext comes back. */
  method RoundTrip(s: Suite, plaintext: bytes, t: MediaType, mediaKey: bytes, input: seq<Read>)
    returns (streamed: Result<bytes, MediaError>, whole: Result<bytes, MediaError>)
    requires Sound(s)
    requires StreamOf(input) == Some(Upload(s, GetMediaKeys(s, mediaKey, t), plaintext))
    ensures streamed == whole == Ok(plaintext)
  {
    var k := GetMediaKeys(s, mediaKey, t);
    var media := EncryptMedia(s, plaintext, t, mediaKey);
    streamed := DecryptStream(s, input, media.mediaKey, t);
    whole := VerifyAndDecrypt(s, k, media.dataToUpload);
    StreamExact(s, k, media.dataToUpload, plaintext);
    VerifyExact(s, k, media.dataToUpload, plaintext);
  }

  /** Which error the streaming decryption gives for a stream: wrong size, not authentic, or no upload. */
  lemma StreamErrors(s: Suite, k: Keys, x: bytes)
    requires Sound(s) && |k.iv| == BLOCK
    ensures DecryptWhole(s, k, x) == Err(InvalidSize) <==> |x| < 26 || (|x| - 10) % 16 != 0
    ensures DecryptWhole(s, k, x) == Err(MacMismatch) <==>
      |x| >= 26 && (|x| - 10) % 16 == 0 && !Authentic(s, k, x)
    ensures DecryptWhole(s, k, x) == Err(BadPadding) <==>
      |x| >= 26 && (|x| - 10) % 16 == 0 && Authentic(s, k, x) && forall p :: x != Upload(s, k, p)
  {
    forall p ensures DecryptWhole(s, k, x) == Ok(p) <==> x == Upload(s, k, p) {
      StreamExact(s, k, x, p);
    }
    if DecryptWhole(s, k, x).Ok? {
      assert x == Upload(s, k, DecryptWhole(s, k, x).value);
    }
  }

  function Chunks(input: seq<Read>): seq<bytes>
    requires forall i :: 0 <= i < |input| ==> input[i].Data?
  {
    seq(|input|, i requires 0 <= i < |input| => input[i].chunk)
  }

  /** Reads end at the first that is empty or fails, or when there are no more. */
  predicate EndsAt(input: seq<Read>, n: nat) {
    && n <= |input| && (n == |input| || input[n] == Data([]) || input[n].IoError?)
    && forall i :: 0 <= i < n ==> input[i].Data? && input[i].chunk != []
  }

  /** The stream is what was read up to there, unless that read fails. */
  lemma {:induction false} StreamOfMeaning(input: seq<Read>, n: nat)
    requires EndsAt(input, n)
    ensures StreamOf(input) ==
      if n < |input| && input[n].IoError? then None else Some(Concat(Chunks(input[..n])))
    decreases n
  {
    if n == 0 {
    } else {
      StreamOfMeaning(input[1..], n - 1);
      assert Chunks(input[..n])[0] == input[0].chunk && Chunks(input[..n])[1..] == Chunks(input[1..][..n - 1]);
    }
  }
}
