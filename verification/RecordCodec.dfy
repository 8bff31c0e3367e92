/**
 The DHT record and its encrypted envelope: byte layout, signing and
 verification. A buffer that is too short makes a decoder panic, which is one of
 its results here.
 */
module RecordCodec {
  import opened Bytes

  type Bytes32 = b: Data | |b| == 32 witness seq(32, _ => 0)
  type Bytes64 = b: Data | |b| == 64 witness seq(64, _ => 0)
  type Minute = m: nat | m < Span(8)

  datatype Record = Record(topic: Bytes32, unixMinute: Minute, pubKey: Bytes32, content: Data, signature: Bytes64)

  datatype Parsed<T> = Ok(value: T) | Panic

  const FIXED_LENGTH: nat := 136

  // ----- the record

  /** The fields in order, without the signature. */
  ghost function Unsigned(topic: Bytes32, minute: Minute, nodeId: Bytes32, content: Data): (r: Data)
    ensures |r| == 72 + |content|
  {
    topic + ToLittle(minute, 8) + nodeId + content
  }

  ghost function Encoded(r: Record): (b: Data)
    ensures |b| == FIXED_LENGTH + |r.content|
  {
    Unsigned(r.topic, r.unixMinute, r.pubKey, r.content) + r.signature
  }

  method ToBytes(r: Record) returns (buf: Data)
    ensures buf == Encoded(r)
  {
    buf := [];
    buf := buf + r.topic;
    buf := buf + ToLittle(r.unixMinute, 8);
    buf := buf + r.pubKey;
    buf := buf + r.content;
    buf := buf + r.signature;
  }

  function ReadMinute(b: Data): (m: Minute)
    requires |b| == 8
  {
    LittleRestores(b);
    FromLittle(b)
  }

  function FromBytes(buf: Data): Parsed<Record>
  {
    if |buf| < 32 then Panic
    else
      var topic, buf := buf[..32], buf[32..];
      if |buf| < 8 then Panic
      else
        var minute, buf := buf[..8], buf[8..];
        if |buf| < 32 then Panic
        else
          var nodeId, buf := buf[..32], buf[32..];
          if |buf| < 64 then Panic
          else
            Ok(Record(topic, ReadMinute(minute), nodeId, buf[..|buf| - 64], buf[|buf| - 64..]))
  }

  lemma UnsignedParts(topic: Bytes32, minute: Minute, nodeId: Bytes32, content: Data)
    ensures var u := Unsigned(topic, minute, nodeId, content);
            u[..32] == topic && u[32..40] == ToLittle(minute, 8) && u[40..72] == nodeId && u[72..] == content
  {
  }

  /** Each record comes back from its bytes. */
  lemma RecordRoundTrip(r: Record)
    ensures FromBytes(Encoded(r)) == Ok(r)
  {
    var b := Encoded(r);
    UnsignedParts(r.topic, r.unixMinute, r.pubKey, r.content);
    var u := Unsigned(r.topic, r.unixMinute, r.pubKey, r.content);
    hide Unsigned;
    LittleRoundTrip(r.unixMinute, 8);
    assert b[..|u|] == u && b[|u|..] == r.signature;
    assert b[..32] == u[..32] && b[32..][..8] == u[32..40] && b[32..][8..][..32] == u[40..72];
    var tail := b[32..][8..][32..];
    assert tail == u[72..] + r.signature;
    assert tail[..|tail| - 64] == r.content && tail[|tail| - 64..] == r.signature;
  }

  /** The decoder accepts exactly the byte strings of length at least 136, and each of them is the encoding of its result. */
  lemma RecordBijection(b: Data)
    ensures FromBytes(b).Ok? <==> |b| >= FIXED_LENGTH
    ensures FromBytes(b).Ok? ==> Encoded(FromBytes(b).value) == b
  {
    if |b| >= FIXED_LENGTH {
      var n := |b| - 64;
      assert b[32..][..8] == b[32..40] && b[32..][8..][..32] == b[40..72] && b[32..][8..][32..] == b[72..];
      assert b[72..][..|b[72..]| - 64] == b[72..n] && b[72..][|b[72..]| - 64..] == b[n..];
      LittleRestores(b[32..40]);
      assert b == b[..32] + b[32..40] + b[40..72] + b[72..n] + b[n..];
    }
  }

  /** Where each field lies: topic, minute with its least significant byte first, key, content and, last, the signature. */
  lemma RecordLayout(r: Record)
    ensures var b := Encoded(r);
            && |b| == 136 + |r.content| && b[..32] == r.topic && b[40..72] == r.pubKey
            && (forall i :: 0 <= i < 8 ==> b[32 + i] == r.unixMinute / Span(i) % 256)
            && b[72..|b| - 64] == r.content && b[|b| - 64..] == r.signature
  {
    var b, u := Encoded(r), Unsigned(r.topic, r.unixMinute, r.pubKey, r.content);
    UnsignedParts(r.topic, r.unixMinute, r.pubKey, r.content);
    hide Unsigned;
    assert b == u + r.signature;
    assert b[..32] == u[..32] && b[40..72] == u[40..72] && b[72..|b| - 64] == u[72..] && b[|b| - 64..] == r.signature;
    forall i | 0 <= i < 8 ensures b[32 + i] == r.unixMinute / Span(i) % 256 {
      assert b[32 + i] == u[32..40][i];
      LittleByte(r.unixMinute, 8, i);
    }
  }

  // ----- the encrypted envelope

  datatype EncryptedRecord = EncryptedRecord(encryptedRecord: Data, encryptedDecryptionKey: Data)

  ghost function Sealed(e: EncryptedRecord): Data
  {
    ToLittle(|e.encryptedRecord|, 4) + e.encryptedRecord + e.encryptedDecryptionKey
  }

  /** The length is cut to 32 bits before it is written. */
  method SealedToBytes(e: EncryptedRecord) returns (buf: Data)
    ensures buf == Sealed(e)
  {
    buf := [];
    buf := buf + ToLittle(|e.encryptedRecord|, 4);
    buf := buf + e.encryptedRecord;
    buf := buf + e.encryptedDecryptionKey;
  }

  function SealedFromBytes(buf: Data): Parsed<EncryptedRecord>
  {
    if |buf| < 4 then Panic
    else
      var length, buf := FromLittle(buf[..4]), buf[4..];
      if length > |buf| then Panic else Ok(EncryptedRecord(buf[..length], buf[length..]))
  }

  /** The envelope survives exactly when its first part is shorter than 4 GiB; a longer one is silently cut differently. */
  lemma EnvelopeRoundTripIff(e: EncryptedRecord)
    ensures SealedFromBytes(Sealed(e)) == Ok(e) <==> |e.encryptedRecord| < 0x1_0000_0000
    ensures SealedFromBytes(Sealed(e)).Ok?
  {
    var n := |e.encryptedRecord|;
    var b := Sealed(e);
    hide FromLittle, ToLittle;
    LittleRoundTrip(n, 4);
    Span4();
    hide Span;
    assert b[..4] == ToLittle(n, 4) && b[4..] == e.encryptedRecord + e.encryptedDecryptionKey;
    var length := FromLittle(ToLittle(n, 4));
    if n < 0x1_0000_0000 {
      assert b[4..][..length] == e.encryptedRecord && b[4..][length..] == e.encryptedDecryptionKey;
    } else {
      assert |b[4..][..length]| == length < n;
    }
  }

  /** Whatever the decoder accepts is the encoding of its result, so no two byte strings give the same envelope. */
  lemma EnvelopeRestores(b: Data)
    ensures SealedFromBytes(b).Ok? <==> |b| >= 4 && FromLittle(b[..4]) <= |b| - 4
    ensures SealedFromBytes(b).Ok? ==> Sealed(SealedFromBytes(b).value) == b
  {
    if |b| >= 4 {
      LittleRestores(b[..4]);
      var n := FromLittle(b[..4]);
      if n <= |b| - 4 {
        assert b == b[..4] + b[4..][..n] + b[4..][n..];
      }
    }
  }

  /** Four bytes of length, the least significant first, then the record, then its key. */
  lemma EnvelopeLayout(e: EncryptedRecord)
    ensures var b, n := Sealed(e), |e.encryptedRecord|;
            && |b| == 4 + n + |e.encryptedDecryptionKey|
            && (forall i :: 0 <= i < 4 ==> b[i] == n / Span(i) % 256)
            && b[4..4 + n] == e.encryptedRecord && b[4 + n..] == e.encryptedDecryptionKey
  {
    forall i | 0 <= i < 4 ensures Sealed(e)[i] == |e.encryptedRecord| / Span(i) % 256 {
      LittleByte(|e.encryptedRecord|, 4, i);
    }
  }

  // ----- signing and verifying

  type Key = Bytes32

  /** Ed25519 as seen from here: the public half of a key, the signature of some data, and the two checks on the way back. */
  datatype Scheme = Scheme(public: Key -> Bytes32, sign: (Key, Data) -> Bytes64,
                           wellFormed: Bytes32 -> bool, accepts: (Bytes32, Data, Bytes64) -> bool)

  datatype Request = Request(topic: Bytes32, unixMinute: Minute, nodeId: Bytes32, content: Data, key: Key)

  datatype Verdict = Verified | TopicMismatch | MinuteMismatch | BadKey | BadSignature

  ghost function RequestData(q: Request): Data
  {
    Unsigned(q.topic, q.unixMinute, q.nodeId, q.content)
  }

  ghost function Signed(s: Scheme, q: Request): Record
  {
    Record(q.topic, q.unixMinute, q.nodeId, q.content, s.sign(q.key, RequestData(q)))
  }

  method Sign(s: Scheme, q: Request) returns (r: Record)
    ensures r == Signed(s, q)
  {
    var signatureData: Data := [];
    signatureData := signatureData + q.topic;
    signatureData := signatureData + ToLittle(q.unixMinute, 8);
    signatureData := signatureData + q.nodeId;
    signatureData := signatureData + q.content;
    assert signatureData == RequestData(q);
    r := Record(q.topic, q.unixMinute, q.nodeId, q.content, s.sign(q.key, signatureData));
  }

  ghost function Checked(s: Scheme, r: Record, topic: Bytes32, minute: Minute): Verdict
  {
    if r.topic != topic then TopicMismatch
    else if r.unixMinute != minute then MinuteMismatch
    else if !s.wellFormed(r.pubKey) then BadKey
    else if !s.accepts(r.pubKey, Unsigned(r.topic, r.unixMinute, r.pubKey, r.content), r.signature) then BadSignature
    else Verified
  }

  /** The data that is checked is the record's own encoding without its last 64 bytes. */
  method Verify(s: Scheme, r: Record, topic: Bytes32, minute: Minute) returns (v: Verdict)
    ensures v == Checked(s, r, topic, minute)
    ensures r.topic != topic ==> v == TopicMismatch
    ensures r.topic == topic && r.unixMinute != minute ==> v == MinuteMismatch
    ensures r.topic == topic && r.unixMinute == minute && !s.wellFormed(r.pubKey) ==> v == BadKey
    ensures v == Verified ==> s.accepts(r.pubKey, Encoded(r)[..|Encoded(r)| - 64], r.signature)
  {
    if r.topic != topic { return TopicMismatch; }
    if r.unixMinute != minute { return MinuteMismatch; }
    var recordBytes := ToBytes(r);
    var signatureData := recordBytes[..|recordBytes| - 64];
    assert signatureData == Unsigned(r.topic, r.unixMinute, r.pubKey, r.content);
    if !s.wellFormed(r.pubKey) { return BadKey; }
    if !s.accepts(r.pubKey, signatureData, r.signature) { return BadSignature; }
    return Verified;
  }

  /** An ideal scheme accepts exactly the signatures that were made, under the public half of the key that made them. */
  ghost predicate Ideal(s: Scheme, made: set<Request>)
  {
    && (forall k: Key :: s.wellFormed(s.public(k)))
    && forall pk: Bytes32, data: Data, sig: Bytes64 ::
         s.accepts(pk, data, sig)
         <==> exists q :: q in made && s.public(q.key) == pk && RequestData(q) == data && s.sign(q.key, data) == sig
  }

  /** The signed bytes determine every field. */
  lemma SignedDataInjective(t1: Bytes32, m1: Minute, n1: Bytes32, c1: Data, t2: Bytes32, m2: Minute, n2: Bytes32, c2: Data)
    requires Unsigned(t1, m1, n1, c1) == Unsigned(t2, m2, n2, c2)
    ensures t1 == t2 && m1 == m2 && n1 == n2 && c1 == c2
  {
    UnsignedParts(t1, m1, n1, c1);
    UnsignedParts(t2, m2, n2, c2);
    hide Unsigned;
    LittleRoundTrip(m1, 8);
    LittleRoundTrip(m2, 8);
  }

  /**
   A record verifies for a topic and a minute exactly when it is the outcome of
   a signing request for that topic and that minute, made with the key whose
   public half the record names. So a record signed with its own key verifies
   for exactly its topic and minute, one signed with another key never does,
   and no changed field goes unnoticed.
   */
  lemma VerifiesIffSigned(s: Scheme, made: set<Request>, r: Record, topic: Bytes32, minute: Minute)
    requires Ideal(s, made)
    ensures Checked(s, r, topic, minute) == Verified
            <==> exists q :: q in made && Signed(s, q) == r && s.public(q.key) == q.nodeId && q.topic == topic && q.unixMinute == minute
  {
    var data := Unsigned(r.topic, r.unixMinute, r.pubKey, r.content);
    if Checked(s, r, topic, minute) == Verified {
      var q :| q in made && s.public(q.key) == r.pubKey && RequestData(q) == data && s.sign(q.key, data) == r.signature;
      SignedDataInjective(q.topic, q.unixMinute, q.nodeId, q.content, r.topic, r.unixMinute, r.pubKey, r.content);
      assert Signed(s, q) == r;
    }
    if q :| q in made && Signed(s, q) == r && s.public(q.key) == q.nodeId && q.topic == topic && q.unixMinute == minute {
      assert RequestData(q) == data && s.sign(q.key, data) == r.signature;
      assert s.wellFormed(s.public(q.key));
    }
  }

  /** Verification survives the trip through the DHT bytes: what is decoded verifies exactly as what was encoded. */
  lemma TransportKeepsVerdict(s: Scheme, made: set<Request>, q: Request, topic: Bytes32, minute: Minute)
    requires Ideal(s, made) && q in made && s.public(q.key) == q.nodeId
    ensures FromBytes(Encoded(Signed(s, q))).Ok?
    ensures Checked(s, FromBytes(Encoded(Signed(s, q))).value, topic, minute) == Verified
            <==> topic == q.topic && minute == q.unixMinute
  {
    RecordRoundTrip(Signed(s, q));
    VerifiesIffSigned(s, made, Signed(s, q), topic, minute);
  }
}
