/**
 The gossip notification message and the size of its signed JSON payload. A
 `string` stands for UTF-8 text, one character per byte; strings are escaped as
 section 7 of RFC 8259 requires.
 */
module Notification {

  import opened Wrappers

  datatype Notification = Notification(
    version: string, sender: string, timestamp: nat, medium: string, reason: string,
    iris: seq<string>, seqno: Option<nat>, signature: Option<string>)

  const U64_LIMIT: nat := 0x1_0000_0000_0000_0000
  const MAX_GOSSIP_PAYLOAD: nat := 60000
  const MAX_MESSAGE_SIZE: nat := 65536

  // ----- JSON

  function HexDigit(n: nat): char
    requires n < 16
  {
    "0123456789abcdef"[n]
  }

  function EscapeByte(c: char): string
  {
    var n := c as int;
    if c == '\"' then "\\\""
    else if c == '\\' then "\\\\"
    else if n == 8 then "\\b"
    else if n == 9 then "\\t"
    else if n == 10 then "\\n"
    else if n == 12 then "\\f"
    else if n == 13 then "\\r"
    else if n < 0x20 then "\\u00" + [HexDigit(n / 16), HexDigit(n % 16)]
    else [c]
  }

  function Escape(s: string): string
  {
    if s == "" then "" else EscapeByte(s[0]) + Escape(s[1..])
  }

  function Quote(s: string): string
  {
    "\"" + Escape(s) + "\""
  }

  function Decimal(n: nat): (r: string)
    ensures |r| >= 1
  {
    if n < 10 then [HexDigit(n)] else Decimal(n / 10) + [HexDigit(n % 10)]
  }

  /** The elements of a JSON array of strings, separated by commas. */
  function Elements(iris: seq<string>): string
  {
    if iris == [] then ""
    else if |iris| == 1 then Quote(iris[0])
    else Quote(iris[0]) + "," + Elements(iris[1..])
  }

  function SeqField(seqno: Option<nat>): string
  {
    if seqno.None? then "" else ",\"seq\":" + Decimal(seqno.value)
  }

  function SignatureField(signature: Option<string>): string
  {
    if signature.None? then "" else ",\"signature\":" + Quote(signature.value)
  }

  function EnvelopeFields(n: Notification): string
  {
    "{\"version\":" + Quote(n.version) + ",\"sender\":" + Quote(n.sender) + ",\"timestamp\":" + Decimal(n.timestamp)
  }

  function KindFields(n: Notification): string
  {
    ",\"medium\":" + Quote(n.medium) + ",\"reason\":" + Quote(n.reason)
  }

  /** The transmitted JSON object, fields in declaration order. */
  function Serialize(n: Notification): string
  {
    EnvelopeFields(n) + KindFields(n) + ",\"iris\":[" + Elements(n.iris) + "]"
    + SeqField(n.seqno) + SignatureField(n.signature) + "}"
  }

  /** The signed bytes: the same fields without the signature, in alphabetical order. */
  function Canonical(n: Notification): string
  {
    "{\"iris\":[" + Elements(n.iris) + "],\"medium\":" + Quote(n.medium) + ",\"reason\":" + Quote(n.reason)
    + SeqField(n.seqno) + ",\"sender\":" + Quote(n.sender) + ",\"timestamp\":" + Decimal(n.timestamp)
    + ",\"version\":" + Quote(n.version) + "}"
  }

  /** A signing key: its public key in hex, and the hex signature it puts on a message. */
  datatype Signer = Signer(pubkeyHex: string, sign: string -> string)

  ghost predicate IsHex(s: string)
  {
    forall i :: 0 <= i < |s| ==> '0' <= s[i] <= '9' || 'a' <= s[i] <= 'f'
  }

  /** Signatures are 64 bytes, so 128 hex digits. */
  ghost predicate HexSigner(key: Signer)
  {
    forall m :: |key.sign(m)| == 128 && IsHex(key.sign(m))
  }

  function New(pubkeyHex: string, now: nat, medium: string, reason: string, iris: seq<string>, seqno: Option<nat>): Notification
  {
    Notification("1.0", pubkeyHex, now, medium, reason, iris, seqno, None)
  }

  function Sign(key: Signer, n: Notification): Notification
  {
    n.(signature := Some(key.sign(Canonical(n))))
  }

  function Payload(key: Signer, now: nat, medium: string, reason: string, iris: seq<string>, seqno: Option<nat>): string
  {
    Serialize(Sign(key, New(key.pubkeyHex, now, medium, reason, iris, seqno)))
  }

  // ----- sizes

  /** Bytes of the payload that depend neither on the IRIs nor on the two numbers. */
  ghost function Overhead(key: Signer, medium: string, reason: string): nat
  {
    219 + |Escape(key.pubkeyHex)| + |Escape(medium)| + |Escape(reason)|
  }

  lemma {:induction false} EscapeHex(s: string)
    requires IsHex(s)
    ensures Escape(s) == s
  {
    if s != "" {
      EscapeHex(s[1..]);
    }
  }

  lemma {:induction false} EscapeGrows(s: string)
    ensures |Escape(s)| >= |s|
  {
    if s != "" {
      assert |EscapeByte(s[0])| >= 1;
      EscapeGrows(s[1..]);
    }
  }

  lemma EscapeVersion()
    ensures Escape("1.0") == "1.0"
  {
    assert "1.0"[1..] == ".0" && ".0"[1..] == "0" && "0"[1..] == "";
    assert Escape("0") == "0" && Escape(".0") == ".0";
  }

  lemma EnvelopeLength(n: Notification)
    requires n.version == "1.0"
    ensures |EnvelopeFields(n)| == 41 + |Escape(n.sender)| + |Decimal(n.timestamp)|
  {
    EscapeVersion();
    hide Escape, Decimal;
  }

  lemma KindLength(n: Notification)
    ensures |KindFields(n)| == 24 + |Escape(n.medium)| + |Escape(n.reason)|
  {
    hide Escape;
  }

  lemma SignatureLength(sig: string)
    requires IsHex(sig) && |sig| == 128
    ensures |SignatureField(Some(sig))| == 143
  {
    EscapeHex(sig);
    hide Escape;
  }

  /** The payload length, field by field. */
  lemma PayloadLength(key: Signer, now: nat, medium: string, reason: string, iris: seq<string>, seqno: Option<nat>)
    requires HexSigner(key)
    ensures |Payload(key, now, medium, reason, iris, seqno)|
            == Overhead(key, medium, reason) + |Decimal(now)| + |Elements(iris)| + |SeqField(seqno)|
  {
    var n := New(key.pubkeyHex, now, medium, reason, iris, seqno);
    var signed := Sign(key, n);
    SignatureLength(key.sign(Canonical(n)));
    EnvelopeLength(signed);
    KindLength(signed);
    hide Escape, Elements, Decimal, Canonical, HexSigner, SeqField, EnvelopeFields, KindFields, SignatureField;
  }

  ghost function Pow10(k: nat): nat
  {
    if k == 0 then 1 else 10 * Pow10(k - 1)
  }

  lemma {:induction false} DecimalLength(n: nat, k: nat)
    requires k >= 1 && n < Pow10(k)
    ensures |Decimal(n)| <= k
  {
    if n >= 10 {
      assert k > 1;
      assert n / 10 < Pow10(k - 1);
      DecimalLength(n / 10, k - 1);
    }
  }

  lemma U64Digits(n: nat)
    requires n < U64_LIMIT
    ensures |Decimal(n)| <= 20
  {
    assert Pow10(10) == 10000000000 by {
      assert Pow10(2) == 100 && Pow10(4) == 10000 && Pow10(6) == 1000000 && Pow10(8) == 100000000;
    }
    assert Pow10(20) == 100000000000000000000 by {
      assert Pow10(12) == 1000000000000 && Pow10(14) == 100000000000000;
      assert Pow10(16) == 10000000000000000 && Pow10(18) == 1000000000000000000;
    }
    DecimalLength(n, 20);
  }

  lemma {:induction false} ElementsAppend(a: seq<string>, b: seq<string>)
    ensures |Elements(a + b)| >= |Elements(a)| && |Elements(a + b)| >= |Elements(b)|
  {
    hide Quote;
    if a == [] {
      assert a + b == b;
    } else if b == [] {
      assert a + b == a;
    } else {
      assert (a + b)[1..] == a[1..] + b && (a + b)[0] == a[0];
      assert |Elements(a + b)| == |Quote(a[0])| + 1 + |Elements(a[1..] + b)|;
      assert |Elements(a)| <= |Quote(a[0])| + 1 + |Elements(a[1..])|;
      hide Elements;
      ElementsAppend(a[1..], b);
    }
  }

  /** Does the signed payload of these IRIs, without a sequence number, stay within the limit? */
  predicate Fits(key: Signer, now: nat, medium: string, reason: string, iris: seq<string>)
  {
    |Payload(key, now, medium, reason, iris, None)| <= MAX_GOSSIP_PAYLOAD
  }

  /** A single IRI fits exactly when its escaped text leaves room for the envelope. */
  lemma LoneIriFits(key: Signer, now: nat, medium: string, reason: string, iri: string)
    requires HexSigner(key)
    ensures Fits(key, now, medium, reason, [iri])
            <==> Overhead(key, medium, reason) + |Decimal(now)| + |Escape(iri)| + 2 <= MAX_GOSSIP_PAYLOAD
  {
    PayloadLength(key, now, medium, reason, [iri], None);
    hide Payload, Decimal, Escape, Overhead;
    assert |Elements([iri])| == |Escape(iri)| + 2;
  }

  /** A stretch of a list that fits also fits. */
  lemma FitsHereditary(key: Signer, now: nat, medium: string, reason: string, a: seq<string>, b: seq<string>, c: seq<string>)
    requires HexSigner(key) && Fits(key, now, medium, reason, a + b + c)
    ensures Fits(key, now, medium, reason, b)
  {
    hide Payload, Elements;
    PayloadLength(key, now, medium, reason, a + b + c, None);
    PayloadLength(key, now, medium, reason, b, None);
    ElementsAppend(a + b, c);
    ElementsAppend(a, b);
  }

  /**
   A list that fits when it is split off still makes a payload below the
   message limit when it is built later with a sequence number: the number adds
   at most 27 bytes, a longer timestamp at most 19.
   */
  lemma FinalPayloadBound(key: Signer, now: nat, later: nat, medium: string, reason: string, iris: seq<string>, seqno: nat)
    requires HexSigner(key) && Fits(key, now, medium, reason, iris) && later < U64_LIMIT && seqno < U64_LIMIT
    ensures |Payload(key, later, medium, reason, iris, Some(seqno))| <= 60000 + 27 + 19 < 65536
    ensures |Payload(key, now, medium, reason, iris, Some(seqno))| <= 60000 + 27
  {
    hide Payload, Elements, Decimal;
    PayloadLength(key, now, medium, reason, iris, None);
    PayloadLength(key, now, medium, reason, iris, Some(seqno));
    PayloadLength(key, later, medium, reason, iris, Some(seqno));
    U64Digits(later);
    U64Digits(seqno);
  }
}
