/**
 Reading a notification back from its JSON text, field by field, as its
 receivers do: the partner of the writer.
 */
module NotificationReader {
  import opened Wrappers
  import opened Notification

  /** What was read, and the text that is left. */
  datatype Read<T> = Fail | Got(value: T, rest: string)

  /** The text after an expected beginning. */
  function Skip(start: string, t: string): Option<string>
  {
    if start <= t then Some(t[|start|..]) else None
  }

  lemma SkipStart(start: string, rest: string)
    ensures Skip(start, start + rest) == Some(rest)
  {
  }

  // ----- strings

  function HexValue(c: char): nat
  {
    if '0' <= c <= '9' then c as nat - '0' as nat else if 'a' <= c <= 'f' then 10 + c as nat - 'a' as nat else 0
  }

  /** The character behind a backslash and one letter. */
  function Meaning(c: char): Option<char>
  {
    if c == '\"' || c == '\\' then Some(c)
    else if c == 'b' then Some(8 as char)
    else if c == 't' then Some(9 as char)
    else if c == 'n' then Some(10 as char)
    else if c == 'f' then Some(12 as char)
    else if c == 'r' then Some(13 as char)
    else None
  }

  /** One character, plain or escaped. */
  function ReadChar(t: string): (r: Read<char>)
    ensures r.Got? ==> |r.rest| < |t|
  {
    if t == "" || t[0] == '\"' then Fail
    else if t[0] != '\\' then Got(t[0], t[1..])
    else if |t| >= 2 && Meaning(t[1]).Some? then Got(Meaning(t[1]).value, t[2..])
    else if |t| >= 6 && t[..4] == "\\u00" then Got((16 * HexValue(t[4]) + HexValue(t[5])) as char, t[6..])
    else Fail
  }

  /** Characters up to the closing quote. */
  function ReadChars(t: string): (r: Read<string>)
    ensures r.Got? ==> |r.rest| < |t|
    decreases |t|
  {
    if t != "" && t[0] == '\"' then Got("", t[1..])
    else
      match ReadChar(t)
      case Fail => Fail
      case Got(c, rest) =>
        match ReadChars(rest)
        case Fail => Fail
        case Got(s, rest) => Got([c] + s, rest)
  }

  function ReadString(t: string): (r: Read<string>)
    ensures r.Got? ==> |r.rest| < |t|
  {
    if t == "" || t[0] != '\"' then Fail else ReadChars(t[1..])
  }

  lemma HexBack(n: nat)
    requires n < 16
    ensures HexValue(HexDigit(n)) == n
  {
  }

  lemma CharBack(c: char, rest: string)
    ensures ReadChar(EscapeByte(c) + rest) == Got(c, rest)
    ensures EscapeByte(c) != "" && EscapeByte(c)[0] != '\"'
  {
    var n := c as int;
    var t := EscapeByte(c) + rest;
    if |EscapeByte(c)| == 6 {
      HexBack(n / 16);
      HexBack(n % 16);
      assert t[..4] == "\\u00" && t[4] == HexDigit(n / 16) && t[5] == HexDigit(n % 16);
      assert t[6..] == rest;
      hide HexValue, HexDigit;
    } else if |EscapeByte(c)| == 2 {
      assert t[2..] == rest;
    } else {
      assert t[1..] == rest;
    }
  }

  lemma {:induction false} CharsBack(s: string, rest: string)
    ensures ReadChars(Escape(s) + ("\"" + rest)) == Got(s, rest)
    decreases |s|
  {
    if s == "" {
      assert Escape(s) + ("\"" + rest) == "\"" + rest;
      assert ("\"" + rest)[1..] == rest;
    } else {
      var more := Escape(s[1..]) + ("\"" + rest);
      assert Escape(s) + ("\"" + rest) == EscapeByte(s[0]) + more;
      CharBack(s[0], more);
      hide EscapeByte, ReadChar;
      CharsBack(s[1..], rest);
      assert [s[0]] + s[1..] == s;
    }
  }

  lemma QuoteOpens(s: string, rest: string)
    ensures Quote(s) + rest == "\"" + (Escape(s) + ("\"" + rest))
  {
    hide Escape;
  }

  /** A quoted string is read back, whatever follows it. */
  lemma StringBack(s: string, rest: string)
    ensures ReadString(Quote(s) + rest) == Got(s, rest)
  {
    hide ReadChars, Escape, Quote;
    QuoteOpens(s, rest);
    CharsBack(s, rest);
    var inner := Escape(s) + ("\"" + rest);
    assert ("\"" + inner)[1..] == inner;
  }

  // ----- lists of strings

  /** Strings separated by commas, up to the closing bracket. */
  function ReadItems(t: string): Read<seq<string>>
    decreases |t|
  {
    match ReadString(t)
    case Fail => Fail
    case Got(s, rest) =>
      if rest != "" && rest[0] == ']' then Got([s], rest[1..])
      else if rest == "" || rest[0] != ',' then Fail
      else
        match ReadItems(rest[1..])
        case Fail => Fail
        case Got(more, rest) => Got([s] + more, rest)
  }

  function ReadList(t: string): Read<seq<string>>
  {
    if t != "" && t[0] == ']' then Got([], t[1..]) else ReadItems(t)
  }

  lemma LastItem(s: string, rest: string)
    ensures ReadItems(Quote(s) + ("]" + rest)) == Got([s], rest)
  {
    hide ReadString, Quote;
    StringBack(s, "]" + rest);
    assert ("]" + rest)[1..] == rest;
  }

  lemma OneMoreItem(s: string, more: string)
    ensures ReadItems(Quote(s) + ("," + more))
            == match ReadItems(more) case Fail => Fail case Got(items, rest) => Got([s] + items, rest)
  {
    hide ReadString, Quote;
    StringBack(s, "," + more);
    assert ("," + more)[1..] == more;
  }

  lemma ElementsOpen(items: seq<string>, rest: string)
    requires |items| > 1
    ensures Elements(items) + rest == Quote(items[0]) + ("," + (Elements(items[1..]) + rest))
  {
    assert Elements(items) == Quote(items[0]) + "," + Elements(items[1..]);
    hide *;
    Rightwards(Quote(items[0]), ",", Elements(items[1..]), rest);
  }

  lemma Rightwards(a: string, b: string, c: string, d: string)
    ensures a + b + c + d == a + (b + (c + d))
  {
  }

  lemma {:induction false} ItemsBack(items: seq<string>, rest: string)
    requires items != []
    ensures ReadItems(Elements(items) + ("]" + rest)) == Got(items, rest)
    decreases |items|
  {
    if |items| == 1 {
      assert Elements(items) == Quote(items[0]) && items == [items[0]];
      hide *;
      LastItem(items[0], rest);
    } else {
      hide *;
      ElementsOpen(items, "]" + rest);
      OneMoreItem(items[0], Elements(items[1..]) + ("]" + rest));
      ItemsBack(items[1..], rest);
      assert items == [items[0]] + items[1..];
    }
  }

  lemma ListBack(items: seq<string>, rest: string)
    ensures ReadList(Elements(items) + ("]" + rest)) == Got(items, rest)
  {
    if items == [] {
      assert Elements(items) + ("]" + rest) == "]" + rest;
      assert ("]" + rest)[1..] == rest;
    } else {
      ItemsBack(items, rest);
      assert Elements(items)[0] == '\"';
      hide ReadItems, Elements;
    }
  }

  // ----- numbers

  predicate IsDigit(c: char) { '0' <= c <= '9' }

  /** The number written before `t`, continued by the digits that `t` begins with. */
  function ReadDigits(n: nat, t: string): Read<nat>
    decreases |t|
  {
    if t == "" || !IsDigit(t[0]) then Got(n, t)
    else ReadDigits(10 * n + (t[0] as nat - '0' as nat), t[1..])
  }

  lemma DigitRead(n: nat, d: nat, t: string)
    requires d < 10
    ensures ReadDigits(n, [HexDigit(d)] + t) == ReadDigits(10 * n + d, t)
  {
    assert ([HexDigit(d)] + t)[1..] == t;
    assert IsDigit(HexDigit(d)) && HexDigit(d) as nat - '0' as nat == d;
  }

  lemma {:induction false} DigitsBack(n: nat, t: string)
    ensures ReadDigits(0, Decimal(n) + t) == ReadDigits(n, t)
    decreases n
  {
    if n < 10 {
      assert Decimal(n) == [HexDigit(n)];
      hide *;
      DigitRead(0, n, t);
    } else {
      assert Decimal(n) == Decimal(n / 10) + [HexDigit(n % 10)];
      hide *;
      assert Decimal(n) + t == Decimal(n / 10) + ([HexDigit(n % 10)] + t);
      DigitsBack(n / 10, [HexDigit(n % 10)] + t);
      DigitRead(n / 10, n % 10, t);
    }
  }

  lemma NumberBack(n: nat, t: string)
    requires t != "" && !IsDigit(t[0])
    ensures ReadDigits(0, Decimal(n) + t) == Got(n, t)
  {
    DigitsBack(n, t);
    hide Decimal;
  }

  // ----- the notification

  /** The optional number, if the text goes on with one. */
  function ReadSeq(t: string): Read<Option<nat>>
  {
    match Skip(",\"seq\":", t)
    case None => Got(None, t)
    case Some(t) =>
      match ReadDigits(0, t)
      case Fail => Fail
      case Got(n, t) => Got(Some(n), t)
  }

  function ReadSignature(t: string): Read<Option<string>>
  {
    match Skip(",\"signature\":", t)
    case None => Got(None, t)
    case Some(t) =>
      match ReadString(t)
      case Fail => Fail
      case Got(s, t) => Got(Some(s), t)
  }

  function ReadText(start: string, t: string): Read<string>
  {
    match Skip(start, t)
    case None => Fail
    case Some(t) => ReadString(t)
  }

  function Deserialize(t: string): Option<Notification>
  {
    var version := ReadText("{\"version\":", t);
    if version.Fail? then None else
    var sender := ReadText(",\"sender\":", version.rest);
    if sender.Fail? then None else
    var t := Skip(",\"timestamp\":", sender.rest);
    if t.None? then None else
    var timestamp := ReadDigits(0, t.value);
    if timestamp.Fail? then None else
    var medium := ReadText(",\"medium\":", timestamp.rest);
    if medium.Fail? then None else
    var reason := ReadText(",\"reason\":", medium.rest);
    if reason.Fail? then None else
    var t := Skip(",\"iris\":[", reason.rest);
    if t.None? then None else
    var iris := ReadList(t.value);
    if iris.Fail? then None else
    var seqno := ReadSeq(iris.rest);
    if seqno.Fail? then None else
    var signature := ReadSignature(seqno.rest);
    if signature.Fail? || signature.rest != "}" then None else
    Some(Notification(version.value, sender.value, timestamp.value, medium.value, reason.value, iris.value, seqno.value, signature.value))
  }

  lemma TextBack(start: string, s: string, rest: string)
    ensures ReadText(start, start + (Quote(s) + rest)) == Got(s, rest)
  {
    SkipStart(start, Quote(s) + rest);
    StringBack(s, rest);
    hide ReadString, Quote;
  }

  lemma SignatureBack(signature: Option<string>)
    ensures ReadSignature(SignatureField(signature) + "}") == Got(signature, "}")
  {
    if signature.Some? {
      var s := signature.value;
      assert SignatureField(signature) + "}" == ",\"signature\":" + (Quote(s) + "}");
      SkipStart(",\"signature\":", Quote(s) + "}");
      StringBack(s, "}");
      hide ReadString, Quote;
    } else {
      assert SignatureField(signature) + "}" == "}";
    }
  }

  lemma NoNumber(signature: Option<string>)
    ensures Skip(",\"seq\":", SignatureField(signature) + "}") == None
    ensures SignatureField(signature) + "}" != "" && !IsDigit((SignatureField(signature) + "}")[0])
  {
    var t := SignatureField(signature) + "}";
    hide Quote;
    if signature.Some? {
      assert t[3] == 'i';
      assert ",\"seq\":"[3] == 'e';
    }
  }

  lemma SeqBack(seqno: Option<nat>, signature: Option<string>)
    ensures ReadSeq(SeqField(seqno) + (SignatureField(signature) + "}")) == Got(seqno, SignatureField(signature) + "}")
  {
    var rest := SignatureField(signature) + "}";
    NoNumber(signature);
    hide SignatureField;
    if seqno.Some? {
      assert SeqField(seqno) + rest == ",\"seq\":" + (Decimal(seqno.value) + rest);
      SkipStart(",\"seq\":", Decimal(seqno.value) + rest);
      NumberBack(seqno.value, rest);
      hide Decimal, ReadDigits;
    } else {
      assert SeqField(seqno) + rest == rest;
    }
  }

  /** The text of a notification, one field after the other. */
  lemma SerializedText(n: Notification)
    ensures Serialize(n)
            == "{\"version\":" + (Quote(n.version) + (",\"sender\":" + (Quote(n.sender) + (",\"timestamp\":" + (Decimal(n.timestamp)
               + (",\"medium\":" + (Quote(n.medium) + (",\"reason\":" + (Quote(n.reason) + (",\"iris\":[" + (Elements(n.iris) + ("]"
               + (SeqField(n.seqno) + (SignatureField(n.signature) + "}"))))))))))))))
  {
    hide Quote, Decimal, Elements, SeqField, SignatureField;
  }

  /** Every notification comes back from its JSON text, all fields in place. */
  lemma SerializeRoundTrip(n: Notification)
    ensures Deserialize(Serialize(n)) == Some(n)
  {
    SerializedText(n);
    hide Quote, Decimal, Elements, SeqField, SignatureField, Serialize, ReadText, ReadDigits, ReadList, ReadSeq, ReadSignature;
    var t6 := SeqField(n.seqno) + (SignatureField(n.signature) + "}");
    var t5 := Elements(n.iris) + ("]" + t6);
    var t4 := ",\"reason\":" + (Quote(n.reason) + (",\"iris\":[" + t5));
    var t3 := ",\"medium\":" + (Quote(n.medium) + t4);
    var t2 := Decimal(n.timestamp) + t3;
    var t1 := ",\"sender\":" + (Quote(n.sender) + (",\"timestamp\":" + t2));
    TextBack("{\"version\":", n.version, t1);
    TextBack(",\"sender\":", n.sender, ",\"timestamp\":" + t2);
    SkipStart(",\"timestamp\":", t2);
    assert t3[0] == ',';
    NumberBack(n.timestamp, t3);
    TextBack(",\"medium\":", n.medium, t4);
    TextBack(",\"reason\":", n.reason, ",\"iris\":[" + t5);
    SkipStart(",\"iris\":[", t5);
    ListBack(n.iris, t6);
    SeqBack(n.seqno, n.signature);
    SignatureBack(n.signature);
  }

  /** So different notifications never share a payload: what is signed and sent is what the receiver gets. */
  lemma PayloadBack(key: Signer, now: nat, medium: string, reason: string, iris: seq<string>, seqno: Option<nat>)
    ensures Deserialize(Payload(key, now, medium, reason, iris, seqno))
            == Some(Sign(key, Notification("1.0", key.pubkeyHex, now, medium, reason, iris, seqno, None)))
  {
    SerializeRoundTrip(Sign(key, New(key.pubkeyHex, now, medium, reason, iris, seqno)));
  }
}
