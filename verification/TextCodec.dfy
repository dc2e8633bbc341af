/**
 The text protocol of the multiplexer: TYPE:ID, TYPE:ID:LENGTH:PAYLOAD and
 NEWCONN:ID:ADDRESS frames, each ended by a delimiter byte.
 */
module TextCodec {
  import opened Bytes
  import opened Decimal
  import opened Prelude

  datatype MessageType = Data | Close | Request | Response | Handshake | NewConn

  datatype Message = Message(typ: MessageType, id: bytes, payload: bytes)

  /** Panicked is Go's slice-bounds panic. */
  datatype Outcome = Decoded(msg: Message) | Rejected | Panicked

  function Name(t: MessageType): bytes {
    match t
    case Data => [68, 65, 84, 65]                           // DATA
    case Close => [67, 76, 79, 83, 69]                      // CLOSE
    case Request => [82, 69, 81, 85, 69, 83, 84]            // REQUEST
    case Response => [82, 69, 83, 80, 79, 78, 83, 69]       // RESPONSE
    case Handshake => [72, 65, 78, 68, 83, 72, 65, 75, 69]  // HANDSHAKE
    case NewConn => [78, 69, 87, 67, 79, 78, 78]            // NEWCONN
  }

  predicate CarriesLength(t: MessageType) {
    t.Data? || t.Request? || t.Response?
  }

  function LengthTail(payload: bytes): bytes {
    if payload == [] then [] else [COLON] + (Digits(|payload|) + ([COLON] + payload))
  }

  /** What follows TYPE:ID in a frame, before the delimiter. */
  function Tail(m: Message): bytes {
    match m.typ
    case NewConn => [COLON] + m.payload
    case Close => []
    case Handshake => []
    case _ => LengthTail(m.payload)
  }

  /** The grammar of a frame, without its delimiter. */
  function Body(m: Message): bytes {
    Name(m.typ) + ([COLON] + (m.id + Tail(m)))
  }

  function Frame(m: Message, delimiter: byte): bytes {
    Body(m) + [delimiter]
  }

  /** Messages some encoder method produces: no HANDSHAKE encoder exists and CLOSE carries no payload. */
  predicate Encodable(m: Message) {
    !m.typ.Handshake? && (m.typ.Close? ==> m.payload == []) && |m.payload| <= MAX_INT64
  }

  // ---- decoding ----

  function FirstColon(s: bytes): (k: nat)
    ensures k <= |s|
  {
    if s == [] || s[0] == COLON then 0 else 1 + FirstColon(s[1..])
  }

  /** bytes.SplitN(s, ":", n) for positive n. */
  function SplitN(s: bytes, n: nat): (parts: seq<bytes>)
    requires n >= 1
    ensures 1 <= |parts| <= n
  {
    var k := FirstColon(s);
    if n == 1 || k == |s| then [s] else [s[..k]] + SplitN(s[k + 1..], n - 1)
  }

  /** bytes.Join(parts, ":"). */
  function Join(parts: seq<bytes>): bytes {
    if parts == [] then []
    else if |parts| == 1 then parts[0]
    else parts[0] + [COLON] + Join(parts[1..])
  }

  function TypeOf(name: bytes): Option<MessageType> {
    if name == Name(Data) then Some(Data)
    else if name == Name(Close) then Some(Close)
    else if name == Name(Request) then Some(Request)
    else if name == Name(Response) then Some(Response)
    else if name == Name(Handshake) then Some(Handshake)
    else if name == Name(NewConn) then Some(NewConn)
    else None
  }

  /** DefaultMuxDecoder.Decode, from the split parts on. */
  function DecodeParts(parts: seq<bytes>): Outcome {
    if |parts| < 2 then Rejected
    else match TypeOf(parts[0])
      case None => Rejected
      case Some(t) =>
        if |parts| >= 4 && CarriesLength(t) then
          match Atoi(parts[2])
          case None => Rejected
          case Some(length) =>
            if |parts[3]| <= length then Decoded(Message(t, parts[1], parts[3]))
            else if length < 0 then Panicked
            else Decoded(Message(t, parts[1], parts[3][..length]))
        else if t.NewConn? && |parts| >= 3 then Decoded(Message(t, parts[1], Join(parts[2..])))
        else Decoded(Message(t, parts[1], []))
  }

  function Strip(data: bytes, delimiter: byte): bytes {
    if data != [] && data[|data| - 1] == delimiter then data[..|data| - 1] else data
  }

  const MAX_PARTS: nat := 4

  /** DefaultMuxDecoder.Decode. */
  function Decode(data: bytes, delimiter: byte): Outcome {
    DecodeParts(SplitN(Strip(data, delimiter), MAX_PARTS))
  }

  // ---- the codec is a round trip, exactly on colon-free identifiers ----

  /** Splitting then joining is the identity, which is what keeps host:port addresses whole. */
  lemma {:induction false} JoinSplit(s: bytes, n: nat)
    requires n >= 1
    ensures Join(SplitN(s, n)) == s
    decreases n
  {
    var k := FirstColon(s);
    if n > 1 && k < |s| {
      var rest := s[k + 1..];
      JoinSplit(rest, n - 1);
      AtFirstColon(s);
      JoinCons(s[..k], SplitN(rest, n - 1));
      hide FirstColon, Join;
      assert s == s[..k] + [COLON] + rest;
    }
  }

  lemma JoinCons(head: bytes, parts: seq<bytes>)
    requires parts != []
    ensures Join([head] + parts) == head + [COLON] + Join(parts)
  {
    assert ([head] + parts)[1..] == parts;
  }

  lemma {:induction false} FirstColonOf(head: bytes, rest: bytes)
    requires COLON !in head
    ensures FirstColon(head + ([COLON] + rest)) == |head|
  {
    var s := head + ([COLON] + rest);
    if head == [] {
      assert s[0] == COLON;
    } else {
      assert s[0] == head[0];
      FirstColonOf(head[1..], rest);
      assert s[1..] == head[1..] + ([COLON] + rest);
    }
  }

  lemma {:induction false} FirstColonAbsent(s: bytes)
    requires COLON !in s
    ensures FirstColon(s) == |s|
  {
    if s != [] {
      assert s[0] != COLON;
      FirstColonAbsent(s[1..]);
    }
  }

  lemma {:induction false} FirstColonWithin(s: bytes, j: nat)
    requires j < |s| && s[j] == COLON
    ensures FirstColon(s) <= j
  {
    if s[0] != COLON {
      FirstColonWithin(s[1..], j - 1);
    }
  }

  lemma {:induction false} AtFirstColon(s: bytes)
    ensures FirstColon(s) < |s| ==> s[FirstColon(s)] == COLON
  {
    if s != [] && s[0] != COLON {
      AtFirstColon(s[1..]);
    }
  }

  lemma SplitAtColon(head: bytes, rest: bytes, n: nat)
    requires n >= 2 && COLON !in head
    ensures SplitN(head + ([COLON] + rest), n) == [head] + SplitN(rest, n - 1)
  {
    FirstColonOf(head, rest);
    var s := head + ([COLON] + rest);
    assert s[..|head|] == head && s[|head| + 1..] == rest;
  }

  lemma SplitNone(s: bytes, n: nat)
    requires n >= 1 && COLON !in s
    ensures SplitN(s, n) == [s]
  {
    FirstColonAbsent(s);
  }

  lemma DigitsHaveNoColon(n: nat)
    ensures COLON !in Digits(n)
  {
    DigitsParse(n);
  }

  lemma NamesAreKeywords(t: MessageType)
    ensures TypeOf(Name(t)) == Some(t) && COLON !in Name(t)
  {
  }

  lemma DecodeFrameBody(m: Message, delimiter: byte)
    ensures Decode(Frame(m, delimiter), delimiter) == DecodeParts(SplitN(Body(m), MAX_PARTS))
  {
    assert Frame(m, delimiter)[..|Frame(m, delimiter)| - 1] == Body(m);
  }

  lemma PartsBare(name: bytes, id: bytes, n: nat)
    requires n >= 2 && COLON !in name && COLON !in id
    ensures SplitN(name + ([COLON] + (id + [])), n) == [name, id]
  {
    SplitAtColon(name, id + [], n);
    assert id + [] == id;
    SplitNone(id, n - 1);
  }

  lemma PartsAddress(name: bytes, id: bytes, address: bytes, n: nat)
    requires n >= 3 && COLON !in name && COLON !in id
    ensures SplitN(name + ([COLON] + (id + ([COLON] + address))), n) == [name, id] + SplitN(address, n - 2)
  {
    hide *;
    SplitAtColon(name, id + ([COLON] + address), n);
    SplitAtColon(id, address, n - 1);
  }

  lemma PartsLength(name: bytes, id: bytes, length: bytes, payload: bytes, n: nat)
    requires n == 4 && COLON !in name && COLON !in id && COLON !in length
    ensures SplitN(name + ([COLON] + (id + ([COLON] + (length + ([COLON] + payload))))), n) ==
            [name, id, length, payload]
  {
    PartsAddress(name, id, length + ([COLON] + payload), n);
    SplitAtColon(length, payload, n - 2);
    assert SplitN(payload, n - 3) == [payload];
  }

  lemma PartsColonId(name: bytes, id: bytes, tail: bytes, n: nat)
    requires n >= 3 && COLON !in name && COLON in id
    ensures var parts := SplitN(name + ([COLON] + (id + tail)), n); |parts| >= 2 && |parts[1]| < |id|
  {
    var rest := id + tail;
    SplitAtColon(name, rest, n);
    var j :| 0 <= j < |id| && id[j] == COLON;
    assert rest[j] == COLON;
    FirstColonWithin(rest, j);
  }

  lemma DecodeLength(t: MessageType, id: bytes, payload: bytes)
    requires CarriesLength(t) && |payload| <= MAX_INT64
    ensures DecodeParts([Name(t), id, Digits(|payload|), payload]) == Decoded(Message(t, id, payload))
  {
    NamesAreKeywords(t);
    AtoiDigits(|payload|);
  }

  lemma DecodeAddress(id: bytes, address: bytes, n: nat)
    requires n >= 1
    ensures DecodeParts([Name(NewConn), id] + SplitN(address, n)) == Decoded(Message(NewConn, id, address))
  {
    NamesAreKeywords(NewConn);
    JoinSplit(address, n);
    assert ([Name(NewConn), id] + SplitN(address, n))[2..] == SplitN(address, n);
  }

  lemma ColonFreeRoundTrip(m: Message, delimiter: byte)
    requires Encodable(m) && COLON !in m.id
    ensures Decode(Frame(m, delimiter), delimiter) == Decoded(m)
  {
    DecodeFrameBody(m, delimiter);
    NamesAreKeywords(m.typ);
    if m.typ.NewConn? {
      PartsAddress(Name(m.typ), m.id, m.payload, MAX_PARTS);
      DecodeAddress(m.id, m.payload, MAX_PARTS - 2);
    } else if Tail(m) == [] {
      PartsBare(Name(m.typ), m.id, MAX_PARTS);
    } else {
      DigitsHaveNoColon(|m.payload|);
      PartsLength(Name(m.typ), m.id, Digits(|m.payload|), m.payload, MAX_PARTS);
      DecodeLength(m.typ, m.id, m.payload);
    }
  }

  lemma ColonInId(m: Message, delimiter: byte)
    requires COLON in m.id
    ensures var d := Decode(Frame(m, delimiter), delimiter); d.Decoded? ==> |d.msg.id| < |m.id|
  {
    DecodeFrameBody(m, delimiter);
    NamesAreKeywords(m.typ);
    PartsColonId(Name(m.typ), m.id, Tail(m), MAX_PARTS);
  }

  /** Decoding a frame gives back its message if and only if the identifier has no colon. */
  lemma TextRoundTrip(m: Message, delimiter: byte)
    requires !m.typ.Handshake? && (m.typ.Close? ==> m.payload == []) && |m.payload| <= 0x7FFF_FFFF_FFFF_FFFF
    ensures Decode(Frame(m, delimiter), delimiter) == Decoded(m) <==> COLON !in m.id
  {
    if COLON in m.id {
      ColonInId(m, delimiter);
    } else {
      ColonFreeRoundTrip(m, delimiter);
    }
  }

  // ---- the format in ASCII, and what the decoder makes of other frames ----

  /** 58 is the colon; the length is in decimal. */
  lemma FrameLayout(m: Message, d: byte)
    ensures m.typ.Close? ==> Frame(m, d) == Name(Close) + [58] + m.id + [d]
    ensures m.typ.NewConn? ==> Frame(m, d) == Name(NewConn) + [58] + m.id + ([58] + m.payload) + [d]
    ensures CarriesLength(m.typ) && m.payload == [] ==> Frame(m, d) == Name(m.typ) + [58] + m.id + [d]
    ensures CarriesLength(m.typ) && m.payload != [] ==>
              Frame(m, d) == Name(m.typ) + [58] + m.id + ([58] + Digits(|m.payload|) + [58] + m.payload) + [d]
  {
    var name, tail := Name(m.typ), Tail(m);
    assert Frame(m, d) == name + ([58] + (m.id + tail)) + [d];
    assert m.id + [] == m.id;
    if CarriesLength(m.typ) && m.payload != [] {
      ConcatAssoc([58], Digits(|m.payload|), [58] + m.payload);
      ConcatAssoc([58] + Digits(|m.payload|), [58], m.payload);
    }
    hide Name, Frame, Digits;
    ConcatAssoc(name, [58], m.id + tail);
    ConcatAssoc(name + [58], m.id, tail);
  }

  lemma DecodeBody(body: bytes, d: byte)
    ensures Decode(body + [d], d) == DecodeParts(SplitN(body, MAX_PARTS))
  {
    assert (body + [d])[..|body|] == body;
  }

  lemma NamesInAscii()
    ensures Name(Data) == Ascii("DATA") && Name(Close) == Ascii("CLOSE") && Name(Request) == Ascii("REQUEST")
    ensures Name(Response) == Ascii("RESPONSE") && Name(Handshake) == Ascii("HANDSHAKE")
    ensures Name(NewConn) == Ascii("NEWCONN")
  {
  }

  /** The six types are told apart by exactly these names. */
  lemma TypeOfIff(name: bytes, t: MessageType)
    ensures TypeOf(name) == Some(t) <==> name == Name(t)
  {
    assert |Name(Data)| == 4 && |Name(Close)| == 5 && |Name(Request)| == 7 && |Name(Response)| == 8;
    assert |Name(Handshake)| == 9 && |Name(NewConn)| == 7 && Name(NewConn)[0] != Name(Request)[0];
  }

  /** A frame is read the same way with and without its delimiter. */
  lemma DelimiterOptional(body: bytes, d: byte)
    requires body == [] || body[|body| - 1] != d
    ensures Decode(body, d) == Decode(body + [d], d)
  {
    assert (body + [d])[..|body|] == body;
  }

  /** Without a colon, or with an unknown type before the first one, a frame is an error. */
  lemma DecodeRejects(head: bytes, rest: bytes, d: byte)
    requires COLON !in head
    ensures Decode(head + [d], d) == Rejected
    ensures (forall t: MessageType :: head != Name(t)) ==> Decode(head + ([COLON] + rest) + [d], d) == Rejected
  {
    hide Name;
    assert (head + [d])[..|head|] == head;
    SplitNone(head, MAX_PARTS);
    var body := head + ([COLON] + rest);
    assert (body + [d])[..|body|] == body;
    SplitAtColon(head, rest, MAX_PARTS);
    if TypeOf(head).Some? {
      TypeOfIff(head, TypeOf(head).value);
    }
    hide TypeOf, SplitN;
  }

  /**
   A type that carries a length: the payload is cut to the announced length if it
   is longer, and taken as it is if it is shorter; a length that is no int64 is
   an error.
   */
  lemma DecodeCuts(t: MessageType, id: bytes, length: bytes, payload: bytes, d: byte)
    requires CarriesLength(t) && COLON !in id && COLON !in length
    ensures var frame := Name(t) + ([COLON] + (id + ([COLON] + (length + ([COLON] + payload))))) + [d];
            match Atoi(length)
            case None => Decode(frame, d) == Rejected
            case Some(n) =>
              n >= 0 ==> Decode(frame, d) == Decoded(Message(t, id, if n < |payload| then payload[..n] else payload))
  {
    var body := Name(t) + ([COLON] + (id + ([COLON] + (length + ([COLON] + payload)))));
    assert (body + [d])[..|body|] == body;
    NamesAreKeywords(t);
    hide Name, Atoi, TypeOf;
    PartsLength(Name(t), id, length, payload, MAX_PARTS);
  }

  /** TYPE:ID alone is a message without payload, and so is TYPE:ID:LENGTH. */
  lemma DecodeBare(t: MessageType, id: bytes, d: byte)
    requires COLON !in id
    ensures Decode(Name(t) + ([COLON] + (id + [])) + [d], d) == Decoded(Message(t, id, []))
  {
    NamesAreKeywords(t);
    hide Name, Atoi, TypeOf, SplitN, Decode;
    DecodeBody(Name(t) + ([COLON] + (id + [])), d);
    PartsBare(Name(t), id, MAX_PARTS);
  }

  lemma DecodeShort(t: MessageType, id: bytes, extra: bytes, d: byte)
    requires COLON !in id && COLON !in extra && !t.NewConn?
    ensures Decode(Name(t) + ([COLON] + (id + ([COLON] + extra))) + [d], d) == Decoded(Message(t, id, []))
  {
    NamesAreKeywords(t);
    hide Name, Atoi, TypeOf, SplitN, Decode;
    DecodeBody(Name(t) + ([COLON] + (id + ([COLON] + extra))), d);
    PartsAddress(Name(t), id, extra, MAX_PARTS);
    SplitNone(extra, MAX_PARTS - 2);
  }

  /** CLOSE and HANDSHAKE ignore whatever follows the identifier. */
  lemma DecodeIgnores(t: MessageType, id: bytes, extra: bytes, d: byte)
    requires (t.Close? || t.Handshake?) && COLON !in id
    ensures Decode(Name(t) + ([COLON] + (id + ([COLON] + extra))) + [d], d) == Decoded(Message(t, id, []))
  {
    NamesAreKeywords(t);
    hide Name, Atoi, TypeOf, SplitN, Decode;
    DecodeBody(Name(t) + ([COLON] + (id + ([COLON] + extra))), d);
    PartsAddress(Name(t), id, extra, MAX_PARTS);
  }

  // ---- when the decoder panics ----

  predicate IsNegative(s: bytes) {
    Atoi(s).Some? && Atoi(s).value < 0
  }

  /** On any bytes: the decoder panics if and only if a message that carries a length announces a negative one. */
  lemma DecodePanicsIff(data: bytes, delimiter: byte)
    ensures var parts := SplitN(Strip(data, delimiter), MAX_PARTS);
            Decode(data, delimiter).Panicked? <==>
            && |parts| == MAX_PARTS && IsNegative(parts[2])
            && TypeOf(parts[0]).Some? && CarriesLength(TypeOf(parts[0]).value)
  {
    hide Atoi, TypeOf;
  }

  /** Only the part before the first colon is split off, whatever follows the identifier. */
  lemma SplitInId(id: bytes, tail: bytes, n: nat)
    requires n >= 2 && FirstColon(id) < |id|
    ensures var k := FirstColon(id);
            SplitN(id, n) == [id[..k]] + SplitN(id[k + 1..], n - 1) &&
            SplitN(id + tail, n) == [id[..k]] + SplitN(id[k + 1..] + tail, n - 1)
  {
    var k := FirstColon(id);
    AtFirstColon(id);
    BeforeFirstColon(id);
    assert id + tail == id[..k] + ([COLON] + (id[k + 1..] + tail));
    SplitAtColon(id[..k], id[k + 1..] + tail, n);
  }

  lemma {:induction false} BeforeFirstColon(s: bytes)
    ensures COLON !in s[..FirstColon(s)]
  {
    if s != [] && s[0] != COLON {
      BeforeFirstColon(s[1..]);
      assert s[..FirstColon(s)] == [s[0]] + s[1..][..FirstColon(s[1..])];
    }
  }

  /** What the peer takes for the length field of a frame that carries one: the identifier's second segment, if any. */
  ghost predicate SecondSegmentNegative(id: bytes, payload: bytes) {
    var segments := SplitN(id, 3);
    && |segments| >= 2 && IsNegative(segments[1])
    && (|segments| == 3 || payload != [])
  }

  lemma LengthNotNegative(n: nat)
    ensures !IsNegative(Digits(n))
  {
    DigitsParse(n);
    assert IsDigit(Digits(n)[0]);
  }

  /** The length field as the peer sees it. */
  lemma PeerLength(id: bytes, payload: bytes)
    ensures var parts := SplitN(id + LengthTail(payload), 3);
            |parts| == 3 && IsNegative(parts[1]) <==> SecondSegmentNegative(id, payload)
  {
    hide Atoi, LengthTail, SplitN, FirstColon, IsNegative;
    var tail := LengthTail(payload);
    if FirstColon(id) == |id| {
      NoColonLength(id, payload);
    } else {
      var rest := id[FirstColon(id) + 1..];
      SplitInId(id, tail, 3);
      if FirstColon(rest) < |rest| {
        SplitInId(rest, tail, 2);
      } else {
        OneColonLength(rest, payload);
      }
    }
  }

  lemma {:induction false} NoColonIn(s: bytes)
    requires FirstColon(s) == |s|
    ensures COLON !in s
  {
    BeforeFirstColon(s);
    assert s[..|s|] == s;
  }

  lemma NoColonLength(id: bytes, payload: bytes)
    requires FirstColon(id) == |id|
    ensures var parts := SplitN(id + LengthTail(payload), 3);
            !(|parts| == 3 && IsNegative(parts[1])) && SplitN(id, 3) == [id]
  {
    NoColonIn(id);
    LengthNotNegative(|payload|);
    DigitsHaveNoColon(|payload|);
    hide Atoi, Digits;
    if payload == [] {
      assert id + LengthTail(payload) == id;
    } else {
      SplitAtColon(id, Digits(|payload|) + ([COLON] + payload), 3);
      SplitAtColon(Digits(|payload|), payload, 2);
    }
  }

  lemma OneColonLength(rest: bytes, payload: bytes)
    requires FirstColon(rest) == |rest|
    ensures SplitN(rest, 2) == [rest]
    ensures var parts := SplitN(rest + LengthTail(payload), 2);
            parts[0] == rest && (|parts| == 2 <==> payload != [])
  {
    NoColonIn(rest);
    hide Atoi, Digits;
    if payload == [] {
      assert rest + LengthTail(payload) == rest;
    } else {
      SplitAtColon(rest, Digits(|payload|) + ([COLON] + payload), 2);
    }
  }

  /**
   What a sender can check: an encoded frame makes the peer's decoder panic if
   and only if its type carries a length, the second colon-separated segment of
   its identifier is a negative number, and either the identifier has a further
   colon or the payload is not empty.
   */
  lemma FramePanicsIff(m: Message, delimiter: byte)
    ensures Decode(Frame(m, delimiter), delimiter).Panicked? <==>
            CarriesLength(m.typ) && SecondSegmentNegative(m.id, m.payload)
  {
    NamesAreKeywords(m.typ);
    DecodeFrameBody(m, delimiter);
    DecodePanicsIff(Frame(m, delimiter), delimiter);
    assert Strip(Frame(m, delimiter), delimiter) == Body(m);
    var rest := m.id + Tail(m);
    SplitAtColon(Name(m.typ), rest, MAX_PARTS);
    hide Atoi, TypeOf, Name, SecondSegmentNegative, Frame;
    if CarriesLength(m.typ) {
      PeerLength(m.id, m.payload);
    }
  }

  /** An instance: DATA with id "x:-5" and payload "abc". */
  lemma ColonIdPanics(delimiter: byte)
    ensures Decode(Frame(Message(Data, [120, COLON, MINUS, 53], [97, 98, 99]), delimiter), delimiter) == Panicked
  {
    var m := Message(Data, [120, COLON, MINUS, 53], [97, 98, 99]);
    AtoiMinusFive();
    SplitAtColon([120], [MINUS, 53], 3);
    SplitNone([MINUS, 53], 2);
    assert m.id == [120] + ([COLON] + [MINUS, 53]);
    FramePanicsIff(m, delimiter);
    hide Decode, Frame;
  }

  lemma AtoiMinusFive()
    ensures Atoi([MINUS, 53]) == Some(-5)
  {
    var five: bytes := [53];
    assert [MINUS, 53][1..] == five;
    assert five[..0] == [];
    assert Value(five) == 5;
  }

  // ---- encoding into recycled buffers ----

  lemma {:induction false} FewerDigitsThanBytes(n: nat)
    requires n >= 1
    ensures |Digits(n)| <= n
  {
    if n >= 10 {
      FewerDigitsThanBytes(n / 10);
    }
  }

  /** A colon, the length, a colon and the payload, or None when the delimiter would not fit any more. */
  method PutPayload(buf: array<byte>, at: nat, payload: bytes) returns (end: Option<nat>)
    requires at + 12 + |payload| <= buf.Length && payload != []
    modifies buf
    ensures end.None? <==> at + |LengthTail(payload)| >= buf.Length
    ensures end.Some? ==>
              end.value == at + |LengthTail(payload)| && buf[..end.value] == old(buf[..at]) + LengthTail(payload)
  {
    hide Digits;
    FewerDigitsThanBytes(|payload|);
    var offset := PutLength(buf, at, |payload|);
    if offset + |payload| >= buf.Length {
      return None;
    }
    PutBytes(buf, offset, payload);
    end := Some(offset + |payload|);
    LengthTailParts(old(buf[..at]), payload);
  }

  lemma LengthTailParts(before: bytes, payload: bytes)
    requires payload != []
    ensures before + ([COLON] + (Digits(|payload|) + [COLON])) + payload == before + LengthTail(payload)
  {
    hide Digits;
    var colon, digits: bytes := [COLON], Digits(|payload|);
    ConcatAssoc(before, colon + (digits + colon), payload);
    ConcatAssoc(colon, digits + colon, payload);
    ConcatAssoc(digits, colon, payload);
  }

  method PutLength(buf: array<byte>, at: nat, n: nat) returns (offset: nat)
    requires at + 2 + |Digits(n)| <= buf.Length
    modifies buf
    ensures offset == at + 2 + |Digits(n)|
    ensures buf[..offset] == old(buf[..at]) + ([COLON] + (Digits(n) + [COLON]))
  {
    hide *;
    ghost var before := buf[..at];
    PutBytes(buf, at, [COLON]);
    ghost var withColon := buf[..at + 1];
    offset := WriteInt(buf, at + 1, n);
    assert buf[..offset] == withColon + Digits(n);
    PutBytes(buf, offset, [COLON]);
    offset := offset + 1;
  }

  method PutPrefix(buf: array<byte>, prefix: bytes, id: bytes)
    requires |prefix| + |id| <= buf.Length
    modifies buf
    ensures buf[..|prefix| + |id|] == prefix + id
  {
    PutBytes(buf, 0, prefix);
    PutBytes(buf, |prefix|, id);
  }

  /** The writes of encodeMessage, into a buffer of at least the estimated size. */
  method FillMessage(buf: array<byte>, prefix: bytes, id: bytes, payload: bytes, delimiter: byte)
    returns (frame: Option<bytes>)
    requires |prefix| + |id| + 12 + |payload| < buf.Length
    modifies buf
    ensures frame == if |prefix| + |id| + |LengthTail(payload)| < buf.Length
                     then Some(prefix + id + LengthTail(payload) + [delimiter]) else None
  {
    PutPrefix(buf, prefix, id);
    var offset := |prefix| + |id|;
    if payload == [] {
      assert prefix + id == prefix + id + LengthTail(payload);
    } else {
      var end := PutPayload(buf, offset, payload);
      if end.None? {
        return None;
      }
      offset := end.value;
    }
    PutBytes(buf, offset, [delimiter]);
    frame := Some(buf[..offset + 1]);
  }

  lemma FrameOfMessage(m: Message, delimiter: byte)
    requires CarriesLength(m.typ)
    ensures Frame(m, delimiter) == (Name(m.typ) + [COLON]) + m.id + LengthTail(m.payload) + [delimiter]
  {
    hide Name, LengthTail;
    var name, tail := Name(m.typ), LengthTail(m.payload);
    ConcatAssoc(name, [COLON], m.id + tail);
    ConcatAssoc(name + [COLON], m.id, tail);
  }

  lemma TailEstimate(payload: bytes)
    ensures |payload| < 10_000_000_000 ==> |LengthTail(payload)| <= 12 + |payload|
  {
    TenDigits(|payload|);
    hide Digits;
  }

  /**
   encodeMessage. `pooled` is the buffer taken from the pool and `back` the one
   given back to it; the frame is returned as a copy. None is the index panic.
   */
  method EncodeMessage(pooled: array<byte>, m: Message, delimiter: byte)
    returns (frame: Option<bytes>, back: array<byte>)
    requires CarriesLength(m.typ)
    modifies pooled
    ensures back == pooled || (fresh(back) && back.Length > pooled.Length)
    ensures frame == if |Frame(m, delimiter)| <= back.Length then Some(Frame(m, delimiter)) else None
    ensures |m.payload| < 10_000_000_000 ==> frame.Some?
  {
    FrameOfMessage(m, delimiter);
    TailEstimate(m.payload);
    var prefix := Name(m.typ) + [COLON];
    var maxTotalLen := |prefix| + |m.id| + 1 + 10 + 1 + |m.payload| + 1;
    back := pooled;
    if pooled.Length < maxTotalLen {
      back := new byte[maxTotalLen](_ => 0);
    }
    frame := FillMessage(back, prefix, m.id, m.payload, delimiter);
  }

  /** The writes of EncodeClose and EncodeNewConn, into a buffer that is long enough. */
  method FillShort(buf: array<byte>, prefix: bytes, id: bytes, tail: bytes, delimiter: byte) returns (frame: bytes)
    requires |prefix| + |id| + |tail| < buf.Length
    modifies buf
    ensures frame == prefix + id + tail + [delimiter]
  {
    PutPrefix(buf, prefix, id);
    var offset := |prefix| + |id|;
    PutBytes(buf, offset, tail);
    PutBytes(buf, offset + |tail|, [delimiter]);
    frame := buf[..offset + |tail| + 1];
  }

  /** EncodeClose and EncodeNewConn never grow the pooled buffer, so a longer frame panics. */
  method EncodeShort(pooled: array<byte>, m: Message, delimiter: byte) returns (frame: Option<bytes>)
    requires Encodable(m) && !CarriesLength(m.typ)
    modifies pooled
    ensures frame == if |Frame(m, delimiter)| <= pooled.Length then Some(Frame(m, delimiter)) else None
  {
    var prefix, tail := Name(m.typ) + [COLON], Tail(m);
    assert Frame(m, delimiter) == prefix + m.id + tail + [delimiter];
    if |prefix| + |m.id| + |tail| + 1 > pooled.Length {
      return None;
    }
    var written := FillShort(pooled, prefix, m.id, tail, delimiter);
    frame := Some(written);
  }
}
