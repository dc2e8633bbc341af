/**
 The control-stream messages: register, session restore, register ack and new
 connection. The server's parsers check every length; the client's do not, so
 theirs can panic or, since Go slices up to capacity, read past the message.
 */
module ControlMessages {
  import opened Bytes
  import opened Prelude

  const MSG_REGISTER: byte := 0x01
  const MSG_REGISTER_ACK: byte := 0x02
  const MSG_NEW_CONN: byte := 0x05
  const MSG_SESSION_RESTORE: byte := 0x0B

  // ---- register ----

  datatype Register = Register(tunnelId: bytes, protocol: byte, localAddr: bytes, domain: bytes, authToken: bytes)

  function RegisterPayload(r: Register): bytes {
    Field(r.tunnelId) + ([r.protocol] + (Field(r.localAddr) + (Field(r.domain) + Field(r.authToken))))
  }

  predicate RegisterReadable(r: Register) {
    && |r.tunnelId| < 65536 && |r.localAddr| < 65536 && |r.domain| < 65536 && |r.authToken| < 65536
    && 1 <= r.protocol <= 5
  }

  /** buildRegisterMessage. */
  method BuildRegister(r: Register) returns (buf: array<byte>)
    ensures fresh(buf) && buf[..] == [0x01] + RegisterPayload(r)
  {
    hide Field;
    var a, b, c, d := Field(r.tunnelId), Field(r.localAddr), Field(r.domain), Field(r.authToken);
    FieldLength(r.tunnelId);
    FieldLength(r.localAddr);
    FieldLength(r.domain);
    FieldLength(r.authToken);
    buf := new byte[10 + |r.tunnelId| + |r.localAddr| + |r.domain| + |r.authToken|](_ => 0);
    var offset := Append(buf, 0, [MSG_REGISTER], []);
    offset := Append(buf, offset, a, [MSG_REGISTER]);
    offset := Append(buf, offset, [r.protocol], [MSG_REGISTER] + a);
    offset := Append(buf, offset, b, [MSG_REGISTER] + a + [r.protocol]);
    offset := Append(buf, offset, c, [MSG_REGISTER] + a + [r.protocol] + b);
    offset := Append(buf, offset, d, [MSG_REGISTER] + a + [r.protocol] + b + c);
    ConcatAssoc([MSG_REGISTER] + a + [r.protocol] + b, c, d);
    ConcatAssoc([MSG_REGISTER] + a + [r.protocol], b, c + d);
    ConcatAssoc([MSG_REGISTER] + a, [r.protocol], b + (c + d));
    ConcatAssoc([MSG_REGISTER], a, [r.protocol] + (b + (c + d)));
    assert buf[..] == buf[..offset];
  }

  /** A field at an offset, if the payload holds all of it. */
  function FieldAt(p: bytes, at: nat): Option<bytes> {
    if at + 2 > |p| || at + 2 + U16(p, at) > |p| then None else Some(p[at + 2..at + 2 + U16(p, at)])
  }

  lemma FieldAtIff(p: bytes, at: nat, f: bytes)
    ensures FieldAt(p, at) == Some(f) <==> |f| < 65536 && StartsAt(p, at, Field(f))
  {
    hide U16, Field;
    if |f| < 65536 {
      StartsAtField(p, at, f);
    }
  }

  /** parseRegisterPayload; None stands for any of its errors. */
  function ParseRegister(p: bytes): Option<Register> {
    if |p| < 9 then None
    else match FieldAt(p, 0)
      case None => None
      case Some(tunnelId) =>
        var at := 2 + |tunnelId|;
        if at >= |p| || !(1 <= p[at] <= 5) then None
        else match FieldAt(p, at + 1)
          case None => None
          case Some(localAddr) =>
            var at2 := at + 3 + |localAddr|;
            match FieldAt(p, at2)
            case None => None
            case Some(domain) =>
              match FieldAt(p, at2 + 2 + |domain|)
              case None => None
              case Some(authToken) => Some(Register(tunnelId, p[at], localAddr, domain, authToken))
  }

  /** A register message stands at the front exactly when each of its parts stands in its place. */
  lemma RegisterInParts(p: bytes, r: Register)
    ensures RegisterPayload(r) <= p <==>
            var t, l, d := |r.tunnelId|, |r.localAddr|, |r.domain|;
            && StartsAt(p, 0, Field(r.tunnelId)) && StartsAt(p, 2 + t, [r.protocol])
            && StartsAt(p, 3 + t, Field(r.localAddr)) && StartsAt(p, 5 + t + l, Field(r.domain))
            && StartsAt(p, 7 + t + l + d, Field(r.authToken))
  {
    hide Field, StartsAt;
    var a3 := Field(r.domain) + Field(r.authToken);
    var a2 := Field(r.localAddr) + a3;
    var a1 := [r.protocol] + a2;
    var t, l := |r.tunnelId|, |r.localAddr|;
    FieldLength(r.tunnelId);
    FieldLength(r.localAddr);
    FieldLength(r.domain);
    StartsAtPrefix(p, RegisterPayload(r));
    StartsAtConcat(p, 0, Field(r.tunnelId), a1);
    StartsAtConcat(p, 2 + t, [r.protocol], a2);
    StartsAtConcat(p, 3 + t, Field(r.localAddr), a3);
    StartsAtConcat(p, 5 + t + l, Field(r.domain), Field(r.authToken));
  }

  lemma FieldAtFits(p: bytes, at: nat)
    ensures FieldAt(p, at).Some? ==> at + 2 + |FieldAt(p, at).value| <= |p|
  {
  }

  /** The parser accepts exactly the payloads that begin with a well-formed register message, and reads its fields. */
  lemma ParseRegisterIff(p: bytes, r: Register)
    ensures ParseRegister(p) == Some(r) <==> RegisterReadable(r) && RegisterPayload(r) <= p
  {
    hide Field, FieldAt, StartsAt, RegisterPayload;
    var t, l, d := |r.tunnelId|, |r.localAddr|, |r.domain|;
    RegisterInParts(p, r);
    StartsAtByte(p, 2 + t, r.protocol);
    FieldAtIff(p, 0, r.tunnelId);
    FieldAtIff(p, 3 + t, r.localAddr);
    FieldAtIff(p, 5 + t + l, r.domain);
    FieldAtIff(p, 7 + t + l + d, r.authToken);
    FieldAtFits(p, 7 + t + l + d);
  }

  /** A register message reads back if and only if every field fits 65535 bytes and the protocol is one of the five. */
  lemma RegisterRoundTripIff(r: Register, rest: bytes)
    ensures ParseRegister(RegisterPayload(r) + rest) == Some(r) <==>
            && r.protocol in {1, 2, 3, 4, 5}
            && |r.tunnelId| <= 65535 && |r.localAddr| <= 65535 && |r.domain| <= 65535 && |r.authToken| <= 65535
  {
    ParseRegisterIff(RegisterPayload(r) + rest, r);
  }

  // ---- session restore ----

  datatype Restore = Restore(tunnelId: bytes, protocol: byte, localAddr: bytes, timestamp: nat)

  function RestorePayload(r: Restore): bytes {
    Field(r.tunnelId) + ([r.protocol] + (Field(r.localAddr) + Be64(r.timestamp)))
  }

  predicate RestoreReadable(r: Restore) {
    |r.tunnelId| < 65536 && |r.localAddr| < 65536 && r.timestamp < 0x1_0000_0000_0000_0000
  }

  /** sendSessionRestore, growing its message by appends. */
  method BuildRestore(r: Restore) returns (msg: bytes)
    ensures msg == [0x0B] + RestorePayload(r)
  {
    hide Be64;
    msg := [MSG_SESSION_RESTORE];
    msg := msg + [|r.tunnelId| / 256 % 256, |r.tunnelId| % 256];
    msg := msg + r.tunnelId;
    msg := msg + [r.protocol];
    ghost var head := [MSG_SESSION_RESTORE] + Field(r.tunnelId) + [r.protocol];
    assert msg == head;
    msg := msg + [|r.localAddr| / 256 % 256, |r.localAddr| % 256];
    msg := msg + r.localAddr;
    assert msg == head + Field(r.localAddr);
    msg := msg + Be64(r.timestamp);
    hide Field;
    ConcatAssoc(head, Field(r.localAddr), Be64(r.timestamp));
    ConcatAssoc([MSG_SESSION_RESTORE] + Field(r.tunnelId), [r.protocol], Field(r.localAddr) + Be64(r.timestamp));
    ConcatAssoc([MSG_SESSION_RESTORE], Field(r.tunnelId), [r.protocol] + (Field(r.localAddr) + Be64(r.timestamp)));
  }

  /** The parsing part of handleSessionRestore. */
  function ParseRestore(p: bytes): Option<Restore> {
    if |p| < 2 then None
    else
      var t := U16(p, 0);
      if |p| < 2 + t + 1 then None
      else if |p| < 3 + t + 2 then None
      else
        var l := U16(p, 3 + t);
        if |p| < 5 + t + l + 8 then None
        else Some(Restore(p[2..2 + t], p[2 + t], p[5 + t..5 + t + l], U64(p, 5 + t + l)))
  }

  lemma RestoreInParts(p: bytes, r: Restore)
    ensures RestorePayload(r) <= p <==>
            var t, l := |r.tunnelId|, |r.localAddr|;
            && StartsAt(p, 0, Field(r.tunnelId)) && StartsAt(p, 2 + t, [r.protocol])
            && StartsAt(p, 3 + t, Field(r.localAddr)) && StartsAt(p, 5 + t + l, Be64(r.timestamp))
  {
    hide Be64, Field, StartsAt;
    var a2 := Field(r.localAddr) + Be64(r.timestamp);
    var a1 := [r.protocol] + a2;
    var t := |r.tunnelId|;
    FieldLength(r.tunnelId);
    FieldLength(r.localAddr);
    StartsAtPrefix(p, RestorePayload(r));
    StartsAtConcat(p, 0, Field(r.tunnelId), a1);
    StartsAtConcat(p, 2 + t, [r.protocol], a2);
    StartsAtConcat(p, 3 + t, Field(r.localAddr), Be64(r.timestamp));
  }

  lemma ParseRestoreIff(p: bytes, r: Restore)
    ensures ParseRestore(p) == Some(r) <==> RestoreReadable(r) && RestorePayload(r) <= p
  {
    RestoreInParts(p, r);
    hide U16, U64, Be64, Field, StartsAt, RestorePayload;
    var t, l := |r.tunnelId|, |r.localAddr|;
    if RestoreReadable(r) {
      StartsAtByte(p, 2 + t, r.protocol);
      StartsAtField(p, 0, r.tunnelId);
      StartsAtField(p, 3 + t, r.localAddr);
      StartsAtU64(p, 5 + t + l, r.timestamp);
    }
  }

  /** A restore message reads back if and only if both fields fit 65535 bytes. */
  lemma RestoreRoundTripIff(r: Restore, rest: bytes)
    requires r.timestamp <= 0xFFFF_FFFF_FFFF_FFFF
    ensures ParseRestore(RestorePayload(r) + rest) == Some(r) <==> |r.tunnelId| <= 65535 && |r.localAddr| <= 65535
  {
    ParseRestoreIff(RestorePayload(r) + rest, r);
  }

  // ---- register ack and new connection, as the client reads them ----

  datatype Ack = Ack(tunnelId: bytes, publicUrl: bytes, port: nat, err: bytes)

  function AckPayload(a: Ack): bytes {
    Field(a.tunnelId) + (Field(a.publicUrl) + (Be16(a.port) + Field(a.err)))
  }

  /** sendRegisterAck; the port is converted to uint16. */
  method BuildAck(a: Ack) returns (buf: array<byte>)
    ensures fresh(buf) && buf[..] == [0x02] + AckPayload(a)
  {
    hide Field;
    var t, u, p, e := Field(a.tunnelId), Field(a.publicUrl), Be16(a.port), Field(a.err);
    FieldLength(a.tunnelId);
    FieldLength(a.publicUrl);
    FieldLength(a.err);
    buf := new byte[9 + |a.tunnelId| + |a.publicUrl| + |a.err|](_ => 0);
    var offset := Append(buf, 0, [MSG_REGISTER_ACK], []);
    offset := Append(buf, offset, t, [MSG_REGISTER_ACK]);
    offset := Append(buf, offset, u, [MSG_REGISTER_ACK] + t);
    offset := Append(buf, offset, p, [MSG_REGISTER_ACK] + t + u);
    offset := Append(buf, offset, e, [MSG_REGISTER_ACK] + t + u + p);
    ConcatAssoc([MSG_REGISTER_ACK] + t + u, p, e);
    ConcatAssoc([MSG_REGISTER_ACK] + t, u, p + e);
    ConcatAssoc([MSG_REGISTER_ACK], t, u + (p + e));
    assert buf[..] == buf[..offset];
  }

  /** buildNewConnMessage. */
  method BuildNewConn(connId: bytes, remoteAddr: bytes) returns (buf: array<byte>)
    ensures fresh(buf) && buf[..] == [0x05] + (Field(connId) + Field(remoteAddr))
  {
    hide Field;
    FieldLength(connId);
    FieldLength(remoteAddr);
    buf := new byte[5 + |connId| + |remoteAddr|](_ => 0);
    var offset := Append(buf, 0, [MSG_NEW_CONN], []);
    offset := Append(buf, offset, Field(connId), [MSG_NEW_CONN]);
    offset := Append(buf, offset, Field(remoteAddr), [MSG_NEW_CONN] + Field(connId));
    ConcatAssoc([MSG_NEW_CONN], Field(connId), Field(remoteAddr));
    assert buf[..] == buf[..offset];
  }

  /**
   An unchecked field read from a slice of length `len` over the bytes `b`: the
   length prefix must lie below `len`, the field only below the capacity. None is a panic.
   */
  function UncheckedField(b: bytes, len: nat, at: nat): Option<bytes>
    requires len <= |b|
  {
    if at + 2 > len || at + 2 + U16(b, at) > |b| then None else Some(b[at + 2..at + 2 + U16(b, at)])
  }

  datatype AckRead = Panic | Read(tunnelId: bytes, publicUrl: bytes, err: bytes)

  /** readRegisterAck after the message type: tunnel id, public URL and the server's error, if any. */
  function ParseAck(b: bytes, len: nat): AckRead
    requires len <= |b|
  {
    match UncheckedField(b, len, 0)
    case None => Panic
    case Some(tunnelId) =>
      match UncheckedField(b, len, 2 + |tunnelId|)
      case None => Panic
      case Some(publicUrl) =>
        match UncheckedField(b, len, 6 + |tunnelId| + |publicUrl|)
        case None => Panic
        case Some(err) => Read(tunnelId, publicUrl, err)
  }

  /** handleNewConn's parsing. */
  function ParseNewConn(b: bytes, len: nat): Option<(bytes, bytes)>
    requires len <= |b|
  {
    match UncheckedField(b, len, 0)
    case None => None
    case Some(connId) =>
      match UncheckedField(b, len, 2 + |connId|)
      case None => None
      case Some(remoteAddr) => Some((connId, remoteAddr))
  }

  /** A field is read if and only if it stands there, its length prefix within the slice. */
  lemma UncheckedFieldIff(b: bytes, len: nat, at: nat, f: bytes)
    requires len <= |b|
    ensures UncheckedField(b, len, at) == Some(f) <==> |f| < 65536 && StartsAt(b, at, Field(f)) && at + 2 <= len
  {
    hide U16, Field;
    if |f| < 65536 {
      StartsAtField(b, at, f);
    }
  }

  /**
   On any bytes: the client reads an ack if and only if one stands in the buffer
   and its last length prefix lies within what was received.
   */
  lemma ParseAckIff(b: bytes, len: nat, t: bytes, u: bytes, e: bytes)
    requires len <= |b|
    ensures ParseAck(b, len) == Read(t, u, e) <==>
            && |t| < 65536 && |u| < 65536 && |e| < 65536
            && 8 + |t| + |u| <= len
            && StartsAt(b, 0, Field(t) + Field(u)) && StartsAt(b, 6 + |t| + |u|, Field(e))
  {
    hide U16, Field, UncheckedField, StartsAt;
    FieldLength(t);
    FieldLength(u);
    StartsAtConcat(b, 0, Field(t), Field(u));
    UncheckedFieldIff(b, len, 0, t);
    UncheckedFieldIff(b, len, 2 + |t|, u);
    UncheckedFieldIff(b, len, 6 + |t| + |u|, e);
  }

  /** Likewise for a new-connection message. */
  lemma ParseNewConnIff(b: bytes, len: nat, connId: bytes, remoteAddr: bytes)
    requires len <= |b|
    ensures ParseNewConn(b, len) == Some((connId, remoteAddr)) <==>
            && |connId| < 65536 && |remoteAddr| < 65536
            && 4 + |connId| <= len && Field(connId) + Field(remoteAddr) <= b
  {
    hide U16, Field, UncheckedField, StartsAt;
    FieldLength(connId);
    StartsAtPrefix(b, Field(connId) + Field(remoteAddr));
    StartsAtConcat(b, 0, Field(connId), Field(remoteAddr));
    UncheckedFieldIff(b, len, 0, connId);
    UncheckedFieldIff(b, len, 2 + |connId|, remoteAddr);
  }

  /** A field prefix inside the received part of a message is the sender's. */
  lemma ReceivedPrefix(b: bytes, len: nat, m: bytes, at: nat, f: bytes)
    requires len <= |b| && len <= |m| && b[..len] == m[..len] && at + 2 <= len
    requires |f| < 65536 && StartsAt(m, at, Field(f))
    ensures U16(b, at) == |f| && at + 2 + |f| <= |m|
    ensures at + 2 + |f| <= len ==> UncheckedField(b, len, at) == Some(f)
    ensures UncheckedField(b, len, at) ==
            if at + 2 + |f| <= |b| then Some(b[at + 2..at + 2 + |f|]) else None
  {
    StartsAtField(m, at, f);
    assert b[at] == b[..len][at] == m[at] && b[at + 1] == b[..len][at + 1] == m[at + 1];
    hide Field, U16;
    if at + 2 + |f| <= len {
      SliceOfPrefix(b, len, at + 2, at + 2 + |f|);
      SliceOfPrefix(m, len, at + 2, at + 2 + |f|);
    }
  }

  /**
   An ack of which `len` bytes arrived, in a buffer of capacity |b|: it panics
   unless its last length prefix has arrived and the whole ack fits the buffer;
   then the missing part of the error is whatever the buffer held before.
   */
  lemma TruncatedAck(a: Ack, b: bytes, len: nat)
    requires |a.tunnelId| < 65536 && |a.publicUrl| < 65536 && |a.err| < 65536
    requires len <= |b| && len <= |AckPayload(a)| && b[..len] == AckPayload(a)[..len]
    ensures var at := 8 + |a.tunnelId| + |a.publicUrl|;
            ParseAck(b, len) == if at <= len && at + |a.err| <= |b|
                                then Read(a.tunnelId, a.publicUrl, b[at..at + |a.err|]) else Panic
  {
    var m := AckPayload(a);
    var t, u := |a.tunnelId|, |a.publicUrl|;
    AckInParts(a);
    hide U16, Field, UncheckedField, StartsAt, AckPayload;
    if 2 <= len {
      ReceivedPrefix(b, len, m, 0, a.tunnelId);
      if 4 + t <= len {
        ReceivedPrefix(b, len, m, 2 + t, a.publicUrl);
        if 8 + t + u <= len {
          ReceivedPrefix(b, len, m, 6 + t + u, a.err);
        }
      }
    }
    ShortIsNone(b, len, 0);
    ShortIsNone(b, len, 2 + t);
    ShortIsNone(b, len, 6 + t + u);
  }

  lemma ShortIsNone(b: bytes, len: nat, at: nat)
    requires len <= |b|
    ensures at + 2 > len ==> UncheckedField(b, len, at) == None
  {
  }

  lemma AckInParts(a: Ack)
    ensures var m, t, u := AckPayload(a), |a.tunnelId|, |a.publicUrl|;
            && |m| == 8 + t + u + |a.err|
            && StartsAt(m, 0, Field(a.tunnelId)) && StartsAt(m, 2 + t, Field(a.publicUrl))
            && StartsAt(m, 6 + t + u, Field(a.err))
  {
    hide Field, StartsAt;
    var m, t, u := AckPayload(a), |a.tunnelId|, |a.publicUrl|;
    var a2 := Be16(a.port) + Field(a.err);
    FieldLength(a.tunnelId);
    FieldLength(a.publicUrl);
    FieldLength(a.err);
    StartsAtPrefix(m, m);
    StartsAtConcat(m, 0, Field(a.tunnelId), Field(a.publicUrl) + a2);
    StartsAtConcat(m, 2 + t, Field(a.publicUrl), a2);
    StartsAtConcat(m, 4 + t + u, Be16(a.port), Field(a.err));
  }

  const ACK_BUFFER: nat := 1024

  lemma BehindType(t: byte, b: bytes, m: bytes, n: nat)
    requires 1 <= n <= 1 + |m| && [t] + b == ([t] + m)[..n]
    ensures b == m[..n - 1]
  {
    assert |b| == n - 1;
    forall i | 0 <= i < |b| ensures b[i] == m[i] {
      assert b[i] == ([t] + b)[i + 1] == ([t] + m)[i + 1];
    }
  }

  /** The client reads an ack into 1024 bytes at once: a longer one that fills them makes it panic. */
  lemma LongAckPanics(a: Ack, b: bytes)
    requires |a.tunnelId| < 65536 && |a.publicUrl| < 65536 && |a.err| < 65536
    requires 1 + |AckPayload(a)| > ACK_BUFFER
    requires [MSG_REGISTER_ACK] + b == ([MSG_REGISTER_ACK] + AckPayload(a))[..ACK_BUFFER]
    ensures ParseAck(b, |b|) == Panic
  {
    BehindType(MSG_REGISTER_ACK, b, AckPayload(a), ACK_BUFFER);
    assert b[..|b|] == b;
    AckInParts(a);
    hide AckPayload, ParseAck, StartsAt;
    TruncatedAck(a, b, |b|);
  }

  /** A message that has arrived in full has its last field in the buffer. */
  lemma LastFieldArrived(b: bytes, m: bytes, at: nat, f: bytes)
    requires |m| <= |b| && b[..|m|] == m && at >= 2 && StartsAt(m, at - 2, Field(f))
    ensures StartsAt(b, at, f)
  {
    StartsAtConcat(m, at - 2, Be16(|f|), f);
    hide Field, Be16;
    SliceOfPrefix(b, |m|, at, at + |f|);
  }

  /**
   An ack of which `len` bytes arrived reads back if and only if its fields fit,
   its last length prefix has arrived, and the error stands in the buffer, which
   it does if all of the ack has arrived.
   */
  lemma AckRoundTripIff(a: Ack, b: bytes, len: nat)
    requires len <= |b| && len <= |AckPayload(a)| && b[..len] == AckPayload(a)[..len]
    ensures var at := 8 + |a.tunnelId| + |a.publicUrl|;
            && (ParseAck(b, len) == Read(a.tunnelId, a.publicUrl, a.err) <==>
                  && |a.tunnelId| < 65536 && |a.publicUrl| < 65536 && |a.err| < 65536
                  && at <= len && StartsAt(b, at, a.err))
            && (len == |AckPayload(a)| ==> at <= len && StartsAt(b, at, a.err))
  {
    var at, m := 8 + |a.tunnelId| + |a.publicUrl|, AckPayload(a);
    AckInParts(a);
    hide ParseAck, AckPayload, Field;
    if |a.tunnelId| < 65536 && |a.publicUrl| < 65536 && |a.err| < 65536 {
      TruncatedAck(a, b, len);
    } else {
      ParseAckIff(b, len, a.tunnelId, a.publicUrl, a.err);
    }
    if len == |m| {
      assert m[..len] == m;
      LastFieldArrived(b, m, at, a.err);
    }
  }

  function NewConnPayload(connId: bytes, remoteAddr: bytes): bytes {
    Field(connId) + Field(remoteAddr)
  }

  /** A new-connection message of which `len` bytes arrived: the same as for an ack. */
  lemma TruncatedNewConn(connId: bytes, remoteAddr: bytes, b: bytes, len: nat)
    requires |connId| < 65536 && |remoteAddr| < 65536
    requires len <= |b| && len <= |NewConnPayload(connId, remoteAddr)|
    requires b[..len] == NewConnPayload(connId, remoteAddr)[..len]
    ensures var at := 4 + |connId|;
            ParseNewConn(b, len) == if at <= len && at + |remoteAddr| <= |b|
                                    then Some((connId, b[at..at + |remoteAddr|])) else None
  {
    var m := NewConnPayload(connId, remoteAddr);
    StartsAtPrefix(m, m);
    FieldLength(connId);
    StartsAtConcat(m, 0, Field(connId), Field(remoteAddr));
    hide U16, Field, UncheckedField, StartsAt, NewConnPayload;
    if 2 <= len {
      ReceivedPrefix(b, len, m, 0, connId);
      if 4 + |connId| <= len {
        ReceivedPrefix(b, len, m, 2 + |connId|, remoteAddr);
      }
    }
    ShortIsNone(b, len, 0);
    ShortIsNone(b, len, 2 + |connId|);
  }

  /** The same for a new-connection message and its address. */
  lemma NewConnRoundTripIff(connId: bytes, remoteAddr: bytes, b: bytes, len: nat)
    requires len <= |b| && len <= |NewConnPayload(connId, remoteAddr)|
    requires b[..len] == NewConnPayload(connId, remoteAddr)[..len]
    ensures var at := 4 + |connId|;
            && (ParseNewConn(b, len) == Some((connId, remoteAddr)) <==>
                  |connId| < 65536 && |remoteAddr| < 65536 && at <= len && StartsAt(b, at, remoteAddr))
            && (len == |NewConnPayload(connId, remoteAddr)| ==> at <= len && StartsAt(b, at, remoteAddr))
  {
    var at, m := 4 + |connId|, NewConnPayload(connId, remoteAddr);
    FieldLength(connId);
    FieldLength(remoteAddr);
    StartsAtPrefix(m, m);
    StartsAtConcat(m, 0, Field(connId), Field(remoteAddr));
    assert |m| == at + |remoteAddr|;
    ParseNewConnIff(b, len, connId, remoteAddr);
    hide ParseNewConn, NewConnPayload, Field;
    if |connId| < 65536 && |remoteAddr| < 65536 {
      TruncatedNewConn(connId, remoteAddr, b, len);
    }
    if len == |m| {
      assert m[..len] == m;
      LastFieldArrived(b, m, at, remoteAddr);
    }
  }

  // ---- the bytes on the wire, message type included ----

  lemma RegisterOnTheWire()
    ensures [MSG_REGISTER] + RegisterPayload(Register([116], 3, [108, 97], [100], [120, 121, 122])) ==
            [1, 0, 1, 116, 3, 0, 2, 108, 97, 0, 1, 100, 0, 3, 120, 121, 122]
  {
  }

  lemma RestoreOnTheWire()
    ensures [MSG_SESSION_RESTORE] + RestorePayload(Restore([116], 3, [108, 97], 0x0102)) ==
            [11, 0, 1, 116, 3, 0, 2, 108, 97, 0, 0, 0, 0, 0, 0, 1, 2]
  {
  }

  lemma AckOnTheWire()
    ensures [MSG_REGISTER_ACK] + AckPayload(Ack([116], [117, 114], 0x1F90, [101])) ==
            [2, 0, 1, 116, 0, 2, 117, 114, 0x1F, 0x90, 0, 1, 101]
  {
  }

  lemma NewConnOnTheWire()
    ensures [MSG_NEW_CONN] + NewConnPayload([99], [114, 97]) == [5, 0, 1, 99, 0, 2, 114, 97]
  {
  }

  /** An ack carries the port, as a 16-bit number, behind the public URL. */
  lemma AckCarriesPort(a: Ack)
    ensures var at := 4 + |a.tunnelId| + |a.publicUrl|;
            at + 2 <= |AckPayload(a)| && U16(AckPayload(a), at) == a.port % 65536
  {
    var m, at := AckPayload(a), 4 + |a.tunnelId| + |a.publicUrl|;
    FieldLength(a.tunnelId);
    FieldLength(a.publicUrl);
    var front := Field(a.tunnelId) + Field(a.publicUrl);
    hide Field;
    assert m == front + Be16(a.port) + Field(a.err) by {
      ConcatAssoc(Field(a.tunnelId), Field(a.publicUrl), Be16(a.port) + Field(a.err));
      ConcatAssoc(front, Be16(a.port), Field(a.err));
    }
    assert m[at] == Be16(a.port)[0] && m[at + 1] == Be16(a.port)[1];
  }
}
