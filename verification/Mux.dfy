/**
 Multiplexing end to end: forwarders turn local byte streams into frames on one
 shared connection, and the peer's connection manager hands the frames out
 again. Frames are the real bytes of either codec.
 */
module Mux {
  import opened Bytes
  import opened Prelude
  import opened TextCodec
  import BinaryCodec

  datatype Codec = Text(delimiter: byte) | Binary

  /** The forwarder's read buffer. */
  const CHUNK: nat := 32768

  function Code(t: MessageType): byte {
    match t
    case Data => 0
    case Close => 1
    case Request => 2
    case Response => 3
    case Handshake => 4
    case NewConn => 5
  }

  function FromCode(n: int): Option<MessageType> {
    match n
    case 0 => Some(Data)
    case 1 => Some(Close)
    case 2 => Some(Request)
    case 3 => Some(Response)
    case 4 => Some(Handshake)
    case 5 => Some(NewConn)
    case _ => None
  }

  function EncodeFrame(c: Codec, m: Message): bytes {
    match c
    case Text(delimiter) => Frame(m, delimiter)
    case Binary => BinaryCodec.Wire(BinaryCodec.Packet(Code(m.typ), m.id, m.payload))
  }

  function DecodeFrame(c: Codec, data: bytes): Option<Message> {
    match c
    case Text(delimiter) => (
      match TextCodec.Decode(data, delimiter)
      case Decoded(m) => Some(m)
      case _ => None)
    case Binary => (
      match BinaryCodec.Decode(data)
      case None => None
      case Some(p) => (
        match FromCode(p.typ)
        case None => None
        case Some(t) => Some(Message(t, p.id, p.payload))))
  }

  /** Identifiers whose frames every encoder buffer can hold and every decoder reads back. */
  predicate GoodId(c: Codec, id: bytes) {
    match c
    case Text(_) => COLON !in id && |id| + 7 <= 65536
    case Binary => |id| + 7 + CHUNK <= BinaryCodec.POOL_SIZE
  }

  lemma FrameRoundTrip(c: Codec, m: Message)
    requires GoodId(c, m.id) && Encodable(m) && |m.payload| <= CHUNK
    ensures DecodeFrame(c, EncodeFrame(c, m)) == Some(m)
  {
    match c
    case Text(delimiter) =>
      TextRoundTrip(m, delimiter);
    case Binary =>
      var p := BinaryCodec.Packet(Code(m.typ), m.id, m.payload);
      BinaryCodec.BinaryRoundTrip(p, []);
      assert BinaryCodec.Wire(p) + [] == BinaryCodec.Wire(p);
  }

  // ---- the forwarder ----

  datatype ReadError = NoError | Eof | Failed

  /** One turn of the forwarding loop: cancellation, a backpressure yield, or a Read result. */
  datatype Turn = Cancelled | Yielded | Read(data: bytes, err: ReadError)

  predicate Stops(t: Turn) {
    t.Cancelled? || (t.Read? && !t.err.NoError?)
  }

  /** Everything the local connection produced up to the turn the forwarder stopped at. */
  function Produced(script: seq<Turn>): bytes {
    if script == [] then []
    else (if script[0].Read? then script[0].data else [])
         + (if Stops(script[0]) then [] else Produced(script[1..]))
  }

  /** The chunks that are framed: bytes returned together with an error are dropped. */
  function Chunks(script: seq<Turn>): seq<bytes> {
    if script == [] || Stops(script[0]) then []
    else if script[0].Yielded? || script[0].data == [] then Chunks(script[1..])
    else [script[0].data] + Chunks(script[1..])
  }

  predicate EndsAtEof(script: seq<Turn>) {
    script != [] && if Stops(script[0]) then script[0].Read? && script[0].err.Eof? else EndsAtEof(script[1..])
  }

  /** The bytes of the read the forwarder stopped at. */
  function Dropped(script: seq<Turn>): bytes {
    if script == [] then []
    else if !Stops(script[0]) then Dropped(script[1..])
    else if script[0].Read? then script[0].data
    else []
  }

  function Flatten(chunks: seq<bytes>): bytes {
    if chunks == [] then [] else chunks[0] + Flatten(chunks[1..])
  }

  /** The stream that crosses the tunnel. */
  function Stream(script: seq<Turn>): bytes {
    Flatten(Chunks(script))
  }

  lemma {:induction false} StreamAndDropped(script: seq<Turn>)
    ensures Produced(script) == Stream(script) + Dropped(script)
  {
    if script != [] && !Stops(script[0]) {
      var rest := script[1..];
      StreamAndDropped(rest);
      var data := if script[0].Read? then script[0].data else [];
      assert Produced(script) == data + Produced(rest);
      StreamCons(script, data);
      hide Produced, Stream;
      ConcatAssoc(data, Stream(rest), Dropped(rest));
    }
  }

  lemma StreamCons(script: seq<Turn>, data: bytes)
    requires script != [] && !Stops(script[0]) && data == if script[0].Read? then script[0].data else []
    ensures Stream(script) == data + Stream(script[1..])
  {
    if data != [] {
      assert Chunks(script)[1..] == Chunks(script[1..]);
    }
  }

  /** Nothing is lost exactly when data and the final error arrive in separate reads. */
  lemma StreamIsEverythingIff(script: seq<Turn>)
    ensures Stream(script) <= Produced(script)
    ensures Stream(script) == Produced(script) <==> Dropped(script) == []
  {
    StreamAndDropped(script);
  }

  function DataFrames(c: Codec, id: bytes, chunks: seq<bytes>): (fs: seq<bytes>)
    ensures |fs| == |chunks|
    ensures forall i :: 0 <= i < |chunks| ==> fs[i] == EncodeFrame(c, Message(Data, id, chunks[i]))
  {
    if chunks == [] then []
    else [EncodeFrame(c, Message(Data, id, chunks[0]))] + DataFrames(c, id, chunks[1..])
  }

  function CloseFrame(c: Codec, id: bytes): bytes {
    EncodeFrame(c, Message(Close, id, []))
  }

  /** What a forwarder sends: one DATA frame per chunk, and one CLOSE frame if it stopped at end of file. */
  function Sent(c: Codec, id: bytes, script: seq<Turn>): seq<bytes> {
    DataFrames(c, id, Chunks(script)) + if EndsAtEof(script) then [CloseFrame(c, id)] else []
  }

  lemma SentUnroll(c: Codec, id: bytes, script: seq<Turn>)
    requires script != []
    ensures var turn, rest := script[0], Sent(c, id, script[1..]);
            Sent(c, id, script) ==
            if Stops(turn) then (if turn.Read? && turn.err.Eof? then [CloseFrame(c, id)] else [])
            else if turn.Yielded? || turn.data == [] then rest
            else [EncodeFrame(c, Message(Data, id, turn.data))] + rest
  {
    var turn := script[0];
    if !Stops(turn) && turn.Read? && turn.data != [] {
      assert Chunks(script)[1..] == Chunks(script[1..]);
    }
  }

  lemma FramesAssoc(a: seq<bytes>, f: bytes, rest: seq<bytes>)
    ensures a + ([f] + rest) == (a + [f]) + rest && a + [] == a
  {
  }

  /** ForwardMux over a script of loop turns; the frames written, in order. */
  method ForwardMux(c: Codec, id: bytes, script: seq<Turn>) returns (frames: seq<bytes>)
    ensures frames == Sent(c, id, script)
  {
    frames := [];
    var i := 0;
    ghost var rest := Sent(c, id, script);
    assert script[0..] == script;
    while i < |script|
      invariant 0 <= i <= |script|
      invariant rest == Sent(c, id, script[i..]) && Sent(c, id, script) == frames + rest
    {
      hide Sent, EncodeFrame, CloseFrame;
      var turn := script[i];
      SentUnroll(c, id, script[i..]);
      assert script[i..][1..] == script[i + 1..] && script[i..][0] == turn;
      FramesAssoc(frames, CloseFrame(c, id), []);
      if turn.Cancelled? {
        return;
      }
      if turn.Read? {
        if !turn.err.NoError? {
          if turn.err.Eof? {
            var closeFrame := CloseFrame(c, id);
            frames := frames + [closeFrame];
          }
          return;
        }
        if turn.data != [] {
          var frame := EncodeFrame(c, Message(Data, id, turn.data));
          FramesAssoc(frames, frame, Sent(c, id, script[i + 1..]));
          frames := frames + [frame];
        }
      }
      i := i + 1;
      rest := Sent(c, id, script[i..]);
    }
    assert script[i..] == [];
  }

  // ---- the peer's connection manager ----

  /** Registered connections with the bytes written to them, and removed ones with what they had received. */
  datatype Peer = Peer(open: map<bytes, bytes>, gone: map<bytes, bytes>)

  function RemoveConnection(p: Peer, id: bytes): Peer {
    if id in p.open then Peer(p.open - {id}, p.gone[id := p.open[id]]) else p
  }

  function WriteTo(p: Peer, id: bytes, payload: bytes): Peer {
    if id in p.open then p.(open := p.open[id := p.open[id] + payload]) else p
  }

  function HandleMessage(p: Peer, m: Message): Peer {
    match m.typ
    case Data => WriteTo(p, m.id, m.payload)
    case Response => WriteTo(p, m.id, m.payload)
    case Close => RemoveConnection(p, m.id)
    case _ => p
  }

  /** HandleIncoming; a paused manager drops the frame. */
  function HandleIncoming(c: Codec, p: Peer, frame: bytes, paused: bool): Peer {
    if paused then p
    else
      match DecodeFrame(c, frame)
      case None => p
      case Some(m) => HandleMessage(p, m)
  }

  /**
   What a frame does when it arrives. Only the connection it names is touched:
   if that is registered, data is appended to what it has received and a close
   freezes that; what was removed before stays removed, as it was.
   */
  lemma IncomingDelivers(c: Codec, p: Peer, m: Message, id: bytes)
    requires GoodId(c, m.id) && Encodable(m) && |m.payload| <= CHUNK
    ensures var r := HandleIncoming(c, p, EncodeFrame(c, m), false);
            var data := m.typ.Data? || m.typ.Response?;
            && (id in p.open && id != m.id ==> id in r.open && r.open[id] == p.open[id])
            && (m.id in p.open && data ==> m.id in r.open && r.open[m.id] == p.open[m.id] + m.payload)
            && (m.id in p.open && m.typ.Close? ==> m.id !in r.open && m.id in r.gone && r.gone[m.id] == p.open[m.id])
            && (m.id in p.open && !data && !m.typ.Close? ==> r == p)
            && (m.id !in p.open ==> r == p)
  {
    FrameRoundTrip(c, m);
    hide DecodeFrame, EncodeFrame;
  }

  /** On arbitrary bytes: no frame opens a connection or changes one that was removed. */
  lemma IncomingKeepsRemoved(c: Codec, p: Peer, frame: bytes, paused: bool, id: bytes)
    requires id !in p.open
    ensures var r := HandleIncoming(c, p, frame, paused);
            id !in r.open && (id in p.gone ==> id in r.gone && r.gone[id] == p.gone[id])
    ensures paused ==> HandleIncoming(c, p, frame, paused) == p
  {
    hide DecodeFrame;
  }

  // ---- the protocol, over every interleaving ----

  /** Each connection's forwarder and the script it will run through. */
  type Plan = map<bytes, seq<Turn>>

  predicate GoodPlan(c: Codec, plan: Plan) {
    forall id :: id in plan ==>
      && GoodId(c, id)
      && forall i :: 0 <= i < |plan[id]| && plan[id][i].Read? ==> |plan[id][i].data| <= CHUNK
  }

  /** The frames each forwarder writes, in order. */
  type Frames = map<bytes, seq<bytes>>

  function FramesOf(c: Codec, plan: Plan): Frames {
    map id | id in plan :: Sent(c, id, plan[id])
  }

  /**
   `wire` is the shared connection, one entry per whole-frame write; `from[k]`
   is the identifier of the forwarder that wrote wire[k]. `closed` holds the
   connections removed by a CLOSE frame.
   */
  datatype State = State(from: seq<bytes>, wire: seq<bytes>, handled: nat, peer: Peer, closed: set<bytes>)

  /** How many of the first k frames the forwarder of `id` wrote. */
  function CountOf(from: seq<bytes>, k: nat, id: bytes): nat
    requires k <= |from|
  {
    if k == 0 then 0 else CountOf(from, k - 1, id) + if from[k - 1] == id then 1 else 0
  }

  ghost predicate Init(s: State) {
    s.from == [] && s.wire == [] && s.handled == 0 && s.peer == Peer(map[], map[]) && s.closed == {}
  }

  datatype Action = Emit(id: bytes) | Handle | Register(id: bytes) | Remove(id: bytes)

  /** One atomic step of the whole system. */
  ghost predicate Step(c: Codec, f: Frames, s: State, a: Action, t: State)
    requires |s.from| == |s.wire|
  {
    match a
    case Emit(id) =>
      && id in f
      && CountOf(s.from, |s.from|, id) < |f[id]|
      && t == s.(from := s.from + [id], wire := s.wire + [f[id][CountOf(s.from, |s.from|, id)]])
    case Handle =>
      && s.handled < |s.wire|
      && var peer := HandleIncoming(c, s.peer, s.wire[s.handled], false);
         t == s.(handled := s.handled + 1, peer := peer,
                 closed := s.closed + (s.peer.open.Keys - peer.open.Keys))
    case Register(id) =>
      // identifiers are fresh: a connection is registered before its first frame is handled
      && id in f && id !in s.peer.open && id !in s.peer.gone
      && s.handled <= |s.from| && CountOf(s.from, s.handled, id) == 0
      && t == s.(peer := s.peer.(open := s.peer.open[id := []]))
    case Remove(id) =>
      t == s.(peer := RemoveConnection(s.peer, id))
  }

  /** A connection has received exactly the chunks of the first n frames of its own forwarder. */
  ghost predicate ReceivedExactly(script: seq<Turn>, n: nat, got: bytes) {
    n <= |Chunks(script)| && got == Flatten(Chunks(script)[..n])
  }

  /** The wire carries each forwarder's frames in its own order. */
  ghost predicate WireInv(f: Frames, s: State) {
    && |s.from| == |s.wire| && s.handled <= |s.wire|
    && forall k :: 0 <= k < |s.wire| ==> FromOwner(f, s, k)
  }

  ghost predicate OpenInv(plan: Plan, s: State)
    requires s.handled <= |s.from|
  {
    forall id :: id in s.peer.open ==>
      id in plan && ReceivedExactly(plan[id], CountOf(s.from, s.handled, id), s.peer.open[id])
  }

  ghost predicate GoneInv(plan: Plan, s: State) {
    && s.peer.open.Keys !! s.peer.gone.Keys
    && s.closed <= s.peer.gone.Keys
    && (forall id :: id in s.peer.gone ==> id in plan && s.peer.gone[id] <= Stream(plan[id]))
    && (forall id :: id in s.closed ==> EndsAtEof(plan[id]) && s.peer.gone[id] == Stream(plan[id]))
  }

  ghost predicate Inv(f: Frames, plan: Plan, s: State) {
    f.Keys == plan.Keys && WireInv(f, s) && OpenInv(plan, s) && GoneInv(plan, s)
  }

  lemma WireKept(f: Frames, s: State, t: State)
    requires WireInv(f, s) && t.from == s.from && t.wire == s.wire && t.handled <= |t.wire|
    ensures WireInv(f, t)
  {
    forall k | 0 <= k < |t.wire| ensures FromOwner(f, t, k) {
      assert FromOwner(f, s, k);
    }
  }

  /** Frame k of the wire is the next frame of the forwarder it is attributed to. */
  ghost predicate FromOwner(f: Frames, s: State, k: nat)
    requires k < |s.wire| == |s.from|
  {
    var id := s.from[k];
    && id in f
    && CountOf(s.from, k, id) < |f[id]|
    && s.wire[k] == f[id][CountOf(s.from, k, id)]
  }

  lemma {:induction false} CountOfPrefix(from: seq<bytes>, extra: bytes, k: nat, id: bytes)
    requires k <= |from|
    ensures CountOf(from + [extra], k, id) == CountOf(from, k, id)
  {
    if k > 0 {
      CountOfPrefix(from, extra, k - 1, id);
    }
  }

  lemma {:induction false} FlattenSnoc(chunks: seq<bytes>, n: nat)
    requires n < |chunks|
    ensures Flatten(chunks[..n + 1]) == Flatten(chunks[..n]) + chunks[n]
  {
    if n == 0 {
      assert chunks[..1] == [chunks[0]] && chunks[..0] == [];
      assert chunks[..1][1..] == chunks[..0];
    } else {
      FlattenSnoc(chunks[1..], n - 1);
      assert chunks[..n + 1][1..] == chunks[1..][..n];
      assert chunks[..n][1..] == chunks[1..][..n - 1];
    }
  }

  lemma {:induction false} FlattenPrefix(chunks: seq<bytes>, n: nat)
    requires n <= |chunks|
    ensures Flatten(chunks[..n]) <= Flatten(chunks)
    decreases |chunks| - n
  {
    if n == |chunks| {
      assert chunks[..n] == chunks;
    } else {
      FlattenSnoc(chunks, n);
      FlattenPrefix(chunks, n + 1);
    }
  }

  lemma {:induction false} ChunksAreSmall(script: seq<Turn>)
    requires forall i :: 0 <= i < |script| && script[i].Read? ==> |script[i].data| <= CHUNK
    ensures forall i :: 0 <= i < |Chunks(script)| ==> |Chunks(script)[i]| <= CHUNK
  {
    if script != [] && !Stops(script[0]) {
      ChunksAreSmall(script[1..]);
    }
  }

  /** The frame a forwarder writes n-th decodes to its n-th chunk, or to its CLOSE after the last. */
  lemma SentDecodes(c: Codec, id: bytes, script: seq<Turn>, n: nat)
    requires GoodPlan(c, map[id := script])
    requires n < |Sent(c, id, script)|
    ensures n <= |Chunks(script)|
    ensures n < |Chunks(script)| ==>
              DecodeFrame(c, Sent(c, id, script)[n]) == Some(Message(Data, id, Chunks(script)[n]))
    ensures n == |Chunks(script)| ==>
              EndsAtEof(script) && DecodeFrame(c, Sent(c, id, script)[n]) == Some(Message(Close, id, []))
  {
    assert id in map[id := script] && map[id := script][id] == script;
    ChunksAreSmall(script);
    if n < |Chunks(script)| {
      FrameRoundTrip(c, Message(Data, id, Chunks(script)[n]));
    } else {
      FrameRoundTrip(c, Message(Close, id, []));
    }
  }

  lemma EmitWire(f: Frames, s: State, id: bytes, t: State)
    requires WireInv(f, s) && id in f && CountOf(s.from, |s.from|, id) < |f[id]|
    requires t == s.(from := s.from + [id], wire := s.wire + [f[id][CountOf(s.from, |s.from|, id)]])
    ensures WireInv(f, t)
  {
    forall k | 0 <= k < |t.wire| ensures FromOwner(f, t, k) {
      CountOfPrefix(s.from, id, k, t.from[k]);
      if k < |s.wire| {
        assert FromOwner(f, s, k);
      }
    }
  }

  lemma InvEmit(c: Codec, f: Frames, plan: Plan, s: State, id: bytes, t: State)
    requires Inv(f, plan, s) && Step(c, f, s, Emit(id), t)
    ensures Inv(f, plan, t)
  {
    EmitWire(f, s, id, t);
    forall x | x in t.peer.open
      ensures x in plan && ReceivedExactly(plan[x], CountOf(t.from, t.handled, x), t.peer.open[x])
    {
      CountOfPrefix(s.from, id, s.handled, x);
    }
  }

  /** The message the next unhandled frame carries. */
  function NextMessage(plan: Plan, s: State): Message
    requires s.handled < |s.from| && s.from[s.handled] in plan
  {
    var id := s.from[s.handled];
    var n, chunks := CountOf(s.from, s.handled, id), Chunks(plan[id]);
    if n < |chunks| then Message(Data, id, chunks[n]) else Message(Close, id, [])
  }

  lemma NextDecodes(c: Codec, f: Frames, plan: Plan, s: State)
    requires GoodPlan(c, plan) && f == FramesOf(c, plan) && Inv(f, plan, s) && s.handled < |s.wire|
    ensures s.from[s.handled] in plan
    ensures HandleIncoming(c, s.peer, s.wire[s.handled], false) == HandleMessage(s.peer, NextMessage(plan, s))
    ensures var id := s.from[s.handled];
            var n := CountOf(s.from, s.handled, id);
            n <= |Chunks(plan[id])| && (n == |Chunks(plan[id])| ==> EndsAtEof(plan[id]))
  {
    assert FromOwner(f, s, s.handled);
    var id := s.from[s.handled];
    SentDecodes(c, id, plan[id], CountOf(s.from, s.handled, id));
  }

  lemma DataOpen(plan: Plan, s: State, t: State, id: bytes, n: nat)
    requires s.handled < |s.from| && id == s.from[s.handled] && id in plan && OpenInv(plan, s)
    requires n == CountOf(s.from, s.handled, id) < |Chunks(plan[id])|
    requires t.from == s.from && t.handled == s.handled + 1
    requires t.peer == WriteTo(s.peer, id, Chunks(plan[id])[n])
    ensures OpenInv(plan, t)
  {
    FlattenSnoc(Chunks(plan[id]), n);
    hide Chunks, Flatten;
  }

  lemma InvData(f: Frames, plan: Plan, s: State, t: State, id: bytes, n: nat)
    requires Inv(f, plan, s) && s.handled < |s.wire| && id == s.from[s.handled] && id in plan
    requires n == CountOf(s.from, s.handled, id) < |Chunks(plan[id])|
    requires t == s.(handled := s.handled + 1, peer := WriteTo(s.peer, id, Chunks(plan[id])[n]))
    ensures Inv(f, plan, t)
  {
    WireKept(f, s, t);
    DataOpen(plan, s, t, id, n);
    hide WireInv, OpenInv, Chunks, Stream, EndsAtEof;
    assert t.peer.open.Keys == s.peer.open.Keys && t.peer.gone == s.peer.gone;
  }

  lemma CloseOpen(f: Frames, plan: Plan, s: State, t: State, id: bytes)
    requires s.handled < |s.from| && id == s.from[s.handled] && OpenInv(plan, s)
    requires t.from == s.from && t.handled == s.handled + 1 && t.peer == RemoveConnection(s.peer, id)
    ensures OpenInv(plan, t)
  {
    forall x | x in t.peer.open
      ensures x in plan && ReceivedExactly(plan[x], CountOf(t.from, t.handled, x), t.peer.open[x])
    {
      assert x != id && x in s.peer.open;
    }
  }

  lemma CloseGone(plan: Plan, s: State, t: State, id: bytes)
    requires GoneInv(plan, s) && id in plan && EndsAtEof(plan[id])
    requires id in s.peer.open ==> s.peer.open[id] == Stream(plan[id])
    requires t.peer == RemoveConnection(s.peer, id)
    requires t.closed == s.closed + if id in s.peer.open then {id} else {}
    ensures GoneInv(plan, t)
  {
    if id in s.peer.open {
      assert t.peer.gone == s.peer.gone[id := Stream(plan[id])];
    }
  }

  lemma InvClose(f: Frames, plan: Plan, s: State, t: State, id: bytes)
    requires Inv(f, plan, s) && s.handled < |s.wire| && id == s.from[s.handled] && id in plan
    requires CountOf(s.from, s.handled, id) == |Chunks(plan[id])| && EndsAtEof(plan[id])
    requires t == s.(handled := s.handled + 1, peer := RemoveConnection(s.peer, id),
                     closed := s.closed + if id in s.peer.open then {id} else {})
    ensures Inv(f, plan, t)
  {
    WireKept(f, s, t);
    var chunks := Chunks(plan[id]);
    assert chunks[..|chunks|] == chunks;
    assert id in s.peer.open ==> s.peer.open[id] == Stream(plan[id]);
    CloseOpen(f, plan, s, t, id);
    CloseGone(plan, s, t, id);
    hide WireInv, OpenInv, GoneInv;
  }

  lemma InvHandle(c: Codec, f: Frames, plan: Plan, s: State, t: State)
    requires GoodPlan(c, plan) && f == FramesOf(c, plan) && Inv(f, plan, s) && Step(c, f, s, Handle, t)
    ensures Inv(f, plan, t)
  {
    NextDecodes(c, f, plan, s);
    assert |s.from| == |s.wire| && s.handled < |s.wire|;
    hide HandleIncoming, WireInv, OpenInv, GoneInv, GoodPlan, FramesOf;
    var id := s.from[s.handled];
    var n := CountOf(s.from, s.handled, id);
    var peer := HandleMessage(s.peer, NextMessage(plan, s));
    assert t == s.(handled := s.handled + 1, peer := peer, closed := s.closed + (s.peer.open.Keys - peer.open.Keys));
    if n < |Chunks(plan[id])| {
      assert peer == WriteTo(s.peer, id, Chunks(plan[id])[n]);
      assert s.peer.open.Keys - peer.open.Keys == {};
      hide Chunks;
      InvData(f, plan, s, t, id, n);
    } else {
      assert peer == RemoveConnection(s.peer, id);
      assert s.peer.open.Keys - peer.open.Keys == if id in s.peer.open then {id} else {};
      hide Chunks;
      InvClose(f, plan, s, t, id);
    }
  }

  lemma InvRegister(c: Codec, f: Frames, plan: Plan, s: State, id: bytes, t: State)
    requires Inv(f, plan, s) && Step(c, f, s, Register(id), t)
    ensures Inv(f, plan, t)
  {
    WireKept(f, s, t);
    hide WireInv;
    assert OpenInv(plan, t) by {
      assert Chunks(plan[id])[..0] == [];
    }
    hide OpenInv;
    assert GoneInv(plan, t);
  }

  lemma InvRemove(c: Codec, f: Frames, plan: Plan, s: State, id: bytes, t: State)
    requires Inv(f, plan, s) && Step(c, f, s, Remove(id), t)
    ensures Inv(f, plan, t)
  {
    WireKept(f, s, t);
    hide WireInv;
    assert OpenInv(plan, t);
    if id in s.peer.open {
      FlattenPrefix(Chunks(plan[id]), CountOf(s.from, s.handled, id));
      assert s.peer.open[id] <= Stream(plan[id]);
    }
    hide OpenInv;
    assert GoneInv(plan, t);
  }

  lemma InvStep(c: Codec, f: Frames, plan: Plan, s: State, a: Action, t: State)
    requires GoodPlan(c, plan) && f == FramesOf(c, plan) && Inv(f, plan, s) && Step(c, f, s, a, t)
    ensures Inv(f, plan, t)
  {
    match a
    case Emit(id) => InvEmit(c, f, plan, s, id, t);
    case Handle => InvHandle(c, f, plan, s, t);
    case Register(id) => InvRegister(c, f, plan, s, id, t);
    case Remove(id) => InvRemove(c, f, plan, s, id, t);
  }

  /** A run of the system: states and the actions between them. */
  ghost predicate Run(c: Codec, plan: Plan, states: seq<State>, actions: seq<Action>) {
    && |states| == |actions| + 1
    && Init(states[0])
    && (forall i :: 0 <= i < |states| ==> |states[i].from| == |states[i].wire|)
    && (forall i :: 0 <= i < |actions| ==> Step(c, FramesOf(c, plan), states[i], actions[i], states[i + 1]))
  }

  lemma {:induction false} InvRun(c: Codec, plan: Plan, states: seq<State>, actions: seq<Action>, n: nat)
    requires GoodPlan(c, plan) && Run(c, plan, states, actions) && n < |states|
    ensures Inv(FramesOf(c, plan), plan, states[n])
  {
    if n > 0 {
      InvRun(c, plan, states, actions, n - 1);
      InvStep(c, FramesOf(c, plan), plan, states[n - 1], actions[n - 1], states[n]);
    }
  }

  /**
   Multiplexing then demultiplexing is faithful: at every point of every run,
   each connection holds a prefix of its own stream and of nothing else, and
   all of it once its CLOSE frame has been handled.
   */
  lemma MuxFaithful(c: Codec, plan: Plan, states: seq<State>, actions: seq<Action>, n: nat, id: bytes)
    requires GoodPlan(c, plan) && Run(c, plan, states, actions) && n < |states|
    ensures var s := states[n];
            && (id in s.peer.open ==> id in plan && s.peer.open[id] <= Stream(plan[id]))
            && (id in s.peer.gone ==> id in plan && s.peer.gone[id] <= Stream(plan[id]))
            && (id in s.closed ==> id in s.peer.gone && s.peer.gone[id] == Stream(plan[id]))
  {
    InvRun(c, plan, states, actions, n);
    var s := states[n];
    if id in s.peer.open {
      FlattenPrefix(Chunks(plan[id]), CountOf(s.from, s.handled, id));
    }
  }

  lemma GoneStays(c: Codec, f: Frames, s: State, a: Action, t: State, id: bytes)
    requires |s.from| == |s.wire| && Step(c, f, s, a, t)
    requires id in s.peer.gone && id !in s.peer.open
    ensures id !in t.peer.open && id in t.peer.gone && t.peer.gone[id] == s.peer.gone[id]
  {
    if a.Handle? {
      IncomingKeepsRemoved(c, s.peer, s.wire[s.handled], false, id);
    }
    hide HandleIncoming;
  }

  lemma RunStep(c: Codec, plan: Plan, states: seq<State>, actions: seq<Action>, n: nat)
    requires Run(c, plan, states, actions) && n < |actions|
    ensures n + 1 < |states| && |states[n].from| == |states[n].wire|
    ensures Step(c, FramesOf(c, plan), states[n], actions[n], states[n + 1])
  {
  }

  lemma GoneNotOpen(f: Frames, plan: Plan, s: State, id: bytes)
    requires Inv(f, plan, s) && id in s.peer.gone
    ensures id !in s.peer.open
  {
  }

  /** Once removed, a connection receives nothing more. */
  lemma {:induction false} NothingAfterRemoval(
    c: Codec, plan: Plan, states: seq<State>, actions: seq<Action>, i: nat, n: nat, id: bytes)
    requires GoodPlan(c, plan) && Run(c, plan, states, actions) && i <= n < |states|
    requires id in states[i].peer.gone
    ensures id !in states[n].peer.open
    ensures id in states[n].peer.gone && states[n].peer.gone[id] == states[i].peer.gone[id]
  {
    assert |states| == |actions| + 1;
    hide *;
    if i == n {
      InvRun(c, plan, states, actions, n);
      GoneNotOpen(FramesOf(c, plan), plan, states[n], id);
    } else {
      NothingAfterRemoval(c, plan, states, actions, i, n - 1, id);
      RunStep(c, plan, states, actions, n - 1);
      GoneStays(c, FramesOf(c, plan), states[n - 1], actions[n - 1], states[n], id);
    }
  }

  /** When everything has been sent and handled, a stream that ended is no longer open at the peer. */
  lemma QuiescentMeansClosed(c: Codec, plan: Plan, states: seq<State>, actions: seq<Action>, n: nat, id: bytes)
    requires GoodPlan(c, plan) && Run(c, plan, states, actions) && n < |states|
    requires id in plan && EndsAtEof(plan[id])
    requires states[n].handled == |states[n].wire|
    requires CountOf(states[n].from, |states[n].from|, id) == |Sent(c, id, plan[id])|
    ensures id !in states[n].peer.open
  {
    InvRun(c, plan, states, actions, n);
  }

  /** A registered connection that nobody removes stays open until its CLOSE frame is handled. */
  lemma {:induction false} OpenUntilClosed(
    c: Codec, plan: Plan, states: seq<State>, actions: seq<Action>, i: nat, n: nat, id: bytes)
    requires Run(c, plan, states, actions) && i <= n < |states|
    requires id in states[i].peer.open && forall k :: i <= k < n ==> actions[k] != Remove(id)
    ensures id in states[n].peer.open || id in states[n].closed
  {
    assert |states| == |actions| + 1;
    hide *;
    if i < n {
      OpenUntilClosed(c, plan, states, actions, i, n - 1, id);
      RunStep(c, plan, states, actions, n - 1);
      OpenOrClosedStep(c, FramesOf(c, plan), states[n - 1], actions[n - 1], states[n], id);
    }
  }

  lemma OpenOrClosedStep(c: Codec, f: Frames, s: State, a: Action, t: State, id: bytes)
    requires |s.from| == |s.wire| && Step(c, f, s, a, t) && a != Remove(id)
    requires id in s.peer.open || id in s.closed
    ensures id in t.peer.open || id in t.closed
  {
    hide HandleIncoming;
  }

  /**
   Delivery: once every frame of a stream that ended has been sent and handled,
   a connection that was registered and never removed by its owner has received
   the whole stream and been closed by its CLOSE frame.
   */
  lemma QuiescentMeansDelivered(
    c: Codec, plan: Plan, states: seq<State>, actions: seq<Action>, i: nat, n: nat, id: bytes)
    requires GoodPlan(c, plan) && Run(c, plan, states, actions) && i <= n < |states|
    requires id in states[i].peer.open && forall k :: i <= k < n ==> actions[k] != Remove(id)
    requires id in plan && EndsAtEof(plan[id])
    requires states[n].handled == |states[n].wire|
    requires CountOf(states[n].from, |states[n].from|, id) == |Sent(c, id, plan[id])|
    ensures id !in states[n].peer.open && id in states[n].closed
    ensures id in states[n].peer.gone && states[n].peer.gone[id] == Stream(plan[id])
  {
    OpenUntilClosed(c, plan, states, actions, i, n, id);
    QuiescentMeansClosed(c, plan, states, actions, n, id);
    MuxFaithful(c, plan, states, actions, n, id);
  }

  /** The forwarder ends with a CLOSE frame if and only if the turn it stops at is an end of file. */
  lemma {:induction false} EndsAtEofIff(script: seq<Turn>)
    ensures EndsAtEof(script) <==>
            exists i :: 0 <= i < |script| && script[i].Read? && script[i].err.Eof? &&
                        forall j :: 0 <= j < i ==> script[j].Yielded? || (script[j].Read? && script[j].err.NoError?)
  {
    if script != [] && !Stops(script[0]) {
      var rest := script[1..];
      EndsAtEofIff(rest);
      if i :| 0 <= i < |rest| && rest[i].Read? && rest[i].err.Eof? &&
              forall j :: 0 <= j < i ==> rest[j].Yielded? || (rest[j].Read? && rest[j].err.NoError?) {
        assert script[i + 1] == rest[i];
        assert forall j :: 0 <= j < i + 1 ==> script[j] == if j == 0 then script[0] else rest[j - 1];
      }
      if i :| 0 <= i < |script| && script[i].Read? && script[i].err.Eof? &&
              forall j :: 0 <= j < i ==> script[j].Yielded? || (script[j].Read? && script[j].err.NoError?) {
        assert rest[i - 1] == script[i];
        assert forall j :: 0 <= j < i - 1 ==> rest[j] == script[j + 1];
      }
    }
  }

  /** What registering and removing do: a new connection has received nothing, a removed one keeps what it has. */
  lemma RegisterAndRemove(c: Codec, plan: Plan, states: seq<State>, actions: seq<Action>, n: nat, id: bytes)
    requires Run(c, plan, states, actions) && n < |actions|
    ensures actions[n] == Register(id) ==> states[n + 1].peer.open == states[n].peer.open[id := []]
    ensures actions[n] == Remove(id) && id in states[n].peer.open ==>
              && id !in states[n + 1].peer.open
              && id in states[n + 1].peer.gone && states[n + 1].peer.gone[id] == states[n].peer.open[id]
  {
    RunStep(c, plan, states, actions, n);
  }

  /** Once its owner has removed it, a connection never receives anything more than it had then. */
  lemma NothingAfterRemove(c: Codec, plan: Plan, states: seq<State>, actions: seq<Action>, i: nat, n: nat, id: bytes)
    requires GoodPlan(c, plan) && Run(c, plan, states, actions) && i < n < |states|
    requires actions[i] == Remove(id) && id in states[i].peer.open
    ensures id !in states[n].peer.open
    ensures id in states[n].peer.gone && states[n].peer.gone[id] == states[i].peer.open[id]
  {
    RegisterAndRemove(c, plan, states, actions, i, id);
    NothingAfterRemoval(c, plan, states, actions, i + 1, n, id);
  }

  // ---- delivery does happen ----

  /** One forwarder and its connection, with the first j of its frames sent and handled. */
  function Halfway(c: Codec, id: bytes, script: seq<Turn>, j: nat): State
    requires j <= |Chunks(script)|
  {
    State(seq(j, _ => id), Sent(c, id, script)[..j], j, Peer(map[id := Flatten(Chunks(script)[..j])], map[]), {})
  }

  lemma {:induction false} AllMine(from: seq<bytes>, k: nat, id: bytes)
    requires k <= |from| && forall i :: 0 <= i < |from| ==> from[i] == id
    ensures CountOf(from, k, id) == k
  {
    if k > 0 {
      AllMine(from, k - 1, id);
    }
  }

  /** One more step of a run. */
  lemma Extend(c: Codec, plan: Plan, states: seq<State>, actions: seq<Action>, a: Action, t: State)
    requires Run(c, plan, states, actions) && |t.from| == |t.wire|
    requires |states[|actions|].from| == |states[|actions|].wire|
    requires Step(c, FramesOf(c, plan), states[|actions|], a, t)
    ensures Run(c, plan, states + [t], actions + [a])
  {
    hide Step, Init;
  }

  /** The state between sending frame j and handling it. */
  function InFlight(c: Codec, id: bytes, script: seq<Turn>, j: nat): State
    requires j <= |Chunks(script)| && j < |Sent(c, id, script)|
  {
    var s := Halfway(c, id, script, j);
    s.(from := s.from + [id], wire := s.wire + [Sent(c, id, script)[j]])
  }

  lemma EmitOne(c: Codec, plan: Plan, id: bytes, j: nat)
    requires id in plan && j <= |Chunks(plan[id])| && j < |Sent(c, id, plan[id])|
    ensures var s := Halfway(c, id, plan[id], j);
            |s.from| == |s.wire| && Step(c, FramesOf(c, plan), s, Emit(id), InFlight(c, id, plan[id], j))
  {
    hide Sent, Flatten;
    AllMine(Halfway(c, id, plan[id], j).from, j, id);
  }

  lemma SameId(id: bytes, j: nat)
    ensures seq(j + 1, _ => id) == seq(j, _ => id) + [id]
  {
  }

  lemma TakeSnoc<T>(s: seq<T>, j: nat)
    requires j < |s|
    ensures s[..j + 1] == s[..j] + [s[j]]
  {
  }

  lemma NextPeer(id: bytes, got: bytes, chunk: bytes)
    ensures WriteTo(Peer(map[id := got], map[]), id, chunk) == Peer(map[id := got + chunk], map[])
  {
    assert map[id := got][id := got + chunk] == map[id := got + chunk];
  }

  lemma NextChunk(c: Codec, id: bytes, script: seq<Turn>, j: nat)
    requires j < |Chunks(script)| && j < |Sent(c, id, script)|
    ensures var t := Halfway(c, id, script, j + 1);
            && InFlight(c, id, script, j).from == t.from && InFlight(c, id, script, j).wire == t.wire
            && t.peer == WriteTo(Halfway(c, id, script, j).peer, id, Chunks(script)[j])
  {
    FlattenSnoc(Chunks(script), j);
    hide Sent, Chunks, Flatten, WriteTo;
    SameId(id, j);
    TakeSnoc(Sent(c, id, script), j);
    NextPeer(id, Flatten(Chunks(script)[..j]), Chunks(script)[j]);
  }

  lemma HandleOne(c: Codec, plan: Plan, id: bytes, j: nat)
    requires GoodPlan(c, plan) && id in plan && j < |Chunks(plan[id])| && j < |Sent(c, id, plan[id])|
    ensures var s := InFlight(c, id, plan[id], j);
            |s.from| == |s.wire| && Step(c, FramesOf(c, plan), s, Handle, Halfway(c, id, plan[id], j + 1))
  {
    var script := plan[id];
    SentDecodes(c, id, script, j);
    NextChunk(c, id, script, j);
    hide Sent, DecodeFrame, Chunks, Flatten, EndsAtEof;
    var s := InFlight(c, id, script, j);
    assert s.wire[j] == Sent(c, id, script)[j];
    assert HandleIncoming(c, s.peer, s.wire[j], false) == WriteTo(s.peer, id, Chunks(script)[j]);
  }

  lemma {:induction false} SendChunks(c: Codec, plan: Plan, id: bytes, j: nat)
    returns (states: seq<State>, actions: seq<Action>)
    requires GoodPlan(c, plan) && id in plan && j <= |Chunks(plan[id])|
    ensures Run(c, plan, states, actions) && states[|actions|] == Halfway(c, id, plan[id], j)
  {
    if j == 0 {
      var s0 := State([], [], 0, Peer(map[], map[]), {});
      var s1 := Halfway(c, id, plan[id], 0);
      assert Chunks(plan[id])[..0] == [];
      states, actions := [s0], [];
      Extend(c, plan, states, actions, Register(id), s1);
      states, actions := states + [s1], actions + [Register(id)];
    } else {
      states, actions := SendChunks(c, plan, id, j - 1);
      EmitOne(c, plan, id, j - 1);
      HandleOne(c, plan, id, j - 1);
      var middle, t := InFlight(c, id, plan[id], j - 1), Halfway(c, id, plan[id], j);
      hide Run, Step, Halfway, InFlight;
      Extend(c, plan, states, actions, Emit(id), middle);
      states, actions := states + [middle], actions + [Emit(id)];
      Extend(c, plan, states, actions, Handle, t);
      states, actions := states + [t], actions + [Handle];
    }
  }

  /** The state after the CLOSE frame has been handled too. */
  function Finished(c: Codec, id: bytes, script: seq<Turn>): State
    requires EndsAtEof(script)
  {
    var n := |Chunks(script)|;
    State(seq(n + 1, _ => id), Sent(c, id, script), n + 1, Peer(map[], map[id := Stream(script)]), {id})
  }

  lemma HandleClose(c: Codec, plan: Plan, id: bytes)
    requires GoodPlan(c, plan) && id in plan && EndsAtEof(plan[id])
    ensures var n := |Chunks(plan[id])|;
            && n < |Sent(c, id, plan[id])|
            && |InFlight(c, id, plan[id], n).from| == |InFlight(c, id, plan[id], n).wire|
            && Step(c, FramesOf(c, plan), InFlight(c, id, plan[id], n), Handle, Finished(c, id, plan[id]))
  {
    var script := plan[id];
    var n := |Chunks(script)|;
    SentDecodes(c, id, script, n);
    assert Chunks(script)[..n] == Chunks(script);
    assert |Sent(c, id, script)| == n + 1;
    hide Sent, DecodeFrame, Chunks, Flatten, EndsAtEof;
    var s, t := InFlight(c, id, script, n), Finished(c, id, script);
    assert s.wire[n] == Sent(c, id, script)[n];
    assert s.wire == t.wire && s.from == t.from;
    var peer := RemoveConnection(s.peer, id);
    assert HandleIncoming(c, s.peer, s.wire[n], false) == peer;
    assert peer.open == map[] && s.peer.open.Keys - peer.open.Keys == {id};
  }

  /** For every plan and every stream of it that ends, some run delivers the whole of it and closes the connection. */
  lemma StreamDelivered(c: Codec, plan: Plan, id: bytes) returns (states: seq<State>, actions: seq<Action>)
    requires GoodPlan(c, plan) && id in plan && EndsAtEof(plan[id])
    ensures Run(c, plan, states, actions)
    ensures var s := states[|actions|];
            && s.closed == {id} && id in s.peer.gone && s.peer.gone[id] == Stream(plan[id])
            && s.handled == |s.wire| == |Sent(c, id, plan[id])|
  {
    var n := |Chunks(plan[id])|;
    states, actions := SendChunks(c, plan, id, n);
    HandleClose(c, plan, id);
    EmitOne(c, plan, id, n);
    var middle, t := InFlight(c, id, plan[id], n), Finished(c, id, plan[id]);
    assert |t.from| == |t.wire|;
    hide Run, Step, Halfway, InFlight, Sent;
    Extend(c, plan, states, actions, Emit(id), middle);
    states, actions := states + [middle], actions + [Emit(id)];
    Extend(c, plan, states, actions, Handle, t);
    states, actions := states + [t], actions + [Handle];
  }

  /** The type byte of a binary frame. */
  lemma TypeBytes(id: bytes, payload: bytes)
    ensures EncodeFrame(Binary, Message(Data, id, payload))[0] == 0
    ensures EncodeFrame(Binary, Message(Close, id, payload))[0] == 1
    ensures EncodeFrame(Binary, Message(Request, id, payload))[0] == 2
    ensures EncodeFrame(Binary, Message(Response, id, payload))[0] == 3
    ensures EncodeFrame(Binary, Message(Handshake, id, payload))[0] == 4
    ensures EncodeFrame(Binary, Message(NewConn, id, payload))[0] == 5
  {
  }
}
