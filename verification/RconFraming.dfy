/**
 The Source RCON framing: packets in a byte stream that arrives in chunks of any size
 (rcon_server.cpp).
 */
module RconFraming {
  import opened Prelude

  const MIN_PACKET_SIZE := 10
  const MAX_PACKET_SIZE := 4096
  const MAX_BODY := MAX_PACKET_SIZE - MIN_PACKET_SIZE

  const AUTH: int32 := 3
  const AUTH_RESPONSE: int32 := 2
  const EXEC_COMMAND: int32 := 2
  const RESPONSE_VALUE: int32 := 0

  const UNSUPPORTED: Text := [69, 82, 82, 32, 117, 110, 115, 117, 112, 112, 111, 114, 116, 101, 100, 32,
                              112, 97, 99, 107, 101, 116, 32, 116, 121, 112, 101]
  const NOT_AUTHENTICATED: Text := [69, 82, 82, 32, 110, 111, 116, 32, 97, 117, 116, 104, 101, 110, 116,
                                    105, 99, 97, 116, 101, 100]

  // ---------------------------------------------------------------- integers

  const WORD := 0x1_0000_0000

  function ReadUint32LE(b: seq<byte>): uint32
    requires |b| >= 4
  {
    b[0] as int + 0x100 * b[1] as int + 0x1_0000 * b[2] as int + 0x100_0000 * b[3] as int
  }

  /** static_cast<int32_t>: the upper half of the range is negative. */
  function Signed(n: uint32): int32 {
    if n < 0x8000_0000 then n else n - WORD
  }

  function Unsigned(n: int32): uint32 {
    if n < 0 then n + WORD else n
  }

  function ReadInt32LE(b: seq<byte>): int32
    requires |b| >= 4
  {
    Signed(ReadUint32LE(b))
  }

  function Int32LE(value: int32): (b: seq<byte>)
    ensures |b| == 4
  {
    var n := Unsigned(value);
    [(n % 0x100) as byte, (n / 0x100 % 0x100) as byte, (n / 0x1_0000 % 0x100) as byte, (n / 0x100_0000) as byte]
  }

  lemma ReadsBack(value: int32, rest: seq<byte>)
    ensures ReadInt32LE(Int32LE(value) + rest) == value
  {
    var n := Unsigned(value);
    var q, r := n / 0x100, n % 0x100;
    var q2, r2 := q / 0x100, q % 0x100;
    var q3, r3 := q2 / 0x100, q2 % 0x100;
    assert n / 0x1_0000 == q2 && n / 0x100_0000 == q3;
    assert n == r + 0x100 * (r2 + 0x100 * (r3 + 0x100 * q3));
    var b := Int32LE(value);
    assert (b + rest)[..4] == b;
    assert ReadUint32LE(b + rest) == n;
  }

  lemma ReadingDependsOnFour(a: seq<byte>, b: seq<byte>)
    requires |a| >= 4
    ensures ReadInt32LE(a + b) == ReadInt32LE(a)
  {
  }

  // ----------------------------------------------------------------- framing

  datatype Packet = Packet(id: int32, kind: int32, body: Text)

  datatype Outcome = Incomplete | Malformed | Found(packet: Packet, size: nat)

  /** Position of the first NUL, or the length. */
  function FindNul(s: Text): (i: nat)
    ensures i <= |s|
    ensures i < |s| ==> s[i] == 0
    ensures forall j :: 0 <= j < i ==> s[j] != 0
  {
    if s == [] || s[0] == 0 then 0 else 1 + FindNul(s[1..])
  }

  predicate ValidSize(size: int32) {
    MIN_PACKET_SIZE <= size <= MAX_PACKET_SIZE
  }

  /** The packet in front of the buffer. */
  function Front(buffer: seq<byte>): (o: Outcome)
    ensures o.Found? ==> 4 + MIN_PACKET_SIZE <= o.size <= |buffer| && o.size <= 4 + MAX_PACKET_SIZE
  {
    if |buffer| < 4 then Incomplete
    else
      var size := ReadInt32LE(buffer);
      if !ValidSize(size) then Malformed
      else if |buffer| < 4 + size then Incomplete
      else
        var payload := buffer[12..4 + size];
        var end := FindNul(payload);
        if end == |payload| || FindNul(payload[end + 1..]) == |payload[end + 1..]| then Malformed
        else Found(Packet(ReadInt32LE(buffer[4..]), ReadInt32LE(buffer[8..]), payload[..end]), 4 + size)
  }

  /** What has been decided about a buffer is not changed by what arrives after it. */
  lemma FrontIsStable(a: seq<byte>, b: seq<byte>)
    requires !Front(a).Incomplete?
    ensures Front(a + b) == Front(a)
  {
    hide ReadInt32LE, FindNul;
    ReadingDependsOnFour(a, b);
    var size := ReadInt32LE(a);
    if ValidSize(size) {
      assert (a + b)[4..] == a[4..] + b && (a + b)[8..] == a[8..] + b;
      ReadingDependsOnFour(a[4..], b);
      ReadingDependsOnFour(a[8..], b);
      assert (a + b)[12..4 + size] == a[12..4 + size];
    }
  }

  /** What is left unhandled never reaches the size of the largest packet. */
  lemma IncompleteIsShort(buffer: seq<byte>)
    requires Front(buffer).Incomplete?
    ensures |buffer| < 4100
  {
  }

  function Truncated(body: Text): Text {
    if |body| > MAX_BODY then body[..MAX_BODY] else body
  }

  /** SendSourcePacket. */
  function Encode(p: Packet): seq<byte> {
    var body := Truncated(p.body);
    Int32LE(8 + |body| + 2) + Int32LE(p.id) + Int32LE(p.kind) + body + [0, 0]
  }

  function Framed(p: Packet): Packet {
    p.(body := Truncated(p.body)[..FindNul(Truncated(p.body))])
  }

  lemma HeaderReads(size: int32, id: int32, kind: int32, after: seq<byte>)
    ensures var b := Int32LE(size) + Int32LE(id) + Int32LE(kind) + after;
      && ReadInt32LE(b) == size && ReadInt32LE(b[4..]) == id && ReadInt32LE(b[8..]) == kind && b[12..] == after
  {
    hide ReadInt32LE, Int32LE;
    var b := Int32LE(size) + Int32LE(id) + Int32LE(kind) + after;
    assert b == Int32LE(size) + (Int32LE(id) + Int32LE(kind) + after);
    ReadsBack(size, Int32LE(id) + Int32LE(kind) + after);
    assert b[4..] == Int32LE(id) + (Int32LE(kind) + after);
    ReadsBack(id, Int32LE(kind) + after);
    assert b[8..] == Int32LE(kind) + after;
    ReadsBack(kind, after);
  }

  /** Whatever is sent is framed again as one packet, cut at a NUL or at the largest size. */
  lemma FramedBack(p: Packet, rest: seq<byte>)
    ensures Front(Encode(p) + rest) == Found(Framed(p), |Encode(p)|)
  {
    hide ReadInt32LE, Int32LE, FindNul;
    var body := Truncated(p.body);
    var size: int32 := 8 + |body| + 2;
    var header, payload := Int32LE(size) + Int32LE(p.id) + Int32LE(p.kind), body + [0, 0];
    AppendAssociates(header, body, [0, 0]);
    AppendAssociates(header, payload, rest);
    assert Encode(p) + rest == header + (payload + rest);
    HeaderReads(size, p.id, p.kind, payload + rest);
    TakeMiddle(header, payload, rest);
    FindNulInBody(body);
  }

  lemma TakeMiddle<T>(a: seq<T>, b: seq<T>, c: seq<T>)
    ensures (a + (b + c))[|a|..|a| + |b|] == b
  {
  }

  lemma FindNulInBody(body: Text)
    ensures var payload, end := body + [0, 0], FindNul(body + [0, 0]);
      && end == FindNul(body) && end < |payload|
      && payload[..end] == body[..end]
      && FindNul(payload[end + 1..]) < |payload[end + 1..]|
  {
    var payload, end, own := body + [0, 0], FindNul(body + [0, 0]), FindNul(body);
    assert payload[|body|] == 0;
    assert end <= |body|;
    if own < |body| {
      assert payload[own] == 0;
    }
    if end < |body| {
      assert body[end] == payload[end];
    }
    var tail := payload[end + 1..];
    assert tail[|tail| - 1] == 0;
  }

  /** It is framed as it was sent exactly when the body is short enough and has no NUL. */
  lemma FramedUnchanged(p: Packet)
    ensures Framed(p) == p <==> |p.body| <= MAX_BODY && FindNul(p.body) == |p.body|
  {
    assert |Framed(p).body| <= MAX_BODY;
  }

  // ----------------------------------------------------------------- sessions

  /**
   The password, what the commands answer given all commands so far, and how many
   packets the socket takes before sending fails.
   */
  datatype Server = Server(password: Text, execute: seq<Text> -> Text, sends: nat)

  datatype Session = Session(authenticated: bool, handled: seq<Packet>, commands: seq<Text>, sent: seq<Packet>, alive: bool)

  const NewSession := Session(false, [], [], [], true)

  /** SendSourcePacket, on a session that is to be closed when it fails. */
  function Sent(server: Server, s: Session, p: Packet): Session {
    if !s.alive then s
    else if |s.sent| >= server.sends then s.(alive := false)
    else s.(sent := s.sent + [p])
  }

  predicate IsPassword(server: Server, password: Text) {
    server.password == [] || password == server.password
  }

  /** HandlePacket. */
  function Handled(server: Server, s: Session, p: Packet): Session {
    var noted := s.(handled := s.handled + [p]);
    if p.kind == AUTH then
      var ok := IsPassword(server, p.body);
      var answered := Sent(server, noted.(authenticated := ok), Packet(p.id, RESPONSE_VALUE, []));
      Sent(server, answered, Packet(if ok then p.id else -1, AUTH_RESPONSE, []))
    else if p.kind != EXEC_COMMAND then Sent(server, noted, Packet(p.id, RESPONSE_VALUE, UNSUPPORTED))
    else if !s.authenticated then Sent(server, noted, Packet(p.id, RESPONSE_VALUE, NOT_AUTHENTICATED))
    else
      var commands := s.commands + [p.body];
      Sent(server, noted.(commands := commands), Packet(p.id, RESPONSE_VALUE, server.execute(commands)))
  }

  /** A session and the bytes not handled yet. */
  datatype Connection = Connection(session: Session, buffer: seq<byte>)

  /** HandlePacketBuffer. */
  function Drained(server: Server, c: Connection): Connection
    decreases |c.buffer|
  {
    if !c.session.alive then c
    else match Front(c.buffer)
      case Incomplete => c
      case Malformed => c.(session := c.session.(alive := false))
      case Found(packet, size) =>
        var s := Handled(server, c.session, packet);
        if s.alive then Drained(server, Connection(s, c.buffer[size..])) else c.(session := s)
  }

  /** One recv, after which the packets that are complete are handled. */
  function Received(server: Server, c: Connection, chunk: seq<byte>): Connection {
    if !c.session.alive then c else Drained(server, c.(buffer := c.buffer + chunk))
  }

  function ReceivedAll(server: Server, c: Connection, chunks: seq<seq<byte>>): Connection
    decreases chunks
  {
    if chunks == [] then c else ReceivedAll(server, Received(server, c, chunks[0]), chunks[1..])
  }

  function Concat(chunks: seq<seq<byte>>): seq<byte>
    decreases chunks
  {
    if chunks == [] then [] else chunks[0] + Concat(chunks[1..])
  }

  // ------------------------------------------------------- chunk independence

  /** Handling what there is and then the rest is handling everything at once. */
  lemma {:induction false} DrainedInTwo(server: Server, c: Connection, more: seq<byte>)
    ensures var d := Drained(server, c);
      Drained(server, c.(buffer := c.buffer + more)).session == Received(server, d, more).session
    ensures var d := Drained(server, c);
      d.session.alive ==> Drained(server, c.(buffer := c.buffer + more)) == Received(server, d, more)
    decreases |c.buffer|
  {
    if c.session.alive && !Front(c.buffer).Incomplete? {
      FrontIsStable(c.buffer, more);
      if Front(c.buffer).Found? {
        var s, size := Handled(server, c.session, Front(c.buffer).packet), Front(c.buffer).size;
        if s.alive {
          assert (c.buffer + more)[size..] == c.buffer[size..] + more;
          DrainedInTwo(server, Connection(s, c.buffer[size..]), more);
        }
      }
    }
  }

  lemma {:induction false} DrainedIsDone(server: Server, c: Connection)
    ensures var d := Drained(server, c);
      d.session.alive ==> Front(d.buffer).Incomplete? && Drained(server, d) == d
    decreases |c.buffer|
  {
    if c.session.alive && Front(c.buffer).Found? {
      var s, size := Handled(server, c.session, Front(c.buffer).packet), Front(c.buffer).size;
      if s.alive {
        DrainedIsDone(server, Connection(s, c.buffer[size..]));
      }
    }
  }

  lemma {:induction false} DeadStaysDead(server: Server, c: Connection, chunks: seq<seq<byte>>)
    requires !c.session.alive
    ensures ReceivedAll(server, c, chunks) == c
    decreases chunks
  {
    if chunks != [] {
      DeadStaysDead(server, c, chunks[1..]);
    }
  }

  /** However the stream is cut into chunks, the outcome is that of handling it at once. */
  lemma {:induction false} ChunksDoNotMatter(server: Server, c: Connection, chunks: seq<seq<byte>>)
    requires c.session.alive ==> Drained(server, c) == c
    ensures var all := Received(server, c, Concat(chunks));
      var r := ReceivedAll(server, c, chunks);
      r.session == all.session && (r.session.alive ==> r.buffer == all.buffer)
    decreases chunks
  {
    if chunks == [] {
      assert c.buffer + [] == c.buffer;
    } else if !c.session.alive {
      DeadStaysDead(server, c, chunks);
    } else {
      hide Drained, Front, Handled;
      var first, rest := chunks[0], Concat(chunks[1..]);
      var d := c.(buffer := c.buffer + first);
      AppendAssociates(c.buffer, first, rest);
      DrainedInTwo(server, d, rest);
      DrainedIsDone(server, d);
      ChunksDoNotMatter(server, Received(server, c, first), chunks[1..]);
    }
  }

  /** Two ways of cutting a stream handle the same packets and end alike, with less than one packet left over. */
  lemma SameForEveryCut(server: Server, a: seq<seq<byte>>, b: seq<seq<byte>>)
    requires Concat(a) == Concat(b)
    ensures var c := Connection(NewSession, []);
      var r, q := ReceivedAll(server, c, a), ReceivedAll(server, c, b);
      && r.session == q.session
      && (r.session.alive ==> r.buffer == q.buffer && |r.buffer| < 4 + MAX_PACKET_SIZE)
  {
    var c := Connection(NewSession, []);
    ChunksDoNotMatter(server, c, a);
    ChunksDoNotMatter(server, c, b);
    DrainedIsDone(server, c.(buffer := c.buffer + Concat(a)));
    var r := ReceivedAll(server, c, a);
    if r.session.alive {
      IncompleteIsShort(r.buffer);
    }
  }

  lemma FewIntegers()
    ensures Int32LE(11) == [11, 0, 0, 0] && Int32LE(10) == [10, 0, 0, 0]
    ensures Int32LE(3) == [3, 0, 0, 0] && Int32LE(2) == [2, 0, 0, 0]
    ensures Int32LE(-2) == [254, 255, 255, 255] && Int32LE(0x102) == [2, 1, 0, 0]
  {
  }

  /** A packet on the wire: size, id and kind from the low byte on, the body and two zeros. */
  lemma OnTheWire()
    ensures Encode(Packet(-2, AUTH, [120])) == [11, 0, 0, 0, 254, 255, 255, 255, 3, 0, 0, 0, 120, 0, 0]
    ensures Encode(Packet(0x102, EXEC_COMMAND, [])) == [10, 0, 0, 0, 2, 1, 0, 0, 2, 0, 0, 0, 0, 0]
  {
    hide Int32LE;
    FewIntegers();
  }

  // ----------------------------------------------------------- whole packets

  function EncodeAll(ps: seq<Packet>): seq<byte>
    decreases ps
  {
    if ps == [] then [] else Encode(ps[0]) + EncodeAll(ps[1..])
  }

  function HandledAll(server: Server, s: Session, ps: seq<Packet>): Session
    decreases ps
  {
    if ps == [] || !s.alive then s else HandledAll(server, Handled(server, s, ps[0]), ps[1..])
  }

  predicate Sendable(p: Packet) {
    |p.body| <= MAX_BODY && FindNul(p.body) == |p.body|
  }

  lemma DrainedOne(server: Server, s: Session, one: seq<byte>, rest: seq<byte>, p: Packet)
    requires s.alive && Front(one + rest) == Found(p, |one|)
    ensures var h, c := Handled(server, s, p), Connection(s, one + rest);
      Drained(server, c) == if h.alive then Drained(server, Connection(h, rest)) else c.(session := h)
  {
    hide Handled, Front;
    assert (one + rest)[|one|..] == rest;
  }

  lemma EncodeIsNotEmpty(p: Packet)
    ensures |Encode(p)| > 0
  {
  }

  lemma {:induction false} PacketsAreHandled(server: Server, s: Session, ps: seq<Packet>)
    requires forall p <- ps :: Sendable(p)
    ensures var d := Drained(server, Connection(s, EncodeAll(ps)));
      d.session == HandledAll(server, s, ps) && (d.session.alive ==> d.buffer == [])
    decreases ps
  {
    if ps != [] && s.alive {
      hide Handled, Front, Encode, Framed, FindNul, Drained;
      assert ps[0] in ps && Sendable(ps[0]);
      assert forall p <- ps[1..] :: p in ps;
      var rest := EncodeAll(ps[1..]);
      FramedBack(ps[0], rest);
      FramedUnchanged(ps[0]);
      EncodeIsNotEmpty(ps[0]);
      DrainedOne(server, s, Encode(ps[0]), rest, ps[0]);
      if Handled(server, s, ps[0]).alive {
        PacketsAreHandled(server, Handled(server, s, ps[0]), ps[1..]);
      }
    }
  }

  /** Whether the last authentication among the packets had the password. */
  function AuthenticatedBy(server: Server, ps: seq<Packet>): bool
    decreases |ps|
  {
    if ps == [] then false
    else
      var last := ps[|ps| - 1];
      if last.kind == AUTH then server.password == [] || last.body == server.password
      else AuthenticatedBy(server, ps[..|ps| - 1])
  }

  /** The commands that come after a successful authentication, with no failed one in between. */
  function CommandsOf(server: Server, ps: seq<Packet>): seq<Text>
    decreases |ps|
  {
    if ps == [] then []
    else
      var some, last := ps[..|ps| - 1], ps[|ps| - 1];
      CommandsOf(server, some)
      + if last.kind == EXEC_COMMAND && AuthenticatedBy(server, some) then [last.body] else []
  }

  /** What is to be answered to a packet that comes after others. */
  function AnswersTo(server: Server, before: seq<Packet>, p: Packet): seq<Packet> {
    if p.kind == AUTH then
      var id := if server.password != [] && p.body != server.password then -1 else p.id;
      [Packet(p.id, RESPONSE_VALUE, []), Packet(id, AUTH_RESPONSE, [])]
    else if p.kind != EXEC_COMMAND then [Packet(p.id, RESPONSE_VALUE, UNSUPPORTED)]
    else if !AuthenticatedBy(server, before) then [Packet(p.id, RESPONSE_VALUE, NOT_AUTHENTICATED)]
    else [Packet(p.id, RESPONSE_VALUE, server.execute(CommandsOf(server, before) + [p.body]))]
  }

  function ExpectedAnswers(server: Server, ps: seq<Packet>): seq<Packet>
    decreases |ps|
  {
    if ps == [] then []
    else ExpectedAnswers(server, ps[..|ps| - 1]) + AnswersTo(server, ps[..|ps| - 1], ps[|ps| - 1])
  }

  /** Everything has been answered, up to where the socket failed if it did. */
  predicate Answered(server: Server, s: Session) {
    && s.sent <= ExpectedAnswers(server, s.handled)
    && |s.sent| <= server.sends
    && (s.alive || |s.sent| < server.sends ==> s.sent == ExpectedAnswers(server, s.handled))
  }

  ghost predicate InOrder(server: Server, s: Session) {
    && s.authenticated == AuthenticatedBy(server, s.handled)
    && s.commands == CommandsOf(server, s.handled)
    && Answered(server, s)
  }

  lemma HandledInOrder(server: Server, s: Session, p: Packet)
    requires InOrder(server, s) && s.alive
    ensures InOrder(server, Handled(server, s, p)) && Handled(server, s, p).handled == s.handled + [p]
  {
    NotedInOrder(server, s.handled, p);
    hide Sent, IsPassword, AuthenticatedBy, CommandsOf, ExpectedAnswers;
    var noted := s.(handled := s.handled + [p]);
    var ok, body, commands := IsPassword(server, p.body), Packet(p.id, RESPONSE_VALUE, []), s.commands + [p.body];
    assert ok <==> server.password == [] || p.body == server.password by {
      PasswordMeaning(server, p.body);
    }
    var last := Packet(if ok then p.id else -1, AUTH_RESPONSE, []);
    SentOne(server, noted, Packet(p.id, RESPONSE_VALUE, UNSUPPORTED), s.sent);
    SentOne(server, noted, Packet(p.id, RESPONSE_VALUE, NOT_AUTHENTICATED), s.sent);
    SentOne(server, noted.(commands := commands), Packet(p.id, RESPONSE_VALUE, server.execute(commands)), s.sent);
    SentTwo(server, noted.(authenticated := ok), body, last, s.sent);
  }

  lemma PasswordMeaning(server: Server, password: Text)
    ensures IsPassword(server, password) <==> server.password == [] || password == server.password
  {
  }

  lemma NotedInOrder(server: Server, ps: seq<Packet>, p: Packet)
    ensures var more := ps + [p];
      && AuthenticatedBy(server, more)
           == (if p.kind == AUTH then server.password == [] || p.body == server.password else AuthenticatedBy(server, ps))
      && CommandsOf(server, more) ==
           CommandsOf(server, ps) + (if p.kind == EXEC_COMMAND && AuthenticatedBy(server, ps) then [p.body] else [])
      && ExpectedAnswers(server, more) == ExpectedAnswers(server, ps) + AnswersTo(server, ps, p)
  {
    assert (ps + [p])[..|ps|] == ps;
  }

  /** One answer is sent, or the socket has failed. */
  lemma SentOne(server: Server, s: Session, p: Packet, sent: seq<Packet>)
    requires s.alive && s.sent == sent && |sent| <= server.sends
    ensures var t := Sent(server, s, p);
      && t == s.(sent := t.sent, alive := t.alive) && t.sent <= sent + [p] && |t.sent| <= server.sends
      && (t.alive || |t.sent| < server.sends ==> t.sent == sent + [p])
  {
    assert sent <= sent + [p];
  }

  lemma SentTwo(server: Server, s: Session, p: Packet, q: Packet, sent: seq<Packet>)
    requires s.alive && s.sent == sent && |sent| <= server.sends
    ensures var t := Sent(server, Sent(server, s, p), q);
      && t == s.(sent := t.sent, alive := t.alive) && t.sent <= sent + [p, q] && |t.sent| <= server.sends
      && (t.alive || |t.sent| < server.sends ==> t.sent == sent + [p, q])
  {
    SentOne(server, s, p, sent);
    assert sent + [p, q] == sent + [p] + [q];
    if Sent(server, s, p).alive {
      SentOne(server, Sent(server, s, p), q, sent + [p]);
    }
  }

  /**
   However packets and chunks come: only commands after a successful authentication are
   executed, each of them once and in order, and every packet is answered.
   */
  lemma {:induction false} OnlyAuthenticatedCommandsRun(server: Server, c: Connection)
    requires InOrder(server, c.session)
    ensures InOrder(server, Drained(server, c).session)
    decreases |c.buffer|
  {
    if c.session.alive && Front(c.buffer).Found? {
      hide Handled, InOrder, Front;
      var s, size := Handled(server, c.session, Front(c.buffer).packet), Front(c.buffer).size;
      HandledInOrder(server, c.session, Front(c.buffer).packet);
      if s.alive {
        OnlyAuthenticatedCommandsRun(server, Connection(s, c.buffer[size..]));
      }
    } else {
      DrainedIsQuiet(server, c);
    }
  }

  lemma DrainedIsQuiet(server: Server, c: Connection)
    requires InOrder(server, c.session) && !(c.session.alive && Front(c.buffer).Found?)
    ensures InOrder(server, Drained(server, c).session)
  {
  }

  lemma {:induction false} EveryStreamInOrder(server: Server, chunks: seq<seq<byte>>)
    ensures InOrder(server, ReceivedAll(server, Connection(NewSession, []), chunks).session)
  {
    var c := Connection(NewSession, []);
    ChunksDoNotMatter(server, c, chunks);
    OnlyAuthenticatedCommandsRun(server, c.(buffer := c.buffer + Concat(chunks)));
  }

  /** End to end: packets sent as one stream are handled one by one, whatever the chunks it arrives in. */
  lemma StreamIsHandled(server: Server, ps: seq<Packet>, chunks: seq<seq<byte>>)
    requires (forall p <- ps :: Sendable(p)) && Concat(chunks) == EncodeAll(ps)
    ensures var r := ReceivedAll(server, Connection(NewSession, []), chunks);
      r.session == HandledAll(server, NewSession, ps) && (r.session.alive ==> r.buffer == [])
  {
    var c := Connection(NewSession, []);
    ChunksDoNotMatter(server, c, chunks);
    PacketsAreHandled(server, NewSession, ps);
    assert c.buffer + EncodeAll(ps) == EncodeAll(ps);
  }

  // ------------------------------------------------------------------- the class

  /** The thread that serves one connection. */
  class ConnectionHandler {
    const server: Server

    var buffer: seq<byte>
    var authenticated: bool

    /** What has been handled and sent, and whether the connection is still served. */
    var handled: seq<Packet>
    var commands: seq<Text>
    var sent: seq<Packet>
    var alive: bool

    constructor (server: Server)
      ensures this.server == server && Now() == Connection(NewSession, [])
    {
      this.server := server;
      buffer, authenticated, handled, commands, sent, alive := [], false, [], [], [], true;
    }

    function Current(): Session
      reads this
    {
      Session(authenticated, handled, commands, sent, alive)
    }

    function Now(): Connection
      reads this
    {
      Connection(Current(), buffer)
    }

    method AppendInt32LE(b: seq<byte>, value: int32) returns (b': seq<byte>)
      ensures b' == b + Int32LE(value)
    {
      var n := Unsigned(value);
      b' := b + [(n % 0x100) as byte];
      b' := b' + [(n / 0x100 % 0x100) as byte];
      b' := b' + [(n / 0x1_0000 % 0x100) as byte];
      b' := b' + [(n / 0x100_0000) as byte];
    }

    /** The bytes of a packet; the sending is the socket's business. */
    method PacketBytes(p: Packet) returns (bytes: seq<byte>)
      ensures bytes == Encode(p)
    {
      hide Int32LE;
      var body := if |p.body| > MAX_BODY then p.body[..MAX_BODY] else p.body;
      bytes := AppendInt32LE([], 8 + |body| + 2);
      bytes := AppendInt32LE(bytes, p.id);
      bytes := AppendInt32LE(bytes, p.kind);
      bytes := bytes + body;
      bytes := bytes + [0];
      bytes := bytes + [0];
      assert [] + Int32LE(8 + |body| + 2) == Int32LE(8 + |body| + 2);
    }

    method SendSourcePacket(p: Packet) returns (ok: bool)
      requires alive
      modifies `sent, `alive
      ensures Current() == Sent(server, old(Current()), p) && ok == alive
    {
      ok := |sent| < server.sends;
      if ok {
        sent := sent + [p];
      } else {
        alive := false;
      }
    }

    method HandlePacket(p: Packet) returns (ok: bool)
      requires alive
      modifies `authenticated, `handled, `commands, `sent, `alive
      ensures Current() == Handled(server, old(Current()), p) && ok == alive
    {
      handled := handled + [p];
      if p.kind == AUTH {
        authenticated := server.password == [] || p.body == server.password;
        ok := SendSourcePacket(Packet(p.id, RESPONSE_VALUE, []));
        if ok {
          ok := SendSourcePacket(Packet(if authenticated then p.id else -1, AUTH_RESPONSE, []));
        }
        return;
      }
      if p.kind != EXEC_COMMAND {
        ok := SendSourcePacket(Packet(p.id, RESPONSE_VALUE, UNSUPPORTED));
        return;
      }
      if !authenticated {
        ok := SendSourcePacket(Packet(p.id, RESPONSE_VALUE, NOT_AUTHENTICATED));
        return;
      }
      commands := commands + [p.body];
      ok := SendSourcePacket(Packet(p.id, RESPONSE_VALUE, server.execute(commands)));
    }

    method HandlePacketBuffer() returns (ok: bool)
      requires alive
      modifies `buffer, `authenticated, `handled, `commands, `sent, `alive
      ensures Now() == Drained(server, old(Now())) && ok == alive
    {
      hide Handled, FindNul, ReadInt32LE;
      while |buffer| >= 4
        invariant alive && Drained(server, Now()) == Drained(server, old(Now()))
        decreases |buffer|
      {
        var size := ReadInt32LE(buffer);
        if !ValidSize(size) {
          alive := false;
          return false;
        }
        if |buffer| < 4 + size {
          return true;
        }
        var id, kind := ReadInt32LE(buffer[4..]), ReadInt32LE(buffer[8..]);
        var payload := buffer[12..4 + size];
        var firstTerminator := FindNul(payload);
        if firstTerminator == |payload| {
          alive := false;
          return false;
        }
        var body, tail := payload[..firstTerminator], payload[firstTerminator + 1..];
        if FindNul(tail) == |tail| {
          alive := false;
          return false;
        }
        ok := HandlePacket(Packet(id, kind, body));
        if !ok {
          return false;
        }
        buffer := buffer[4 + size..];
      }
      ok := true;
    }

    /** One turn of the receive loop. */
    method Receive(chunk: seq<byte>)
      requires alive
      modifies `buffer, `authenticated, `handled, `commands, `sent, `alive
      ensures Now() == Received(server, old(Now()), chunk)
    {
      buffer := buffer + chunk;
      var _ := HandlePacketBuffer();
    }
  }
}
