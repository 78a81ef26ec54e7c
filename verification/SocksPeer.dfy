// The other end of the SOCKS5 conversation, written from RFC 1928 and RFC 1929:
// what a server reads from the client, and what it may send back.
module SocksPeer {
  import opened Addresses
  import opened Socks

  // ------------------------------------------------- what a server reads

  /** Section 3 of RFC 1928: version, number of methods, methods. */
  function DecodeGreeting(b: Bytes): Option<(Bytes, Bytes)> {
    if |b| < 2 || b[0] != 5 || |b| < 2 + b[1] as int then None
    else Some((b[2..2 + b[1] as int], b[2 + b[1] as int..]))
  }

  /** Section 2 of RFC 1929: version, user name, password, each with its length. */
  function DecodeAuth(b: Bytes): Option<(Credentials, Bytes)> {
    if |b| < 2 || b[0] != 1 || |b| < 2 + b[1] as int then None
    else
      var rest := b[2 + b[1] as int..];
      if |rest| < 1 || |rest| < 1 + rest[0] as int then None
      else Some((Credentials(b[2..2 + b[1] as int], rest[1..1 + rest[0] as int]), rest[1 + rest[0] as int..]))
  }

  function DecodePort(b: Bytes): Option<(int, Bytes)> {
    if |b| < 2 then None else Some((b[0] as int * 256 + b[1] as int, b[2..]))
  }

  /** Sections 4 and 5 of RFC 1928: CONNECT, reserved byte, address type, address. */
  function DecodeDestination(b: Bytes): Option<(Destination, Bytes)> {
    if |b| < 1 then None
    else if b[0] == 1 then (if |b| < 5 then None else Some((IPv4(b[1..5]), b[5..])))
    else if b[0] == 4 then (if |b| < 17 then None else Some((IPv6(b[1..17]), b[17..])))
    else if b[0] == 3 then
      if |b| < 2 || |b| < 2 + b[1] as int then None
      else Some((Domain(b[2..2 + b[1] as int]), b[2 + b[1] as int..]))
    else None
  }

  datatype Heard = Heard(methods: Bytes, creds: Option<Credentials>, dest: Destination, port: int)

  function DecodeRequest(b: Bytes): Option<(Destination, int, Bytes)> {
    if |b| < 3 || b[0] != 5 || b[1] != 1 || b[2] != 0 then None
    else match DecodeDestination(b[3..])
      case None => None
      case Some((dest, rest)) =>
        match DecodePort(rest)
        case None => None
        case Some((port, rest)) => Some((dest, port, rest))
  }

  /** Everything the client said to a server that chose `method`, or nothing if there
      are bytes missing or left over. */
  function Hear(b: Bytes, method_: Byte): Option<Heard> {
    match DecodeGreeting(b)
    case None => None
    case Some((methods, rest)) =>
      if method_ == 2 then
        match DecodeAuth(rest)
        case None => None
        case Some((creds, rest)) => HearRequest(methods, Some(creds), rest)
      else HearRequest(methods, None, rest)
  }

  function HearRequest(methods: Bytes, creds: Option<Credentials>, b: Bytes): Option<Heard> {
    match DecodeRequest(b)
    case None => None
    case Some((dest, port, rest)) => if rest == [] then Some(Heard(methods, creds, dest, port)) else None
  }

  lemma HearsGreeting(creds: Credentials, rest: Bytes)
    ensures DecodeGreeting(Greeting(creds) + rest) == Some((Offered(creds), rest))
  {
    var b := Greeting(creds) + rest;
    assert b[2..2 + b[1] as int] == Offered(creds) && b[2 + b[1] as int..] == rest;
  }

  lemma HearsAuth(creds: Credentials, rest: Bytes)
    requires |creds.username| <= 255 && |creds.password| <= 255
    ensures DecodeAuth(AuthRequest(creds) + rest) == Some((creds, rest))
  {
    var b := AuthRequest(creds) + rest;
    var tail: Bytes := [|creds.password|] + creds.password + rest;
    assert b[2..2 + b[1] as int] == creds.username;
    assert b[2 + b[1] as int..] == tail;
    assert tail[1..1 + tail[0] as int] == creds.password && tail[1 + tail[0] as int..] == rest;
  }

  lemma HearsDestination(dest: Destination, rest: Bytes)
    requires dest.Domain? ==> |dest.name| <= 255
    ensures DecodeDestination(DestinationBytes(dest) + rest) == Some((dest, rest))
  {
    var b := DestinationBytes(dest) + rest;
    match dest
    case IPv4(ip) => assert b[1..5] == ip && b[5..] == rest;
    case IPv6(ip) => assert b[1..17] == ip && b[17..] == rest;
    case Domain(name) => assert b[2..2 + b[1] as int] == name && b[2 + b[1] as int..] == rest;
  }

  /** A server hears the port modulo 2^16. */
  lemma HearsRequest(dest: Destination, port: int)
    requires dest.Domain? ==> |dest.name| <= 255
    ensures DecodeRequest(ConnectRequest(dest, port)) == Some((dest, port % 65536, []))
  {
    var b := ConnectRequest(dest, port);
    assert b[3..] == DestinationBytes(dest) + PortBytes(port);
    HearsDestination(dest, PortBytes(port));
    PortBytesValue(port);
    assert PortBytes(port)[2..] == [];
  }

  lemma PortBytesValue(port: int)
    ensures port / 256 % 256 * 256 + port % 256 == port % 65536
  {
    assert port == port / 256 * 256 + port % 256;
    assert port / 256 == port / 256 / 256 * 256 + port / 256 % 256;
  }

  // ------------------------------------------------- what a server may send back

  /** The pieces of a positive answer; section 6 of RFC 1928. The reserved byte is
      whatever the server puts there. */
  datatype Answer = Answer(method_: Byte, reserved: Byte, bound: Destination, port: (Byte, Byte))

  ghost predicate WellFormed(a: Answer) {
    (a.method_ == 0 || a.method_ == 2) && (a.bound.Domain? ==> |a.bound.name| <= 255)
  }

  ghost function Selection(a: Answer): Bytes {
    [5, a.method_] + if a.method_ == 2 then [1, 0] else []
  }

  ghost function Reply(a: Answer): Bytes
    requires WellFormed(a)
  {
    [5, 0, a.reserved] + DestinationBytes(a.bound) + [a.port.0, a.port.1]
  }

  ghost function AnswerBytes(a: Answer): Bytes
    requires WellFormed(a)
  {
    Selection(a) + Reply(a)
  }

  /** What the client itself must not get wrong for a success to be possible. */
  ghost predicate ClientReady(env: Env, creds: Credentials, target: Target, method_: Byte) {
    && target.Target? && (target.dest.Domain? ==> |target.dest.name| <= 255)
    && (method_ == 2 ==> |creds.username| <= 255 && |creds.password| <= 255)
    && (forall k :: 0 <= k < (if method_ == 2 then 3 else 2) ==> env.writable(k))
  }

  /** The bytes the client has sent after a success. */
  ghost function AllSent(creds: Credentials, target: Target, method_: Byte): Bytes
    requires target.Target? && (target.dest.Domain? ==> |target.dest.name| <= 255)
    requires method_ == 2 ==> |creds.username| <= 255 && |creds.password| <= 255
  {
    Greeting(creds) + (if method_ == 2 then AuthRequest(creds) else [])
    + ConnectRequest(target.dest, target.port)
  }

  /** From `pos` on the readable bytes start with `b`. */
  ghost predicate Ahead(env: Env, pos: nat, b: Bytes) {
    pos + |b| <= |env.usable| && env.usable[pos..pos + |b|] == b
  }

  lemma AheadSplit(env: Env, pos: nat, b: Bytes, c: Bytes)
    ensures Ahead(env, pos, b + c) <==> Ahead(env, pos, b) && Ahead(env, pos + |b|, c)
  {
    if pos + |b| + |c| <= |env.usable| {
      var both := env.usable[pos..pos + |b + c|];
      assert both[..|b|] == env.usable[pos..pos + |b|] && both[|b|..] == env.usable[pos + |b|..pos + |b| + |c|];
      assert (b + c)[..|b|] == b && (b + c)[|b|..] == c;
      assert both == both[..|b|] + both[|b|..];
    }
  }

  ghost function ReplyHeader(a: Answer): Bytes
    requires WellFormed(a)
  {
    [5, 0, a.reserved, DestinationBytes(a.bound)[0]]
  }

  ghost function ReplyRest(a: Answer): Bytes
    requires WellFormed(a)
  {
    DestinationBytes(a.bound)[1..] + [a.port.0, a.port.1]
  }

  lemma ReplySplit(env: Env, pos: nat, a: Answer)
    requires WellFormed(a)
    ensures |Reply(a)| == 4 + |ReplyRest(a)|
    ensures Ahead(env, pos, Reply(a)) <==> Ahead(env, pos, ReplyHeader(a)) && Ahead(env, pos + 4, ReplyRest(a))
  {
    assert Reply(a) == ReplyHeader(a) + ReplyRest(a);
    AheadSplit(env, pos, ReplyHeader(a), ReplyRest(a));
  }

  /** Reading the reply succeeds exactly on well-formed replies, and takes exactly
      the reply's bytes. */
  lemma ReplySucceeds(env: Env, t: Talk, a: Answer)
    requires WellFormed(a) && Ahead(env, t.pos, Reply(a))
    ensures ReplyTalk(env, t) == Go((), t.(pos := t.pos + |Reply(a)|))
  {
    ReplySplit(env, t.pos, a);
    hide Reply;
    assert Take(env, t, 4) == Go(ReplyHeader(a), t.(pos := t.pos + 4));
    if a.bound.Domain? {
      var len: Bytes := [|a.bound.name|];
      assert ReplyRest(a) == len + (a.bound.name + [a.port.0, a.port.1]);
      AheadSplit(env, t.pos + 4, len, a.bound.name + [a.port.0, a.port.1]);
    }
  }

  lemma BoundWasWellFormed(env: Env, t: Talk, atyp: Byte) returns (bound: Destination, port: (Byte, Byte))
    requires BoundTalk(env, t, atyp).Go?
    ensures bound.Domain? ==> |bound.name| <= 255
    ensures DestinationBytes(bound)[0] == atyp
    ensures Ahead(env, t.pos, DestinationBytes(bound)[1..] + [port.0, port.1])
    ensures BoundTalk(env, t, atyp).talk == t.(pos := t.pos + |DestinationBytes(bound)| + 1)
  {
    var u, p := env.usable, t.pos;
    hide Ahead;
    if atyp == 3 {
      assert u[p..p + 1] == [u[p]];
      var addr, tail := AddrAndPort(env, p + 1, u[p] as int);
      bound, port := Domain(addr), (tail[0], tail[1]);
      OneAhead(env, p);
      AheadSplit(env, p, [u[p]], addr + tail);
      assert [u[p]] + (addr + tail) == DestinationBytes(bound)[1..] + [port.0, port.1];
    } else {
      var addr, tail := AddrAndPort(env, p, if atyp == 1 then 4 else 16);
      bound := if atyp == 1 then IPv4(addr) else IPv6(addr);
      port := (tail[0], tail[1]);
      assert DestinationBytes(bound)[1..] == addr && tail == [port.0, port.1];
    }
  }

  lemma OneAhead(env: Env, pos: nat)
    requires pos < |env.usable|
    ensures Ahead(env, pos, [env.usable[pos]])
  {
  }

  lemma AddrAndPort(env: Env, start: nat, n: nat) returns (addr: Bytes, tail: Bytes)
    requires start + n + 2 <= |env.usable|
    ensures |addr| == n && |tail| == 2 && addr == env.usable[start..start + n]
    ensures Ahead(env, start, addr + tail)
  {
    addr, tail := env.usable[start..start + n], env.usable[start + n..start + n + 2];
    AheadSplit(env, start, addr, tail);
  }

  lemma ReplyWasWellFormed(env: Env, t: Talk, method_: Byte) returns (a: Answer)
    requires ReplyTalk(env, t).Go? && (method_ == 0 || method_ == 2)
    ensures WellFormed(a) && a.method_ == method_ && Ahead(env, t.pos, Reply(a))
    ensures ReplyTalk(env, t).talk == t.(pos := t.pos + |Reply(a)|)
  {
    var header := env.usable[t.pos..t.pos + 4];
    hide BoundTalk, DestinationBytes, Reply;
    var bound, port := BoundWasWellFormed(env, t.(pos := t.pos + 4), header[3]);
    a := Answer(method_, header[2], bound, port);
    assert header == ReplyHeader(a);
    ReplySplit(env, t.pos, a);
  }

  /** The client succeeds exactly when it was ready for the method the server chose
      and the server's bytes begin with a well-formed positive answer. It then has
      consumed that answer and not a byte more. */
  lemma SucceedsExactly(env: Env, creds: Credentials, target: Target, consumed: nat)
    ensures (Dialogue(env, creds, target).Go? && Dialogue(env, creds, target).talk.pos == consumed)
            <==> exists a :: WellFormed(a) && ClientReady(env, creds, target, a.method_)
                     && Ahead(env, 0, AnswerBytes(a)) && consumed == |AnswerBytes(a)|
  {
    if Dialogue(env, creds, target).Go? && Dialogue(env, creds, target).talk.pos == consumed {
      var a := SuccessWasAnswered(env, creds, target);
    }
    if a :| WellFormed(a) && ClientReady(env, creds, target, a.method_)
            && Ahead(env, 0, AnswerBytes(a)) && consumed == |AnswerBytes(a)| {
      AnswerSucceeds(env, creds, target, a);
    }
  }

  lemma AnswerSucceeds(env: Env, creds: Credentials, target: Target, a: Answer)
    requires WellFormed(a) && ClientReady(env, creds, target, a.method_)
    requires Ahead(env, 0, AnswerBytes(a))
    ensures Dialogue(env, creds, target)
            == Go((), Talk(|AnswerBytes(a)|, AllSent(creds, target, a.method_), if a.method_ == 2 then 3 else 2))
  {
    hide Greeting, AuthRequest, ConnectRequest, Reply, ReplyTalk;
    AheadSplit(env, 0, Selection(a), Reply(a));
    var first: Bytes := [5, a.method_];
    var sent := [] + Greeting(creds);
    assert sent == Greeting(creds);
    if a.method_ == 2 {
      AheadSplit(env, 0, first, [1, 0]);
      var t := Talk(4, sent + AuthRequest(creds) + ConnectRequest(target.dest, target.port), 3);
      ReplySucceeds(env, t, a);
    } else {
      assert Selection(a) == first;
      var t := Talk(2, sent + ConnectRequest(target.dest, target.port), 2);
      assert sent + [] == sent;
      ReplySucceeds(env, t, a);
    }
  }

  lemma SuccessWasAnswered(env: Env, creds: Credentials, target: Target) returns (a: Answer)
    requires Dialogue(env, creds, target).Go?
    ensures WellFormed(a) && ClientReady(env, creds, target, a.method_)
    ensures Ahead(env, 0, AnswerBytes(a))
    ensures Dialogue(env, creds, target).talk
            == Talk(|AnswerBytes(a)|, AllSent(creds, target, a.method_), if a.method_ == 2 then 3 else 2)
  {
    hide Greeting, AuthRequest, ConnectRequest, ReplyTalk;
    var method_ := env.usable[1];
    var sent := [] + Greeting(creds);
    assert sent == Greeting(creds);
    var first: Bytes := [5, method_];
    assert env.usable[0..2] == first;
    if method_ == 2 {
      var t := Talk(4, sent + AuthRequest(creds) + ConnectRequest(target.dest, target.port), 3);
      assert env.usable[2..4] == [1, 0];
      a := ReplyWasWellFormed(env, t, method_);
      AheadSplit(env, 0, first, [1, 0]);
    } else {
      var t := Talk(2, sent + ConnectRequest(target.dest, target.port), 2);
      assert sent + [] == sent;
      a := ReplyWasWellFormed(env, t, method_);
      assert Selection(a) == first;
    }
    AheadSplit(env, 0, Selection(a), Reply(a));
  }

  /** After a success, a server that follows the standards has heard exactly the
      offered methods, the credentials if it asked for them, and the destination,
      with no bytes left over; the port is heard modulo 2^16. */
  lemma ServerHearsClient(env: Env, creds: Credentials, target: Target) returns (method_: Byte)
    requires Dialogue(env, creds, target).Go?
    ensures target.Target? && (method_ == 0 || method_ == 2)
    ensures |env.usable| > 1 && method_ == env.usable[1]
    ensures Hear(Dialogue(env, creds, target).talk.sent, method_)
            == Some(Heard(Offered(creds), if method_ == 2 then Some(creds) else None,
                          target.dest, target.port % 65536))
    ensures target.port % 65536 == target.port <==> 0 <= target.port <= 65535
  {
    hide Dialogue, AllSent, Hear, Ahead, AnswerBytes;
    var a := SuccessWasAnswered(env, creds, target);
    method_ := a.method_;
    ChosenMethod(env, a);
    HearsAll(creds, target, method_);
  }

  lemma ChosenMethod(env: Env, a: Answer)
    requires WellFormed(a) && Ahead(env, 0, AnswerBytes(a))
    ensures |env.usable| > 1 && env.usable[1] == a.method_
  {
    assert AnswerBytes(a)[1] == a.method_;
    assert env.usable[0..|AnswerBytes(a)|][1] == env.usable[1];
  }

  lemma HearsAll(creds: Credentials, target: Target, method_: Byte)
    requires target.Target? && (target.dest.Domain? ==> |target.dest.name| <= 255)
    requires method_ == 2 ==> |creds.username| <= 255 && |creds.password| <= 255
    ensures Hear(AllSent(creds, target, method_), method_)
            == Some(Heard(Offered(creds), if method_ == 2 then Some(creds) else None,
                          target.dest, target.port % 65536))
  {
    hide Greeting, AuthRequest, ConnectRequest, DecodeGreeting, DecodeAuth, DecodeRequest, Offered;
    var request := ConnectRequest(target.dest, target.port);
    HearsRequest(target.dest, target.port);
    if method_ == 2 {
      var rest := AuthRequest(creds) + request;
      assert AllSent(creds, target, 2) == Greeting(creds) + rest;
      HearsGreeting(creds, rest);
      HearsAuth(creds, request);
    } else {
      assert AllSent(creds, target, method_) == Greeting(creds) + request;
      HearsGreeting(creds, request);
    }
  }

  /** The method a successful client used is one it had offered, except that without
      credentials it still lets the server choose user name and password. */
  lemma UsedMethodWasOffered(env: Env, creds: Credentials, target: Target)
    requires Dialogue(env, creds, target).Go?
    ensures |env.usable| > 1
    ensures env.usable[1] in Offered(creds)
            <==> env.usable[1] == 0 || creds.username != [] || creds.password != []
  {
    var a := SuccessWasAnswered(env, creds, target);
    ChosenMethod(env, a);
  }
}
