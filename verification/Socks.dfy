// The SOCKS5 client handshake (RFC 1928 and RFC 1929) over a connection that may
// deliver the server's bytes in arbitrary pieces.
module Socks {
  import opened Addresses

  type Byte = n: int | 0 <= n < 256
  type Bytes = seq<Byte>
  type Bytes4 = b: seq<Byte> | |b| == 4 witness [0, 0, 0, 0]
  type Bytes16 = b: seq<Byte> | |b| == 16 witness [0, 0, 0, 0, 0, 0, 0, 0, 0, 0, 0, 0, 0, 0, 0, 0]

  datatype Credentials = Credentials(username: Bytes, password: Bytes)

  /** What library parsing makes of the target's host. */
  datatype Destination = IPv4(ip4: Bytes4) | IPv6(ip6: Bytes16) | Domain(name: Bytes)

  /** The target address after splitting it and reading its port. */
  datatype Target = BadAddress | BadPort | Target(dest: Destination, port: GoInt)

  datatype Reason =
    | WriteFailed | ReadFailed
    | BadVersion(got: Byte) | NoAcceptableMethod | UnsupportedMethod(got: Byte)
    | UsernameTooLong | PasswordTooLong | BadAuthVersion(got: Byte) | AuthRejected
    | InvalidAddress | InvalidPort | DomainTooLong
    | ConnectRefused(code: Byte) | UnsupportedAddressType(got: Byte)

  // ------------------------------------------------------- what the client says

  function Offered(creds: Credentials): Bytes {
    if creds.username == [] && creds.password == [] then [0x00] else [0x00, 0x02]
  }

  function Greeting(creds: Credentials): Bytes {
    [0x05, |Offered(creds)|] + Offered(creds)
  }

  function AuthRequest(creds: Credentials): Bytes
    requires |creds.username| <= 255 && |creds.password| <= 255
  {
    [0x01, |creds.username|] + creds.username + [|creds.password|] + creds.password
  }

  /** Both truncations are Go's: an arithmetic shift and a conversion to a byte. */
  function PortBytes(port: int): Bytes {
    [port / 256 % 256, port % 256]
  }

  function DestinationBytes(dest: Destination): Bytes
    requires dest.Domain? ==> |dest.name| <= 255
  {
    match dest
    case IPv4(ip) => [0x01] + ip
    case IPv6(ip) => [0x04] + ip
    case Domain(name) => [0x03, |name|] + name
  }

  function ConnectRequest(dest: Destination, port: int): Bytes
    requires dest.Domain? ==> |dest.name| <= 255
  {
    [0x05, 0x01, 0x00] + DestinationBytes(dest) + PortBytes(port)
  }

  // --------------------------------------------- the whole dialogue, as a function

  /** `usable` is what reads can deliver without an error, `total` how many bytes the
      server sends in all, and `writable` says which writes succeed. */
  datatype Env = Env(usable: Bytes, total: nat, writable: nat -> bool)

  datatype Talk = Talk(pos: nat, sent: Bytes, writes: nat)

  datatype Step<T> = Go(value: T, talk: Talk) | Stop(reason: Reason, end: Talk) {
    predicate IsFailure() { Stop? }
    function PropagateFailure<U>(): Step<U> requires Stop? { Stop(reason, end) }
    function Extract(): (T, Talk) requires Go? { (value, talk) }
  }

  function Send(env: Env, t: Talk, bytes: Bytes): Step<()> {
    if env.writable(t.writes) then Go((), t.(sent := t.sent + bytes, writes := t.writes + 1))
    else Stop(WriteFailed, t.(writes := t.writes + 1))
  }

  /** A read that comes up short has swallowed everything there was. */
  function Take(env: Env, t: Talk, n: nat): (step: Step<Bytes>)
    ensures step.Go? ==> |step.value| == n
  {
    if n == 0 then Go([], t)
    else if t.pos + n <= |env.usable| then Go(env.usable[t.pos..t.pos + n], t.(pos := t.pos + n))
    else Stop(ReadFailed, t.(pos := env.total))
  }

  function AuthTalk(env: Env, t: Talk, creds: Credentials): Step<()> {
    if |creds.username| > 255 then Stop(UsernameTooLong, t)
    else if |creds.password| > 255 then Stop(PasswordTooLong, t)
    else
      var (_, t) :- Send(env, t, AuthRequest(creds));
      var (resp, t) :- Take(env, t, 2);
      if resp[0] != 0x01 then Stop(BadAuthVersion(resp[0]), t)
      else if resp[1] != 0x00 then Stop(AuthRejected, t)
      else Go((), t)
  }

  function RequestTalk(env: Env, t: Talk, target: Target): Step<()> {
    match target
    case BadAddress => Stop(InvalidAddress, t)
    case BadPort => Stop(InvalidPort, t)
    case Target(dest, port) =>
      if dest.Domain? && |dest.name| > 255 then Stop(DomainTooLong, t)
      else Send(env, t, ConnectRequest(dest, port))
  }

  function BoundTalk(env: Env, t: Talk, atyp: Byte): Step<()> {
    if atyp == 0x01 then
      var (_, t) :- Take(env, t, 4 + 2); Go((), t)
    else if atyp == 0x03 then
      var (len, t) :- Take(env, t, 1);
      var (_, t) :- Take(env, t, len[0] as int + 2); Go((), t)
    else if atyp == 0x04 then
      var (_, t) :- Take(env, t, 16 + 2); Go((), t)
    else Stop(UnsupportedAddressType(atyp), t)
  }

  function ReplyTalk(env: Env, t: Talk): Step<()> {
    var (header, t) :- Take(env, t, 4);
    if header[0] != 0x05 then Stop(BadVersion(header[0]), t)
    else if header[1] != 0x00 then Stop(ConnectRefused(header[1]), t)
    else BoundTalk(env, t, header[3])
  }

  function Dialogue(env: Env, creds: Credentials, target: Target): Step<()> {
    var (_, t) :- Send(env, Talk(0, [], 0), Greeting(creds));
    var (resp, t) :- Take(env, t, 2);
    if resp[0] != 0x05 then Stop(BadVersion(resp[0]), t)
    else if resp[1] == 0x00 then FinishTalk(env, t, target)
    else if resp[1] == 0x02 then
      var (_, t) :- AuthTalk(env, t, creds);
      FinishTalk(env, t, target)
    else if resp[1] == 0xFF then Stop(NoAcceptableMethod, t)
    else Stop(UnsupportedMethod(resp[1]), t)
  }

  function FinishTalk(env: Env, t: Talk, target: Target): Step<()> {
    var (_, t) :- RequestTalk(env, t, target);
    ReplyTalk(env, t)
  }

  // ------------------------------------------------------------- the connection

  /** The peer's bytes arrive in pieces of at most `chunk(k)` for the k-th read. At
      the end of the stream a read fails; with `eager` set, already the read that
      delivers the last byte reports the failure. */
  class Conn {
    const stream: Bytes
    const chunk: nat -> nat
    const eager: bool
    const writable: nat -> bool
    var pos: nat
    var readCount: nat
    var sent: Bytes
    var writes: nat

    constructor (stream: Bytes, chunk: nat -> nat, eager: bool, writable: nat -> bool)
      ensures this.stream == stream && this.chunk == chunk && this.eager == eager && this.writable == writable
      ensures Valid() && Now() == Talk(0, [], 0)
    {
      this.stream, this.chunk, this.eager, this.writable := stream, chunk, eager, writable;
      pos, readCount, sent, writes := 0, 0, [], 0;
    }

    ghost predicate Valid()
      reads this
    {
      pos <= |stream|
    }

    ghost function Now(): Talk
      reads this
    {
      Talk(pos, sent, writes)
    }

    ghost function World(): Env {
      Env(if eager && stream != [] then stream[..|stream| - 1] else stream, |stream|, writable)
    }

    method Write(bytes: Bytes) returns (ok: bool)
      requires Valid()
      modifies this`sent, this`writes
      ensures Valid()
      ensures var step := Send(World(), old(Now()), bytes);
              ok == step.Go? && Now() == if ok then step.talk else step.end
    {
      ok := writable(writes);
      writes := writes + 1;
      if ok {
        sent := sent + bytes;
      }
    }

    /** One read into the buffer from `offset` on: some progress, or an error. */
    method Read(buf: array<Byte>, offset: nat) returns (n: nat, failed: bool)
      requires Valid() && offset < buf.Length
      modifies this`pos, this`readCount, buf
      ensures Valid() && pos == old(pos) + n && offset + n <= buf.Length
      ensures n == 0 ==> failed
      ensures failed <==> old(pos) == |stream| || (eager && pos == |stream|)
      ensures buf[..] == old(buf[..offset]) + stream[old(pos)..pos] + old(buf[offset + n..])
    {
      var limit := chunk(readCount);
      readCount := readCount + 1;
      n := if limit == 0 then 1 else limit;
      n := if n > buf.Length - offset then buf.Length - offset else n;
      n := if n > |stream| - pos then |stream| - pos else n;
      failed := pos == |stream| || (eager && pos + n == |stream|);
      forall i | 0 <= i < n {
        buf[offset + i] := stream[pos + i];
      }
      pos := pos + n;
    }
  }

  /** The client's read loop: however the bytes are split, it fills the buffer or
      fails having consumed the whole stream. */
  method ReadFull(conn: Conn, buf: array<Byte>) returns (total: nat, ok: bool)
    requires conn.Valid()
    modifies conn`pos, conn`readCount, buf
    ensures conn.Valid() && conn.sent == old(conn.sent) && conn.writes == old(conn.writes)
    ensures var step := Take(conn.World(), old(conn.Now()), buf.Length);
            && ok == step.Go?
            && conn.Now() == (if ok then step.talk else step.end)
            && (ok ==> total == buf.Length && buf[..] == step.value)
  {
    total := 0;
    while total < buf.Length
      invariant conn.Valid() && total <= buf.Length
      invariant conn.pos == old(conn.pos) + total
      invariant buf[..total] == conn.stream[old(conn.pos)..conn.pos]
      invariant total > 0 && conn.eager ==> conn.pos < |conn.stream|
      decreases buf.Length - total
    {
      var n, failed := conn.Read(buf, total);
      assert buf[..total + n] == conn.stream[old(conn.pos)..conn.pos];
      total := total + n;
      if failed {
        return total, false;
      }
    }
    assert buf[..] == buf[..total];
    return total, true;
  }

  // --------------------------------------------------------------- the client

  class Client {
    const creds: Credentials

    constructor (creds: Credentials)
      ensures this.creds == creds
    {
      this.creds := creds;
    }

    method Authenticate(conn: Conn) returns (failure: Option<Reason>)
      requires conn.Valid()
      modifies conn
      ensures conn.Valid()
      ensures Follows(AuthTalk(conn.World(), old(conn.Now()), creds), failure, conn.Now())
    {
      if |creds.username| > 255 {
        return Some(UsernameTooLong);
      }
      if |creds.password| > 255 {
        return Some(PasswordTooLong);
      }
      var request: Bytes := [0x01];
      request := request + [|creds.username|];
      request := request + creds.username;
      request := request + [|creds.password|];
      request := request + creds.password;
      assert request == AuthRequest(creds);
      var written := conn.Write(request);
      if !written {
        return Some(WriteFailed);
      }
      var resp := new Byte[2](_ => 0);
      var n, ok := ReadFull(conn, resp);
      if !ok {
        return Some(ReadFailed);
      }
      if resp[0] != 0x01 {
        return Some(BadAuthVersion(resp[0]));
      }
      if resp[1] != 0x00 {
        return Some(AuthRejected);
      }
      return None;
    }

    method SendConnectRequest(conn: Conn, target: Target) returns (failure: Option<Reason>)
      requires conn.Valid()
      modifies conn
      ensures conn.Valid()
      ensures Follows(RequestTalk(conn.World(), old(conn.Now()), target), failure, conn.Now())
    {
      if target.BadAddress? {
        return Some(InvalidAddress);
      }
      if target.BadPort? {
        return Some(InvalidPort);
      }
      var request: Bytes := [0x05, 0x01, 0x00];
      match target.dest {
        case IPv4(ip) =>
          request := request + [0x01];
          request := request + ip;
        case IPv6(ip) =>
          request := request + [0x04];
          request := request + ip;
        case Domain(name) =>
          if |name| > 255 {
            return Some(DomainTooLong);
          }
          request := request + [0x03];
          request := request + [|name|];
          request := request + name;
      }
      request := request + [target.port / 256 % 256, target.port % 256];
      assert request == ConnectRequest(target.dest, target.port);
      var written := conn.Write(request);
      return if written then None else Some(WriteFailed);
    }

    method ReadConnectResponse(conn: Conn) returns (failure: Option<Reason>)
      requires conn.Valid()
      modifies conn
      ensures conn.Valid()
      ensures Follows(ReplyTalk(conn.World(), old(conn.Now())), failure, conn.Now())
    {
      var header := new Byte[4](_ => 0);
      var n, ok := ReadFull(conn, header);
      if !ok {
        return Some(ReadFailed);
      }
      if header[0] != 0x05 {
        return Some(BadVersion(header[0]));
      }
      if header[1] != 0x00 {
        return Some(ConnectRefused(header[1]));
      }
      if header[3] == 0x01 {
        var addr := new Byte[4 + 2](_ => 0);
        n, ok := ReadFull(conn, addr);
      } else if header[3] == 0x03 {
        var domainLen := new Byte[1](_ => 0);
        n, ok := ReadFull(conn, domainLen);
        if !ok {
          return Some(ReadFailed);
        }
        var addr := new Byte[domainLen[0] + 2](_ => 0);
        n, ok := ReadFull(conn, addr);
      } else if header[3] == 0x04 {
        var addr := new Byte[16 + 2](_ => 0);
        n, ok := ReadFull(conn, addr);
      } else {
        return Some(UnsupportedAddressType(header[3]));
      }
      return if ok then None else Some(ReadFailed);
    }

    /** Whatever the splitting of the reads, the handshake ends as the dialogue
        function says, with exactly its bytes sent and its bytes consumed. */
    method Handshake(conn: Conn, target: Target) returns (failure: Option<Reason>)
      requires conn.Valid() && conn.Now() == Talk(0, [], 0)
      modifies conn
      ensures conn.Valid()
      ensures Follows(Dialogue(conn.World(), creds, target), failure, conn.Now())
    {
      var greeting: Bytes := [0x05, 0x02, 0x00, 0x02];
      if creds.username == [] && creds.password == [] {
        greeting := [0x05, 0x01, 0x00];
      }
      assert greeting == Greeting(creds);
      var written := conn.Write(greeting);
      if !written {
        return Some(WriteFailed);
      }
      var resp := new Byte[2](_ => 0);
      var n, ok := ReadFull(conn, resp);
      if !ok {
        return Some(ReadFailed);
      }
      if resp[0] != 0x05 {
        return Some(BadVersion(resp[0]));
      }
      match resp[1] {
        case 0x00 =>
        case 0x02 =>
          failure := Authenticate(conn);
          if failure.Some? {
            return;
          }
        case 0xFF =>
          return Some(NoAcceptableMethod);
        case _ =>
          return Some(UnsupportedMethod(resp[1]));
      }
      failure := SendConnectRequest(conn, target);
      if failure.Some? {
        return;
      }
      failure := ReadConnectResponse(conn);
    }
  }

  /** The imperative outcome is the outcome of the dialogue function. */
  ghost predicate Follows(step: Step<()>, failure: Option<Reason>, now: Talk) {
    match step
    case Go(_, talk) => failure == None && now == talk
    case Stop(reason, end) => failure == Some(reason) && now == end
  }
}
