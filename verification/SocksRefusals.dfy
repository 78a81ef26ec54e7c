// How a handshake fails: for every refusal of the SOCKS5 server, every stream that
// ends early and every write that fails, what the client reports, what it has sent
// and what it has consumed.
module SocksRefusals {
  import opened Socks
  import opened SocksPeer

  ghost function TheEnd(step: Step<()>): Talk {
    if step.Go? then step.talk else step.end
  }

  ghost predicate Fits(creds: Credentials) {
    |creds.username| <= 255 && |creds.password| <= 255
  }

  ghost predicate Askable(target: Target) {
    target.Target? && (target.dest.Domain? ==> |target.dest.name| <= 255)
  }

  /** Two bytes that can be read at `pos`. */
  lemma PairAhead(env: Env, pos: nat, a: Byte, b: Byte)
    ensures Ahead(env, pos, [a, b]) <==> pos + 2 <= |env.usable| && env.usable[pos] == a && env.usable[pos + 1] == b
  {
    if pos + 2 <= |env.usable| {
      var both := env.usable[pos..pos + 2];
      assert both[0] == env.usable[pos] && both[1] == env.usable[pos + 1];
      assert both == [both[0], both[1]];
    }
  }

  /** Four bytes that can be read at `pos`. */
  lemma HeaderAhead(env: Env, pos: nat, a: Byte, b: Byte, c: Byte, d: Byte)
    ensures Ahead(env, pos, [a, b, c, d])
            <==> Ahead(env, pos, [a, b]) && Ahead(env, pos + 2, [c, d])
  {
    AheadSplit(env, pos, [a, b], [c, d]);
    assert [a, b] + [c, d] == [a, b, c, d];
  }

  // --------------------------------------------------------- what goes out when

  ghost predicate LoginGoes(env: Env, creds: Credentials) {
    env.writable(0) && Ahead(env, 0, [5, 2]) && Fits(creds) && env.writable(1)
  }

  ghost predicate RequestGoes(env: Env, creds: Credentials, target: Target) {
    && Askable(target) && env.writable(0) && env.writable(1)
    && (Ahead(env, 0, [5, 0]) || (Ahead(env, 0, [5, 2, 1, 0]) && Fits(creds) && env.writable(2)))
  }

  lemma ReplySendsNothing(env: Env, t: Talk)
    ensures TheEnd(ReplyTalk(env, t)).sent == t.sent && TheEnd(ReplyTalk(env, t)).writes == t.writes
  {
  }

  /** Whatever happens, the credentials go out only to a server that chose to ask for
      them, and the destination only after a selection that needs no login or after an
      accepted login; each is sent whole, once and in this order. */
  lemma SentExactly(env: Env, creds: Credentials, target: Target)
    ensures TheEnd(Dialogue(env, creds, target)).sent
            == (if env.writable(0) then Greeting(creds) else [])
               + (if LoginGoes(env, creds) then AuthRequest(creds) else [])
               + (if RequestGoes(env, creds, target) then ConnectRequest(target.dest, target.port) else [])
  {
    hide Greeting, AuthRequest, ConnectRequest, ReplyTalk, Ahead;
    var sent := Greeting(creds);
    Empties(sent);
    PairAhead(env, 0, 5, 0);
    PairAhead(env, 0, 5, 2);
    PairAhead(env, 2, 1, 0);
    HeaderAhead(env, 0, 5, 2, 1, 0);
    if LoginGoes(env, creds) {
      Empties(sent + AuthRequest(creds));
    }
    forall t: Talk
      ensures TheEnd(ReplyTalk(env, t)).sent == t.sent
    {
      ReplySendsNothing(env, t);
    }
  }

  lemma Empties(b: Bytes)
    ensures [] + b == b && b + [] == b
  {
  }

  // ----------------------------------------------------- before the destination

  /** The greeting cannot be written: nothing was sent and nothing read. */
  lemma GreetingUnwritten(env: Env, creds: Credentials, target: Target)
    requires !env.writable(0)
    ensures Dialogue(env, creds, target) == Stop(WriteFailed, Talk(0, [], 1))
  {
  }

  /** The server's selection: too short, of another version, no acceptable method or
      an unknown one. Only the greeting has gone out. */
  lemma SelectionRefused(env: Env, creds: Credentials, target: Target, a: Byte, b: Byte)
    requires env.writable(0)
    ensures |env.usable| < 2 ==> Dialogue(env, creds, target) == Stop(ReadFailed, Talk(env.total, Greeting(creds), 1))
    ensures Ahead(env, 0, [a, b]) && a != 5 ==>
              Dialogue(env, creds, target) == Stop(BadVersion(a), Talk(2, Greeting(creds), 1))
    ensures Ahead(env, 0, [5, 255]) ==>
              Dialogue(env, creds, target) == Stop(NoAcceptableMethod, Talk(2, Greeting(creds), 1))
    ensures Ahead(env, 0, [5, b]) && b !in [0, 2, 255] ==>
              Dialogue(env, creds, target) == Stop(UnsupportedMethod(b), Talk(2, Greeting(creds), 1))
  {
    hide Greeting, AuthRequest, ConnectRequest, ReplyTalk, Ahead;
    assert [] + Greeting(creds) == Greeting(creds);
    PairAhead(env, 0, a, b);
    PairAhead(env, 0, 5, b);
    PairAhead(env, 0, 5, 255);
  }

  /** The server asks for a login. Credentials that are too long are never sent; the
      login may be unwritable, unanswered, of another version or rejected. */
  lemma LoginRefused(env: Env, creds: Credentials, target: Target, a: Byte, b: Byte)
    requires env.writable(0) && Ahead(env, 0, [5, 2])
    ensures |creds.username| > 255 ==>
              Dialogue(env, creds, target) == Stop(UsernameTooLong, Talk(2, Greeting(creds), 1))
    ensures |creds.username| <= 255 < |creds.password| ==>
              Dialogue(env, creds, target) == Stop(PasswordTooLong, Talk(2, Greeting(creds), 1))
    ensures Fits(creds) && !env.writable(1) ==>
              Dialogue(env, creds, target) == Stop(WriteFailed, Talk(2, Greeting(creds), 2))
    ensures Fits(creds) && env.writable(1) && |env.usable| < 4 ==>
              Dialogue(env, creds, target)
              == Stop(ReadFailed, Talk(env.total, Greeting(creds) + AuthRequest(creds), 2))
    ensures Fits(creds) && env.writable(1) && Ahead(env, 2, [a, b]) && a != 1 ==>
              Dialogue(env, creds, target)
              == Stop(BadAuthVersion(a), Talk(4, Greeting(creds) + AuthRequest(creds), 2))
    ensures Fits(creds) && env.writable(1) && Ahead(env, 2, [1, b]) && b != 0 ==>
              Dialogue(env, creds, target)
              == Stop(AuthRejected, Talk(4, Greeting(creds) + AuthRequest(creds), 2))
  {
    hide Greeting, AuthRequest, ConnectRequest, ReplyTalk, Ahead;
    assert [] + Greeting(creds) == Greeting(creds);
    PairAhead(env, 0, 5, 2);
    PairAhead(env, 2, a, b);
    PairAhead(env, 2, 1, b);
  }

  // ------------------------------------------------------------ the destination

  /** The server lets the client in: without a login, or after an accepted one. */
  ghost predicate LetIn(env: Env, creds: Credentials, method_: Byte) {
    && env.writable(0)
    && ((method_ == 0 && Ahead(env, 0, [5, 0]))
        || (method_ == 2 && Ahead(env, 0, [5, 2, 1, 0]) && Fits(creds) && env.writable(1)))
  }

  ghost function LetInBytes(method_: Byte): nat {
    if method_ == 2 then 4 else 2
  }

  ghost function LetInSent(creds: Credentials, method_: Byte): Bytes
    requires method_ == 2 ==> Fits(creds)
  {
    Greeting(creds) + if method_ == 2 then AuthRequest(creds) else []
  }

  ghost function LetInWrites(method_: Byte): nat {
    if method_ == 2 then 2 else 1
  }

  lemma LetInThen(env: Env, creds: Credentials, target: Target, method_: Byte)
    requires LetIn(env, creds, method_)
    ensures Dialogue(env, creds, target)
            == FinishTalk(env, Talk(LetInBytes(method_), LetInSent(creds, method_), LetInWrites(method_)), target)
  {
    hide Greeting, AuthRequest, ConnectRequest, ReplyTalk, Ahead, FinishTalk;
    assert [] + Greeting(creds) == Greeting(creds);
    assert Greeting(creds) + [] == Greeting(creds);
    PairAhead(env, 0, 5, method_);
    PairAhead(env, 2, 1, 0);
    HeaderAhead(env, 0, 5, 2, 1, 0);
  }

  /** A target that cannot be asked for is found out only now, after the greeting and
      the login; nothing of it goes out. */
  lemma TargetRefused(env: Env, creds: Credentials, target: Target, method_: Byte)
    requires LetIn(env, creds, method_)
    ensures !Askable(target) ==>
              Dialogue(env, creds, target)
              == Stop(if target.BadAddress? then InvalidAddress
                      else if target.BadPort? then InvalidPort else DomainTooLong,
                      Talk(LetInBytes(method_), LetInSent(creds, method_), LetInWrites(method_)))
    ensures Askable(target) && !env.writable(LetInWrites(method_)) ==>
              Dialogue(env, creds, target)
              == Stop(WriteFailed, Talk(LetInBytes(method_), LetInSent(creds, method_), LetInWrites(method_) + 1))
  {
    LetInThen(env, creds, target, method_);
    hide Dialogue, Ahead;
  }

  // ------------------------------------------------------------------ the reply

  /** The CONNECT request is out, and the server's reply is next. */
  ghost predicate Asked(env: Env, creds: Credentials, target: Target, method_: Byte) {
    LetIn(env, creds, method_) && Askable(target) && env.writable(LetInWrites(method_))
  }

  /** How a handshake fails once all has been sent. */
  ghost predicate FailsAfterRequest(env: Env, creds: Credentials, target: Target, method_: Byte,
                                    reason: Reason, consumed: nat)
    requires Asked(env, creds, target, method_)
  {
    Dialogue(env, creds, target)
    == Stop(reason, Talk(consumed, LetInSent(creds, method_) + ConnectRequest(target.dest, target.port),
                         LetInWrites(method_) + 1))
  }

  lemma AskedThen(env: Env, creds: Credentials, target: Target, method_: Byte) returns (t: Talk)
    requires Asked(env, creds, target, method_)
    ensures t == Talk(LetInBytes(method_), LetInSent(creds, method_) + ConnectRequest(target.dest, target.port),
                      LetInWrites(method_) + 1)
    ensures Dialogue(env, creds, target) == ReplyTalk(env, t)
  {
    LetInThen(env, creds, target, method_);
    t := Talk(LetInBytes(method_), LetInSent(creds, method_) + ConnectRequest(target.dest, target.port),
              LetInWrites(method_) + 1);
    hide Dialogue, Ahead, ReplyTalk;
  }

  /** The reply's first four bytes: cut short, of another version, a refusal, whose
      code is reported before the rest is looked at, or an unknown address type. */
  lemma ConnectionRefused(env: Env, creds: Credentials, target: Target, method_: Byte,
                          version: Byte, code: Byte, reserved: Byte, atyp: Byte)
    requires Asked(env, creds, target, method_)
    ensures |env.usable| < LetInBytes(method_) + 4 ==>
              FailsAfterRequest(env, creds, target, method_, ReadFailed, env.total)
    ensures Ahead(env, LetInBytes(method_), [version, code, reserved, atyp]) ==>
              && (version != 5 ==>
                    FailsAfterRequest(env, creds, target, method_, BadVersion(version), LetInBytes(method_) + 4))
              && (version == 5 && code != 0 ==>
                    FailsAfterRequest(env, creds, target, method_, ConnectRefused(code), LetInBytes(method_) + 4))
              && (version == 5 && code == 0 && atyp !in [1, 3, 4] ==>
                    FailsAfterRequest(env, creds, target, method_, UnsupportedAddressType(atyp),
                                      LetInBytes(method_) + 4))
  {
    var t := AskedThen(env, creds, target, method_);
    var pos := LetInBytes(method_);
    PairAhead(env, pos, version, code);
    PairAhead(env, pos + 2, reserved, atyp);
    HeaderAhead(env, pos, version, code, reserved, atyp);
    hide Dialogue, Ahead, LetIn, LetInSent, ConnectRequest;
  }

  /** How many bytes of bound address and port follow a positive header. */
  ghost function BoundLength(env: Env, pos: nat, atyp: Byte): nat {
    if atyp == 1 then 6
    else if atyp == 4 then 18
    else if pos < |env.usable| then 1 + env.usable[pos] as int + 2
    else 1
  }

  lemma BoundFails(env: Env, t: Talk, atyp: Byte)
    requires atyp in [1, 3, 4]
    ensures BoundTalk(env, t, atyp).Stop? <==> |env.usable| < t.pos + BoundLength(env, t.pos, atyp)
    ensures BoundTalk(env, t, atyp).Stop? ==> BoundTalk(env, t, atyp) == Stop(ReadFailed, t.(pos := env.total))
  {
  }

  /** A positive reply fails exactly when its bound address is cut short. */
  lemma AddressCutShort(env: Env, creds: Credentials, target: Target, method_: Byte, reserved: Byte, atyp: Byte)
    requires Asked(env, creds, target, method_) && atyp in [1, 3, 4]
    requires Ahead(env, LetInBytes(method_), [5, 0, reserved, atyp])
    ensures var pos := LetInBytes(method_) + 4;
            Dialogue(env, creds, target).Stop? <==> |env.usable| < pos + BoundLength(env, pos, atyp)
    ensures Dialogue(env, creds, target).Stop? ==>
              FailsAfterRequest(env, creds, target, method_, ReadFailed, env.total)
  {
    var t := AskedThen(env, creds, target, method_);
    var pos := LetInBytes(method_);
    PairAhead(env, pos, 5, 0);
    PairAhead(env, pos + 2, reserved, atyp);
    HeaderAhead(env, pos, 5, 0, reserved, atyp);
    hide Dialogue, Ahead, LetIn, LetInSent, ConnectRequest, BoundTalk, BoundLength;
    BoundFails(env, t.(pos := pos + 4), atyp);
  }
}
