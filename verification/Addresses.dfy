// Upstream configurations and the three strings made of them: the dedup key, the
// "host:port" address, and the host and port read back from an address.
module Addresses {

  datatype Option<T> = None | Some(value: T)

  // Go's int on the 64-bit platforms the program is built for.
  type GoInt = n: int | -0x8000_0000_0000_0000 <= n <= 0x7FFF_FFFF_FFFF_FFFF

  datatype SSConfig = SSConfig(server: string, port: GoInt, password: string, method_: string) {

    function Key(): string {
      server + ":" + Decimal(port) + ":" + password + ":" + method_
    }

    /** The address under which rotator, dead list and blacklist know the server. */
    function Addr(): string {
      server + ":" + Decimal(port)
    }
  }

  // ------------------------------------------------------------ decimal numbers

  function Digit(d: nat): char
    requires d < 10
  {
    '0' + d as char
  }

  function Digits(n: nat): string {
    if n < 10 then [Digit(n)] else Digits(n / 10) + [Digit(n % 10)]
  }

  function Decimal(n: int): string {
    if n < 0 then "-" + Digits(-n) else Digits(n)
  }

  predicate IsDigit(c: char) {
    '0' <= c <= '9'
  }

  function ReadDigits(s: string): Option<nat> {
    if s == [] then None
    else if !IsDigit(s[|s| - 1]) then None
    else
      var d := (s[|s| - 1] - '0') as nat;
      if |s| == 1 then Some(d)
      else match ReadDigits(s[..|s| - 1])
        case None => None
        case Some(n) => Some(10 * n + d)
  }

  /** `strconv.Atoi`: an optional sign, then digits only, and the value must fit. */
  function Atoi(s: string): Option<GoInt> {
    var negative := s != [] && s[0] == '-';
    var digits := if s != [] && (s[0] == '-' || s[0] == '+') then s[1..] else s;
    match ReadDigits(digits)
    case None => None
    case Some(n) =>
      var value: int := if negative then -(n as int) else n;
      if -0x8000_0000_0000_0000 <= value <= 0x7FFF_FFFF_FFFF_FFFF then Some(value) else None
  }

  lemma {:induction false} DigitsRoundTrip(n: nat)
    ensures ReadDigits(Digits(n)) == Some(n)
    ensures Digits(n) != [] && forall c :: c in Digits(n) ==> IsDigit(c)
  {
    if n >= 10 {
      DigitsRoundTrip(n / 10);
      assert Digits(n)[..|Digits(n)| - 1] == Digits(n / 10);
    }
  }

  ghost function Zeros(k: nat): string {
    seq(k, _ => '0')
  }

  /** A number is read from its digits with any number of zeros in front, and from
      nothing else. */
  lemma {:induction false} NumberExactly(s: string, n: nat)
    ensures ReadDigits(s) == Some(n) <==> exists k: nat :: s == Zeros(k) + Digits(n)
  {
    if ReadDigits(s) == Some(n) {
      var k := ReadFrom(s, n);
    }
    if k: nat :| s == Zeros(k) + Digits(n) {
      DigitsRoundTrip(n);
      ZerosDoNotCount(k, Digits(n));
    }
  }

  lemma {:induction false} ReadFrom(s: string, n: nat) returns (k: nat)
    requires ReadDigits(s) == Some(n)
    ensures s == Zeros(k) + Digits(n)
  {
    var init, last := s[..|s| - 1], s[|s| - 1];
    if |s| == 1 {
      k := 0;
      assert s == Zeros(0) + [last];
    } else {
      var m := ReadDigits(init).value;
      k := ReadFrom(init, m);
      assert s == init + [last] && Digits(n) == if m == 0 then [last] else Digits(m) + [last];
      k := if m == 0 then k + 1 else k;
    }
  }

  lemma {:induction false} ZerosDoNotCount(k: nat, x: string)
    requires x != ""
    ensures ReadDigits(Zeros(k) + x) == ReadDigits(x)
  {
    var s, n := Zeros(k) + x, |x| - 1;
    if k == 0 {
      assert s == x;
    } else {
      if n > 0 {
        assert s[..|s| - 1] == Zeros(k) + x[..n];
        ZerosDoNotCount(k, x[..n]);
      } else {
        assert s[..|s| - 1] == Zeros(k);
        OnlyZeros(k);
      }
    }
  }

  lemma {:induction false} OnlyZeros(k: nat)
    requires k > 0
    ensures ReadDigits(Zeros(k)) == Some(0)
  {
    if k > 1 {
      assert Zeros(k)[..k - 1] == Zeros(k - 1);
      OnlyZeros(k - 1);
    }
  }

  /** The spellings of a number: a sign that fits it or none, zeros, and its digits. */
  ghost predicate Spells(s: string, n: int, k: nat) {
    || (n >= 0 && (s == Zeros(k) + Digits(n) || s == "+" + (Zeros(k) + Digits(n))))
    || (n <= 0 && s == "-" + (Zeros(k) + Digits(-n)))
  }

  ghost function Unsigned(s: string): string {
    if s != [] && (s[0] == '-' || s[0] == '+') then s[1..] else s
  }

  ghost predicate FitsSign(s: string, n: int) {
    if s != [] && s[0] == '-' then n <= 0 else n >= 0
  }

  lemma AtoiExactly(s: string, n: GoInt)
    ensures Atoi(s) == Some(n) <==> exists k: nat :: Spells(s, n, k)
  {
    var m: int := n;
    var size: nat := if m < 0 then -m else m;
    assert Atoi(s) == Some(n) <==> ReadDigits(Unsigned(s)) == Some(size) && FitsSign(s, m) by {
      hide ReadDigits;
    }
    NumberExactly(Unsigned(s), size);
    hide *;
    forall k: nat
      ensures Spells(s, m, k) <==> Unsigned(s) == Zeros(k) + Digits(size) && FitsSign(s, m)
    {
      SpellsIs(s, m, k);
    }
  }

  lemma SpellsIs(s: string, n: int, k: nat)
    ensures Spells(s, n, k) <==> Unsigned(s) == Zeros(k) + Digits(if n < 0 then -n else n) && FitsSign(s, n)
  {
    var size := if n < 0 then -n else n;
    var digits := Zeros(k) + Digits(size);
    DigitsRoundTrip(size);
    assert Digits(size)[0] in Digits(size);
    hide Digits;
    assert digits[0] !in "+-" && ("+" + digits)[1..] == digits && ("-" + digits)[1..] == digits;
    if s != [] && (s[0] == '-' || s[0] == '+') {
      assert s == [s[0]] + s[1..];
    }
  }

  lemma NatRoundTrip(n: nat)
    requires n <= 0x7FFF_FFFF_FFFF_FFFF
    ensures Atoi(Digits(n)) == Some(n)
  {
    DigitsRoundTrip(n);
    assert Digits(n)[0] in Digits(n);
  }

  lemma NegativeRoundTrip(n: nat)
    requires 0 < n <= 0x8000_0000_0000_0000
    ensures Atoi("-" + Digits(n)) == Some(-(n as int))
  {
    DigitsRoundTrip(n);
    assert ("-" + Digits(n))[1..] == Digits(n);
  }

  lemma DecimalRoundTrip(n: GoInt)
    ensures Atoi(Decimal(n)) == Some(n)
    ensures Decimal(n) != [] && forall c :: c in Decimal(n) ==> IsDigit(c) || c == '-'
  {
    hide Atoi, Digits, IsDigit;
    if n < 0 {
      NegativeRoundTrip(-(n as int));
      DigitsRoundTrip(-(n as int));
    } else {
      NatRoundTrip(n);
      DigitsRoundTrip(n);
    }
  }

  // ---------------------------------------------------------------- dedup keys

  /** The first position of `c`, or the length when there is none. */
  function IndexOf(s: string, c: char): (i: nat)
    ensures i <= |s| && c !in s[..i] && (i < |s| ==> s[i] == c)
    ensures i == |s| <==> c !in s
  {
    if s == [] || s[0] == c then 0 else 1 + IndexOf(s[1..], c)
  }

  /** One past the last position of `c`, or 0 when there is none. */
  function AfterLast(s: string, c: char): (i: nat)
    ensures i <= |s| && c !in s[i..] && (i > 0 ==> s[i - 1] == c)
  {
    if s == [] then 0
    else if s[|s| - 1] == c then |s|
    else AfterLast(s[..|s| - 1], c)
  }

  lemma {:induction false} IndexAfterPrefix(a: string, c: char, x: string)
    requires c !in a
    ensures IndexOf(a + [c] + x, c) == |a|
  {
    if a != [] {
      assert (a + [c] + x)[1..] == a[1..] + [c] + x;
      IndexAfterPrefix(a[1..], c, x);
    }
  }

  lemma {:induction false} LastBeforeSuffix(x: string, c: char, a: string)
    requires c !in a
    ensures AfterLast(x + [c] + a, c) == |x| + 1
  {
    if a != [] {
      var init := a[..|a| - 1];
      assert (x + [c] + a)[..|x| + |a|] == x + [c] + init;
      LastBeforeSuffix(x, c, init);
    }
  }

  lemma SplitAtFirstColon(a: string, x: string, b: string, y: string)
    requires ':' !in a && ':' !in b
    requires a + ":" + x == b + ":" + y
    ensures a == b && x == y
  {
    var s := a + ":" + x;
    IndexAfterPrefix(a, ':', x);
    IndexAfterPrefix(b, ':', y);
    assert a == s[..|a|] && x == s[|a| + 1..];
    assert b == s[..|b|] && y == s[|b| + 1..];
  }

  lemma SplitAtLastColon(x: string, a: string, y: string, b: string)
    requires ':' !in a && ':' !in b
    requires x + ":" + a == y + ":" + b
    ensures x == y && a == b
  {
    var s := x + ":" + a;
    LastBeforeSuffix(x, ':', a);
    LastBeforeSuffix(y, ':', b);
    assert x == s[..|x|] && a == s[|x| + 1..];
    assert y == s[..|y|] && b == s[|y| + 1..];
  }

  /** Equal keys mean equal configurations, whatever the passwords contain. */
  lemma KeyInjective(c: SSConfig, d: SSConfig)
    requires ':' !in c.server && ':' !in d.server
    requires ':' !in c.method_ && ':' !in d.method_
    ensures c.Key() == d.Key() <==> c == d
  {
    if c.Key() == d.Key() {
      DecimalRoundTrip(c.port);
      DecimalRoundTrip(d.port);
      hide Decimal, Atoi;
      FourParts(c.server, Decimal(c.port), c.password, c.method_, d.server, Decimal(d.port), d.password, d.method_);
    }
  }

  lemma FourParts(a: string, b: string, c: string, d: string, a': string, b': string, c': string, d': string)
    requires ':' !in a && ':' !in b && ':' !in d && ':' !in a' && ':' !in b' && ':' !in d'
    requires a + ":" + b + ":" + c + ":" + d == a' + ":" + b' + ":" + c' + ":" + d'
    ensures a == a' && b == b' && c == c' && d == d'
  {
    var rest, rest' := c + ":" + d, c' + ":" + d';
    assert a + ":" + (b + ":" + rest) == a + ":" + b + ":" + c + ":" + d;
    assert a' + ":" + (b' + ":" + rest') == a' + ":" + b' + ":" + c' + ":" + d';
    SplitAtFirstColon(a, b + ":" + rest, a', b' + ":" + rest');
    SplitAtFirstColon(b, rest, b', rest');
    SplitAtLastColon(c, d, c', d');
  }

  /** Two pairs of different servers with the same key; the hosts of the first pair are
      IPv6 addresses. */
  lemma KeyCollisions()
    ensures var c, d := SSConfig("::1:2", 3, "p", "m"), SSConfig("::1", 2, "3:p", "m");
            c != d && c.Key() == d.Key()
    ensures var c, d := SSConfig("a", 1, "p", "q:m"), SSConfig("a", 1, "p:q", "m");
            c != d && c.Key() == d.Key()
  {
    assert Decimal(1) == "1" && Decimal(2) == "2" && Decimal(3) == "3";
    assert SSConfig("::1:2", 3, "p", "m").Key() == "::1:2:3:p:m";
    assert SSConfig("::1", 2, "3:p", "m").Key() == "::1:2:3:p:m";
    assert SSConfig("a", 1, "p", "q:m").Key() == "a:1:p:q:m";
    assert SSConfig("a", 1, "p:q", "m").Key() == "a:1:p:q:m";
  }

  /** The host goes on like an address: some prefix of it ends in a colon and a port
      number, and then comes its end or another colon. */
  ghost predicate LooksOn(host: string, a: string, n: GoInt) {
    host == a + ":" + Decimal(n) || a + ":" + Decimal(n) + ":" <= host
  }

  /** Another configuration has the same key if and only if there is a colon in the
      method or in the password, or the host looks like an address itself. */
  lemma KeyShared(c: SSConfig)
    ensures (exists d: SSConfig :: d != c && d.Key() == c.Key())
            <==> ':' in c.method_ || ':' in c.password || exists a, n: GoInt :: LooksOn(c.server, a, n)
  {
    if ':' in c.method_ || ':' in c.password {
      var d := SharesByColon(c);
    } else if a, n: GoInt :| LooksOn(c.server, a, n) {
      var d := SharesByHost(c, a, n);
    } else if d: SSConfig :| d != c && d.Key() == c.Key() {
      HostMustLookOn(c, d);
      assert false;
    }
  }

  lemma SharesByColon(c: SSConfig) returns (d: SSConfig)
    requires ':' in c.method_ || ':' in c.password
    ensures d != c && d.Key() == c.Key()
  {
    hide Decimal;
    if ':' in c.method_ {
      var k :| 0 <= k < |c.method_| && c.method_[k] == ':';
      d := c.(password := c.password + ":" + c.method_[..k], method_ := c.method_[k + 1..]);
      assert c.method_ == c.method_[..k] + ":" + c.method_[k + 1..];
      Regroup(c.password, c.method_[..k], c.method_[k + 1..]);
    } else {
      var k :| 0 <= k < |c.password| && c.password[k] == ':';
      d := c.(password := c.password[..k], method_ := c.password[k + 1..] + ":" + c.method_);
      assert c.password == c.password[..k] + ":" + c.password[k + 1..];
      Regroup(c.password[..k], c.password[k + 1..], c.method_);
    }
    KeyFront(c);
    KeyFront(d);
    hide SSConfig.Key;
  }

  lemma KeyFront(c: SSConfig)
    ensures c.Key() == (c.server + ":" + Decimal(c.port) + ":") + (c.password + ":" + c.method_)
  {
    hide Decimal;
  }

  lemma Regroup(x: string, y: string, z: string)
    ensures x + ":" + (y + ":" + z) == (x + ":" + y) + ":" + z
  {
  }

  lemma SharesByHost(c: SSConfig, a: string, n: GoInt) returns (d: SSConfig)
    requires LooksOn(c.server, a, n)
    ensures d != c && d.Key() == c.Key()
  {
    hide Decimal;
    var front, back := a + ":" + Decimal(n), Decimal(c.port) + ":" + c.password;
    if c.server == front {
      d := SSConfig(a, n, back, c.method_);
      assert d.Key() == front + ":" + back + ":" + c.method_;
    } else {
      var rest := c.server[|front| + 1..];
      assert c.server == front + ":" + rest;
      d := SSConfig(a, n, rest + ":" + back, c.method_);
      assert d.Key() == front + ":" + (rest + ":" + back) + ":" + c.method_;
    }
    assert |d.server| < |c.server|;
  }

  lemma NoColonInDecimal(n: GoInt)
    ensures ':' !in Decimal(n)
  {
    DecimalRoundTrip(n);
  }

  /** Where the key of `d` has its first separator, so has the key of `c`. */
  lemma HostMustLookOn(c: SSConfig, d: SSConfig)
    requires d != c && d.Key() == c.Key()
    requires ':' !in c.method_ && ':' !in c.password
    ensures LooksOn(c.server, d.server, d.port)
  {
    NoColonInDecimal(c.port);
    NoColonInDecimal(d.port);
    var key, n, digits := c.Key(), |d.server|, Decimal(d.port);
    hide Decimal;
    var front := d.server + ":" + digits;
    assert key == front + ":" + (d.password + ":" + d.method_);
    assert key == c.server + ":" + (Decimal(c.port) + ":" + c.password + ":" + c.method_);
    forall i | n < i < |front| ensures key[i] != ':' {
      assert key[i] == digits[i - n - 1] && digits[i - n - 1] in digits;
    }
    if n < |c.server| {
      assert key[|front|] == ':' && key[|c.server|] == ':';
      assert |front| <= |c.server|;
      assert front == key[..|front|] && c.server == key[..|c.server|];
      if |front| < |c.server| {
        assert front + ":" == key[..|front| + 1];
      }
    } else {
      assert c.server == key[..|c.server|];
      NoOtherReading(c, d);
      assert false;
    }
  }

  /** A host that is no shorter leaves no room for another reading. */
  lemma NoOtherReading(c: SSConfig, d: SSConfig)
    requires d.Key() == c.Key() && |d.server| >= |c.server|
    requires ':' !in c.method_ && ':' !in c.password
    ensures d == c
  {
    NoColonInDecimal(c.port);
    NoColonInDecimal(d.port);
    DecimalRoundTrip(c.port);
    DecimalRoundTrip(d.port);
    hide Decimal, Atoi;
    var digits, digits' := Decimal(c.port), Decimal(d.port);
    var c1, d1 := |c.server| + 1 + |digits|, |d.server| + 1 + |digits'|;
    var c2, d2 := c1 + 1 + |c.password|, d1 + 1 + |d.password|;
    var key := c.Key();
    KeyParts(c);
    KeyParts(d);
    forall i | |c.server| < i < |key| && i != c1 && i != c2 ensures key[i] != ':' {
      if i < c1 {
        assert key[i] == digits[i - |c.server| - 1] && digits[i - |c.server| - 1] in digits;
      } else if i < c2 {
        assert key[i] == c.password[i - c1 - 1] && c.password[i - c1 - 1] in c.password;
      } else {
        assert key[i] == c.method_[i - c2 - 1] && c.method_[i - c2 - 1] in c.method_;
      }
    }
    hide SSConfig.Key;
    assert key[|d.server|] == key[d1] == key[d2] == ':';
    assert |d.server| == |c.server| && d1 == c1 && d2 == c2;
    assert d.server == c.server && digits' == digits;
    assert d.password == c.password && d.method_ == c.method_;
  }

  /** Where the parts of a key are. */
  lemma KeyParts(c: SSConfig)
    ensures var n := |c.server| + 1 + |Decimal(c.port)|;
            var k := n + 1 + |c.password|;
            && |c.Key()| == k + 1 + |c.method_|
            && c.Key()[..|c.server|] == c.server && c.Key()[|c.server|] == ':'
            && c.Key()[|c.server| + 1..n] == Decimal(c.port) && c.Key()[n] == ':'
            && c.Key()[n + 1..k] == c.password && c.Key()[k] == ':'
            && c.Key()[k + 1..] == c.method_
  {
    hide Decimal;
  }

  // ----------------------------------------------------------------- addresses

  /** `net.SplitHostPort`. */
  function SplitHostPort(hostport: string): Option<(string, string)> {
    var colon := AfterLast(hostport, ':');
    if colon == 0 then None
    else if hostport[0] == '[' then
      var end := IndexOf(hostport, ']');
      if end == |hostport| || end + 1 != colon - 1 then None
      else if '[' in hostport[1..] || ']' in hostport[end + 1..] then None
      else Some((hostport[1..end], hostport[colon..]))
    else if ':' in hostport[..colon - 1] then None
    else if '[' in hostport || ']' in hostport then None
    else Some((hostport[..colon - 1], hostport[colon..]))
  }

  predicate NoBrackets(s: string) {
    '[' !in s && ']' !in s
  }

  /** What can be split: a plain host, or a host in brackets, in both cases with one
      colon and a text without any colon or bracket behind it. */
  lemma SplitExactly(hostport: string, host: string, port: string)
    ensures SplitHostPort(hostport) == Some((host, port))
            <==> && NoBrackets(host) && NoBrackets(port) && ':' !in port
                 && (hostport == "[" + host + "]:" + port || (':' !in host && hostport == host + ":" + port))
  {
    if SplitHostPort(hostport) == Some((host, port)) {
      SplitWas(hostport, host, port);
    }
    if NoBrackets(host) && NoBrackets(port) && ':' !in port {
      if hostport == "[" + host + "]:" + port {
        SplitBracketed(host, port);
      } else if ':' !in host && hostport == host + ":" + port {
        SplitPlain(host, port);
      }
    }
    hide SplitHostPort;
  }

  lemma SplitWas(hostport: string, host: string, port: string)
    requires SplitHostPort(hostport) == Some((host, port))
    ensures NoBrackets(host) && NoBrackets(port) && ':' !in port
    ensures hostport == "[" + host + "]:" + port || (':' !in host && hostport == host + ":" + port)
  {
    var colon, end := AfterLast(hostport, ':'), IndexOf(hostport, ']');
    if hostport[0] == '[' {
      assert end + 2 == colon && hostport[end] == ']' && hostport[end + 1] == ':';
      Brackets(hostport, end);
      assert hostport == "[" + hostport[1..end] + "]:" + hostport[colon..];
    } else {
      assert hostport == hostport[..colon - 1] + ":" + hostport[colon..];
    }
  }

  lemma Brackets(s: string, end: nat)
    requires 0 < end < |s| - 1 && '[' !in s[1..] && ']' !in s[..end] && ']' !in s[end + 1..]
    ensures NoBrackets(s[1..end]) && NoBrackets(s[end + 2..])
  {
  }

  lemma SplitBracketed(host: string, port: string)
    requires NoBrackets(host) && NoBrackets(port) && ':' !in port
    ensures SplitHostPort("[" + host + "]:" + port) == Some((host, port))
  {
    var s, front := "[" + host + "]:" + port, "[" + host + "]";
    LastBeforeSuffix(front, ':', port);
    IndexAfterPrefix("[" + host, ']', ":" + port);
    hide SplitHostPort, AfterLast, IndexOf, NoBrackets;
    assert s == front + [':'] + port && |front| == |host| + 2;
    assert s == "[" + host + [']'] + (":" + port);
    BracketParts(s, host, port);
    BracketedIs(s, |host| + 1);
  }

  lemma BracketParts(s: string, host: string, port: string)
    requires NoBrackets(host) && NoBrackets(port) && s == "[" + host + "]:" + port
    ensures var end := |host| + 1;
            && |s| == end + 2 + |port| && s[0] == '[' && s[1..end] == host && s[end + 2..] == port
            && '[' !in s[1..] && ']' !in s[end + 1..]
  {
    assert s[1..] == host + "]:" + port;
    assert s[|host| + 2..] == ":" + port;
  }

  lemma BracketedIs(s: string, end: nat)
    requires 0 < end < |s| - 1 && s[0] == '[' && '[' !in s[1..] && ']' !in s[end + 1..]
    requires AfterLast(s, ':') == end + 2 && IndexOf(s, ']') == end
    ensures SplitHostPort(s) == Some((s[1..end], s[end + 2..]))
  {
    hide AfterLast, IndexOf;
  }

  lemma SplitPlain(host: string, port: string)
    requires NoBrackets(host) && ':' !in host && NoBrackets(port) && ':' !in port
    ensures SplitHostPort(host + ":" + port) == Some((host, port))
  {
    var s := host + ":" + port;
    LastBeforeSuffix(host, ':', port);
    assert s == host + [':'] + port;
    assert s[..|host|] == host && s[|host| + 1..] == port;
    assert s[0] != '[';
    hide AfterLast, IndexOf;
  }

  /** The host and port under which the pool looks an address up. */
  function ParseAddr(addr: string): Option<(string, GoInt)> {
    match SplitHostPort(addr)
    case None => None
    case Some((host, portText)) =>
      match Atoi(portText)
      case None => None
      case Some(port) => Some((host, port))
  }

  predicate PlainHost(host: string) {
    ':' !in host && '[' !in host && ']' !in host
  }

  /** An address made from a configuration leads back to its host and port exactly
      for plain hosts. An IPv6 host never does. */
  lemma AddrRoundTrip(c: SSConfig)
    ensures ParseAddr(c.Addr()) == Some((c.server, c.port)) <==> PlainHost(c.server)
  {
    var digits := Decimal(c.port);
    DecimalRoundTrip(c.port);
    LastBeforeSuffix(c.server, ':', digits);
    SplitOfAddr(c.server, digits);
  }

  lemma SplitOfAddr(host: string, digits: string)
    requires AfterLast(host + ":" + digits, ':') == |host| + 1
    requires ':' !in digits && '[' !in digits && ']' !in digits
    ensures PlainHost(host) ==> SplitHostPort(host + ":" + digits) == Some((host, digits))
    ensures !PlainHost(host) ==>
      match SplitHostPort(host + ":" + digits) case None => true case Some((h, _)) => |h| < |host|
  {
    var addr := host + ":" + digits;
    assert addr[..|host|] == host && addr[|host| + 1..] == digits;
    assert forall ch :: ch in addr <==> ch in host || ch == ':' || ch in digits;
    assert host != [] ==> addr[0] == host[0];
  }
}
