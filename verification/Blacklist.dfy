// The permanent blacklist of IPs. Which IP an address stands for is decided by
// library parsing, so it is a parameter: "" when the address names no IP.
module Blacklists {

  /** A blacklist as a value: every port of a listed IP is blocked. */
  datatype Verdicts = Verdicts(entries: set<string>, ipOf: string -> string) {
    predicate Blocks(addr: string) {
      ipOf(addr) != "" && ipOf(addr) in entries
    }

    /** With the address's IP, if it has one. */
    ghost function With(addr: string): Verdicts {
      this.(entries := entries + if ipOf(addr) == "" then {} else {ipOf(addr)})
    }
  }

  const NOBODY := Verdicts({}, (addr: string) => "")

  /** Blacklisting an address blocks every address of its IP, on any port, and changes
      nothing for the others; an address without an IP blocks nobody. */
  lemma BlocksAfterAdding(v: Verdicts, a: string, b: string)
    ensures v.With(a).Blocks(b) <==> v.Blocks(b) || (v.ipOf(a) != "" && v.ipOf(b) == v.ipOf(a))
  {
  }

  lemma EmptyBlocksNobody(v: Verdicts, b: string)
    requires v.entries == {}
    ensures !v.Blocks(b) && !NOBODY.Blocks(b)
  {
  }

  /** After any blacklisting, in any order: blocked is who was blocked before, and who
      shares an IP with one of the blacklisted. */
  lemma {:induction false} BlocksExactly(v: Verdicts, blamed: seq<string>, b: string)
    ensures WithAll(v, blamed).ipOf == v.ipOf
    ensures WithAll(v, blamed).Blocks(b)
            <==> v.Blocks(b) || exists a :: a in blamed && v.ipOf(a) != "" && v.ipOf(b) == v.ipOf(a)
  {
    if blamed != [] {
      var n := |blamed| - 1;
      BlocksExactly(v, blamed[..n], b);
      BlocksAfterAdding(WithAll(v, blamed[..n]), blamed[n], b);
      hide Verdicts.Blocks;
      assert blamed == blamed[..n] + [blamed[n]];
    }
  }

  ghost function WithAll(v: Verdicts, blamed: seq<string>): Verdicts {
    if blamed == [] then v else WithAll(v, blamed[..|blamed| - 1]).With(blamed[|blamed| - 1])
  }

  class Blacklist {
    var entries: set<string>
    const ipOf: string -> string

    constructor (loaded: set<string>, ipOf: string -> string)
      ensures entries == loaded && this.ipOf == ipOf
    {
      entries := loaded;
      this.ipOf := ipOf;
    }

    ghost function Now(): Verdicts
      reads this
    {
      Verdicts(entries, ipOf)
    }

    method IsBlacklisted(addr: string) returns (blocked: bool)
      ensures blocked == Now().Blocks(addr)
    {
      var ip := ipOf(addr);
      if ip == "" {
        return false;
      }
      return ip in entries;
    }

    method Add(addr: string)
      modifies this
      ensures Now() == old(Now()).With(addr)
    {
      var ip := ipOf(addr);
      if ip == "" {
        return;
      }
      entries := entries + {ip};
    }
  }
}
