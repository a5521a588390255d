/** Published addresses such as `unix@/tmp/a.sock:tcp@8880` (cmd/wdrip/vm/publish.go). */
module Publishing {
  import opened Strings

  datatype Publish = Publish(lnetwork: string, laddr: string, rnetwork: string, raddr: string) {

    function String(): string {
      lnetwork + "@" + laddr + ":" + rnetwork + "@" + raddr
    }

    /** No field holds a separator. */
    predicate Clean() {
      && CleanField(lnetwork) && CleanField(laddr)
      && CleanField(rnetwork) && CleanField(raddr)
    }
  }

  predicate CleanField(s: string) {
    '@' !in s && ':' !in s
  }

  /** Network and address of one side; the network defaults to tcp. */
  function BreakDown(add: string): (string, string) {
    var port := Split(add, "@");
    if |port| <= 1 then ("tcp", port[0]) else (port[0], port[1])
  }

  function NewPublish(addr: string): Publish {
    var addrs := Split(addr, ":");
    if |addrs| <= 1 then
      var (network, port) := BreakDown(addrs[0]);
      Publish(network, port, network, port)
    else
      var (lnetwork, lport) := BreakDown(addrs[0]);
      var (rnetwork, rport) := BreakDown(addrs[1]);
      Publish(lnetwork, lport, rnetwork, rport)
  }

  lemma BreakDownClean(add: string)
    requires ':' !in add
    ensures CleanField(BreakDown(add).0) && CleanField(BreakDown(add).1)
  {
    var port := Split(add, "@");
    SplitPieces(add, '@');
    forall p | p in port
      ensures CleanField(p)
    {
    }
    assert port[0] in port;
    if |port| > 1 {
      assert port[1] in port;
    }
  }

  /** Whatever the input, parsing yields fields without separators. */
  lemma ParsedIsClean(s: string)
    ensures NewPublish(s).Clean()
  {
    var addrs := Split(s, ":");
    SplitPieces(s, ':');
    assert addrs[0] in addrs;
    BreakDownClean(addrs[0]);
    if |addrs| > 1 {
      assert addrs[1] in addrs;
      BreakDownClean(addrs[1]);
    }
  }

  lemma BreakDownJoined(network: string, addr: string)
    requires CleanField(network) && CleanField(addr)
    ensures BreakDown(network + "@" + addr) == (network, addr)
  {
    SplitAtChar(network, '@', addr);
    SplitWithoutChar(addr, '@');
  }

  /** A Publish comes back from its printed form exactly when no field holds '@' or ':'. */
  lemma PrintParse(p: Publish)
    ensures NewPublish(p.String()) == p <==> p.Clean()
  {
    if p.Clean() {
      var left, right := p.lnetwork + "@" + p.laddr, p.rnetwork + "@" + p.raddr;
      assert p.String() == left + [':'] + right;
      SplitAtChar(left, ':', right);
      SplitWithoutChar(right, ':');
      BreakDownJoined(p.lnetwork, p.laddr);
      BreakDownJoined(p.rnetwork, p.raddr);
    } else {
      ParsedIsClean(p.String());
    }
  }

  // ----- What the parts of an address mean ------------------------------------------

  lemma BreakDownBare(addr: string)
    requires '@' !in addr
    ensures BreakDown(addr) == ("tcp", addr)
  {
    SplitWithoutChar(addr, '@');
  }

  /** One side, as written: an address, with or without a network. */
  datatype Side = Bare(addr: string) | Full(network: string, addr: string) {
    predicate Clean() {
      CleanField(addr) && (Full? ==> CleanField(network))
    }
    function Text(): string {
      if Bare? then addr else network + "@" + addr
    }
    function Network(): string {
      if Full? then network else "tcp"
    }
  }

  lemma SideParses(s: Side)
    requires s.Clean()
    ensures BreakDown(s.Text()) == (s.Network(), s.addr) && ':' !in s.Text()
  {
    match s
    case Bare(addr) => BreakDownBare(addr);
    case Full(network, addr) => BreakDownJoined(network, addr);
  }

  /** A side without a network is on tcp, and an address with one side only has it on both. */
  lemma ParseForms(l: Side, r: Side)
    requires l.Clean() && r.Clean()
    ensures NewPublish(l.Text()) == Publish(l.Network(), l.addr, l.Network(), l.addr)
    ensures NewPublish(l.Text() + ":" + r.Text()) == Publish(l.Network(), l.addr, r.Network(), r.addr)
  {
    SideParses(l);
    SideParses(r);
    SplitWithoutChar(l.Text(), ':');
    SplitWithoutChar(r.Text(), ':');
    SplitAtChar(l.Text(), ':', r.Text());
  }

  lemma FirstTwo(a: string, c: char, b: string, rest: string)
    requires c !in a && c !in b
    ensures var parts := Split(a + [c] + (b + [c] + rest), [c]);
            |parts| > 2 && parts[0] == a && parts[1] == b
  {
    SplitAtChar(b, c, rest);
    SplitAtChar(a, c, b + [c] + rest);
  }

  /** Whatever follows the second side, or the address of a side, is ignored. */
  lemma ExtraIgnored(a: string, b: string, rest: string)
    ensures ':' !in a && ':' !in b ==> NewPublish(a + ":" + (b + ":" + rest)) == NewPublish(a + ":" + b)
    ensures '@' !in a && '@' !in b ==> BreakDown(a + "@" + (b + "@" + rest)) == BreakDown(a + "@" + b)
  {
    if ':' !in a && ':' !in b {
      FirstTwo(a, ':', b, rest);
      SplitAtChar(a, ':', b);
      SplitWithoutChar(b, ':');
    }
    if '@' !in a && '@' !in b {
      FirstTwo(a, '@', b, rest);
      SplitAtChar(a, '@', b);
      SplitWithoutChar(b, '@');
    }
  }

  /** Printing a parsed address is a normal form: parsing it again changes nothing. */
  lemma NormalForm(s: string)
    ensures NewPublish(NewPublish(s).String()) == NewPublish(s)
  {
    ParsedIsClean(s);
    PrintParse(NewPublish(s));
  }
}
