/** Reading the device's IPv4 address: the PDP address query for context 1
    and the parse of its reply. */
module IpAddress {
  import opened CText
  import opened Catalog
  import opened Scanner
  import opened Polling
  import opened Engine
  import opened Device
  import opened AddrReply

  /** `bc66_get_ipv4_address`: queries the address of context 1, waiting
      for the "+CGPADDR: 1," line, and parses the last response. Every
      failure, including an unbound driver, is reported as no address; a
      failed query leaves the record as it was, and a parse that runs out
      of fields keeps the fields it stored. */
  function GetIpv4Address(s: State, ip: Ipv4, chunks: seq<string>): (r: (Exchange, Ipv4))
    ensures r.0.status == Success || r.0.status == NoIp
    ensures s.binding.None? ==> r == (Exchange(NoIp, s, [], 0), ip)
    ensures s.binding.Some? ==> r.0.sent == [WriteFrame(Cgpaddr, "1")]
    ensures r.0.status == Success ==> AddrToken <= r.0.state.lastResponse
    ensures s.binding.Some? ==>
      var q := WriteCommand(s, Cgpaddr, Some(AddrToken), "1", chunks);
      var p := ParseIpv4(q.state.lastResponse, ip);
      && r.0.state == q.state && r.0.polls == q.polls
      && (q.status != Success ==> r.0.status == NoIp && r.1 == ip)
      && (q.status == Success ==> (r.0.status == Success <==> p.0) && r.1 == p.1)
  {
    var x := WriteCommand(s, Cgpaddr, Some(AddrToken), "1", chunks);
    if x.status != Success then (x.(status := NoIp), ip)
    else
      ConfirmedBy(s, Write, Cgpaddr, AddrToken, Some("1"), chunks);
      var p := ParseIpv4(x.state.lastResponse, ip);
      (x.(status := if p.0 then Success else NoIp), p.1)
  }

  /** An address line short enough to be taken is taken whole from a read
      that holds just it. */
  lemma AddrLineScan(a: nat, b: nat, c: nat, d: nat)
    requires |AddrText(a, b, c, d, RspEndOfLine)| < MaxRspSize
    ensures var line := AddrText(a, b, c, d, RspEndOfLine);
      UpToNul(line) == line && ScanFor(AddrToken)(line) == Some(Extraction(line, ""))
  {
    var line := AddrText(a, b, c, d, RspEndOfLine);
    var body := AddrText(a, b, c, d, "");
    AddrLineBody(a, b, c, d);
    TokenAtStart(line);
    TerminatorOnlyAtEnd(body);
    assert FirstEndAfter(line, 0, |body|);
    ParserComplete(line, AddrToken, 0, |line|);
    assert line[0..|line|] == line && line[..0] + line[|line|..] == "";
  }

  /** A modem that answers the query with the line for `a.b.c.d` in its
      first read makes the driver report that address, with `a` in `a4`
      and `d` in `a1`. */
  lemma AddressFromFirstRead(s: State, a: nat, b: nat, c: nat, d: nat, ip: Ipv4, chunks: seq<string>)
    requires s.binding.Some?
    requires chunks != [] && chunks[0] == AddrText(a, b, c, d, RspEndOfLine)
    requires |chunks[0]| < MaxRspSize
    ensures GetIpv4Address(s, ip, chunks).0.status == Success
    ensures GetIpv4Address(s, ip, chunks).1 == Ipv4(d, c, b, a)
  {
    AddrLineScan(a, b, c, d);
    CatalogEntries(Cgpaddr);
    FirstReadHits(ScanFor(AddrToken), chunks, Lookup(Cgpaddr).timeout);
    SendWaitsForTarget(s, Write, Cgpaddr, Some(AddrToken), Some("1"), chunks);
    ParseAddrLine(a, b, c, d, RspEndOfLine, ip);
  }

  /** The sample reply "+CGPADDR: 1,10.20.30.40", read whole, reports
      that address with 10 in `a4` and 40 in `a1`. */
  lemma SampleAddress(s: State, ip: Ipv4)
    requires s.binding.Some?
    ensures GetIpv4Address(s, ip, ["+CGPADDR: 1,10.20.30.40\r\n"]).1 == Ipv4(40, 30, 20, 10)
    ensures GetIpv4Address(s, ip, ["+CGPADDR: 1,10.20.30.40\r\n"]).0.status == Success
  {
    ExampleText();
    AddressFromFirstRead(s, 10, 20, 30, 40, ip, ["+CGPADDR: 1,10.20.30.40\r\n"]);
  }
}
