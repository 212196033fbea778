/** The text of the PDP address reply and how the driver reads an IPv4
    address out of it. */
module AddrReply {
  import opened CText

  /** The caller's address record. The reply's dotted fields are stored
      from `a4` down to `a1`: the first field goes to `a4`. */
  datatype Ipv4 = Ipv4(a1: int, a2: int, a3: int, a4: int)

  /** The reply prefix the query waits for and parses from. */
  const AddrToken: CString := "+CGPADDR: 1,"

  /** The field starting at `from`, as `atoi` reads it. */
  function FieldAt(text: string, from: nat): int
    requires from <= |text|
  {
    Atoi(text[from..])
  }

  /** Where the next field starts: just after the next dot at or after
      `from`, if there is one. */
  function AfterDot(text: string, from: nat): (r: Option<nat>)
    ensures r.Some? ==> from < r.value <= |text| && text[r.value - 1] == '.'
    ensures r.None? <==> FindChar(text, '.', from).None?
  {
    match FindChar(text, '.', from)
    case None => None
    case Some(d) => Some(d + 1)
  }

  /** Parses the reply text: after the prefix and the comma that follows,
      four fields separated by dots, stored into `a4`, `a3`, `a2`, `a1` in
      that order. Each field is stored as soon as it is read, so a reply
      that runs out of dots early leaves the fields read so far stored and
      reports no address (`false`); `a1`, the last field, is written only
      when all four fields are found. */
  function ParseIpv4(text: string, ip: Ipv4): (r: (bool, Ipv4))
    ensures Find(text, AddrToken).None? ==> r == (false, ip)
    ensures !r.0 ==> r.1.a1 == ip.a1
  {
    match Find(text, AddrToken)
    case None => (false, ip)
    case Some(i) =>
      match FindChar(text, ',', i)
      case None => (false, ip)
      case Some(c) =>
        var p4 := c + 1;
        var ip4 := ip.(a4 := FieldAt(text, p4));
        match AfterDot(text, p4)
        case None => (false, ip4)
        case Some(p3) =>
          var ip3 := ip4.(a3 := FieldAt(text, p3));
          match AfterDot(text, p3)
          case None => (false, ip3)
          case Some(p2) =>
            var ip2 := ip3.(a2 := FieldAt(text, p2));
            match AfterDot(text, p2)
            case None => (false, ip2)
            case Some(p1) => (true, ip2.(a1 := FieldAt(text, p1)))
  }

  /** The fields `fs` separated by dots, then `rest`. */
  function Join(fs: seq<string>, rest: string): string
    decreases |fs|
  {
    if fs == [] then rest
    else if |fs| == 1 then fs[0] + rest
    else fs[0] + ("." + Join(fs[1..], rest))
  }

  /** The text of a reply line holding the address `a.b.c.d`: the prefix,
      the four fields in decimal separated by dots, then `rest`. */
  function AddrText(a: nat, b: nat, c: nat, d: nat, rest: string): string {
    AddrToken + Join([Dec(a), Dec(b), Dec(c), Dec(d)], rest)
  }

  /** A reply line starting with the prefix has the prefix at its start
      and its first comma at the prefix's end. */
  lemma TokenAtStart(text: string)
    requires AddrToken <= text
    ensures Find(text, AddrToken) == Some(0)
    ensures FindChar(text, ',', 0) == Some(|AddrToken| - 1)
  {
    assert text[..|AddrToken|] == AddrToken;
    assert IsAt(text, AddrToken, 0);
    forall k | 0 <= k < |AddrToken| - 1
      ensures text[k] != ','
    {
      assert text[k] == AddrToken[k];
    }
    FindCharAt(text, ',', 0, |AddrToken| - 1);
  }

  /** A decimal field. */
  predicate IsField(ds: string) {
    1 <= |ds| && AllDigits(ds)
  }

  /** The characters of a field followed by a dot, in place in `text`. */
  lemma {:induction false} DottedLayout(text: string, from: nat, ds: string, rest: string)
    requires IsField(ds) && from <= |text| && text[from..] == ds + ("." + rest)
    ensures from + |ds| < |text| && text[from + |ds|] == '.'
    ensures forall k :: from <= k < from + |ds| ==> text[k] != '.'
    ensures text[from + |ds| + 1..] == rest
  {
    assert text[from..][|ds|] == '.';
    forall k | from <= k < from + |ds|
      ensures text[k] != '.'
    {
      assert text[k] == text[from..][k - from] == ds[k - from];
      assert IsDigit(ds[k - from]);
    }
    assert text[from + |ds| + 1..] == text[from..][|ds| + 1..];
  }

  /** The field at `from` reads back as the value of its digits. */
  lemma {:induction false} FieldValue(text: string, from: nat, ds: string, rest: string)
    requires IsField(ds) && from <= |text| && text[from..] == ds + rest
    requires rest == [] || !IsDigit(rest[0])
    ensures FieldAt(text, from) == DigitsValue(ds)
  {
    AtoiDigits(ds, rest);
  }

  /** A field followed by a dot: `atoi` reads the field, and the next field
      starts after the dot. */
  lemma {:induction false} DottedField(text: string, from: nat, ds: string, rest: string)
    requires IsField(ds) && from <= |text| && text[from..] == ds + ("." + rest)
    ensures from + |ds| + 1 <= |text| && text[from + |ds| + 1..] == rest
    ensures AfterDot(text, from) == Some(from + |ds| + 1)
    ensures FieldAt(text, from) == DigitsValue(ds)
  {
    DottedLayout(text, from, ds, rest);
    FindCharAt(text, '.', from, |ds|);
    FieldValue(text, from, ds, "." + rest);
  }

  /** Every one of `fs` is a decimal field. */
  predicate AllFields(fs: seq<string>) {
    forall k :: 0 <= k < |fs| ==> IsField(fs[k])
  }

  /** A field followed by more fields: `atoi` reads the first, and the
      others start after the dot that ends it. */
  lemma {:induction false} JoinStep(text: string, p: nat, fs: seq<string>, rest: string) returns (q: nat)
    requires 2 <= |fs| && AllFields(fs)
    requires p <= |text| && text[p..] == Join(fs, rest)
    ensures q <= |text| && text[q..] == Join(fs[1..], rest) && AllFields(fs[1..])
    ensures AfterDot(text, p) == Some(q)
    ensures FieldAt(text, p) == DigitsValue(fs[0])
  {
    assert IsField(fs[0]);
    DottedField(text, p, fs[0], Join(fs[1..], rest));
    q := p + |fs[0]| + 1;
  }

  /** The last field. */
  lemma {:induction false} JoinLast(text: string, p: nat, fs: seq<string>, rest: string)
    requires |fs| == 1 && AllFields(fs) && (rest == [] || !IsDigit(rest[0]))
    requires p <= |text| && text[p..] == Join(fs, rest)
    ensures FieldAt(text, p) == DigitsValue(fs[0])
  {
    assert IsField(fs[0]);
    FieldValue(text, p, fs[0], rest);
  }

  /** The four fields of an address line, the first at `p4`. */
  lemma {:induction false} AllFour(text: string, p4: nat, fs: seq<string>, rest: string)
    returns (p3: nat, p2: nat, p1: nat)
    requires |fs| == 4 && AllFields(fs) && (rest == [] || !IsDigit(rest[0]))
    requires p4 <= |text| && text[p4..] == Join(fs, rest)
    ensures p1 <= |text| && AfterDot(text, p4) == Some(p3)
    ensures AfterDot(text, p3) == Some(p2) && AfterDot(text, p2) == Some(p1)
    ensures FieldAt(text, p4) == DigitsValue(fs[0]) && FieldAt(text, p3) == DigitsValue(fs[1])
    ensures FieldAt(text, p2) == DigitsValue(fs[2]) && FieldAt(text, p1) == DigitsValue(fs[3])
  {
    var f3 := fs[1..];
    var f2 := f3[1..];
    var f1 := f2[1..];
    p3 := JoinStep(text, p4, fs, rest);
    p2 := JoinStep(text, p3, f3, rest);
    p1 := JoinStep(text, p2, f2, rest);
    JoinLast(text, p1, f1, rest);
  }

  /** The prefix is followed by what comes after it. */
  lemma AfterToken(tail: string)
    ensures AddrToken <= AddrToken + tail
    ensures (AddrToken + tail)[|AddrToken|..] == tail
  {
    assert (AddrToken + tail)[..|AddrToken|] == AddrToken;
  }

  /** Where the fields of an address line start and what `atoi` reads
      there. */
  lemma {:induction false} AddrLayout(a: nat, b: nat, c: nat, d: nat, rest: string) returns (p3: nat, p2: nat, p1: nat)
    requires rest == [] || !IsDigit(rest[0])
    ensures var text := AddrText(a, b, c, d, rest);
      && AddrToken <= text && |AddrToken| <= |text| && p1 <= |text|
      && AfterDot(text, |AddrToken|) == Some(p3)
      && AfterDot(text, p3) == Some(p2)
      && AfterDot(text, p2) == Some(p1)
      && FieldAt(text, |AddrToken|) == a && FieldAt(text, p3) == b
      && FieldAt(text, p2) == c && FieldAt(text, p1) == d
  {
    var fs := [Dec(a), Dec(b), Dec(c), Dec(d)];
    var tail := Join(fs, rest);
    AfterToken(tail);
    DecValue(a);
    DecValue(b);
    DecValue(c);
    DecValue(d);
    p3, p2, p1 := AllFour(AddrToken + tail, |AddrToken|, fs, rest);
  }

  /** A reply line holding the address `a.b.c.d`, followed by anything that
      does not start with a digit, parses to success with `a` in `a4` and
      `d` in `a1`, whatever the record held before. */
  lemma {:induction false} ParseAddrLine(a: nat, b: nat, c: nat, d: nat, rest: string, ip: Ipv4)
    requires rest == [] || !IsDigit(rest[0])
    ensures ParseIpv4(AddrText(a, b, c, d, rest), ip) == (true, Ipv4(d, c, b, a))
  {
    var p3, p2, p1 := AddrLayout(a, b, c, d, rest);
    TokenAtStart(AddrText(a, b, c, d, rest));
  }

  /** The text after the fields does not depend on them: it is appended. */
  lemma {:induction false} JoinSplit(fs: seq<string>, rest: string)
    ensures Join(fs, rest) == Join(fs, "") + rest
    decreases |fs|
  {
    if |fs| > 1 {
      JoinSplit(fs[1..], rest);
      var j := Join(fs[1..], "");
      assert fs[0] + ("." + (j + rest)) == fs[0] + ("." + j) + rest;
    }
  }

  /** Only digits and dots. */
  predicate DigitsAndDots(t: string) {
    forall c :: c in t ==> IsDigit(c) || c == '.'
  }

  /** Fields joined by dots hold only digits and dots. */
  lemma {:induction false} JoinDigitsAndDots(fs: seq<string>)
    requires AllFields(fs)
    ensures DigitsAndDots(Join(fs, ""))
    decreases |fs|
  {
    if fs != [] {
      assert IsField(fs[0]);
      forall c | c in fs[0]
        ensures IsDigit(c)
      {
      }
      if |fs| > 1 {
        JoinDigitsAndDots(fs[1..]);
      }
    }
  }

  /** An address line is its body, which holds neither a carriage return
      nor a NUL, followed by the terminator. */
  lemma AddrLineBody(a: nat, b: nat, c: nat, d: nat)
    ensures var body := AddrText(a, b, c, d, "");
      && AddrText(a, b, c, d, "\r\n") == body + "\r\n"
      && '\r' !in body && NoNul(body)
  {
    var fs := [Dec(a), Dec(b), Dec(c), Dec(d)];
    JoinSplit(fs, "\r\n");
    JoinDigitsAndDots(fs);
    var j := Join(fs, "");
    assert AddrToken + (j + "\r\n") == AddrToken + j + "\r\n";
    assert '\r' !in AddrToken && '\0' !in AddrToken;
  }

  /** The fields of a sample reply, joined. */
  lemma ExampleJoin()
    ensures Join(["10", "20", "30", "40"], "\r\n") == "10.20.30.40\r\n"
  {
    var fs := ["10", "20", "30", "40"];
    assert fs[1..][1..][1..] == ["40"];
    assert Join(fs[1..][1..], "\r\n") == "30.40\r\n";
  }

  /** The text of the sample reply. */
  lemma ExampleText()
    ensures AddrText(10, 20, 30, 40, "\r\n") == "+CGPADDR: 1,10.20.30.40\r\n"
  {
    assert Dec(10) == "10" && Dec(20) == "20" && Dec(30) == "30" && Dec(40) == "40";
    ExampleJoin();
  }

  /** The sample reply "+CGPADDR: 1,10.20.30.40" fills `a4` with 10 and
      `a1` with 40: the fields land in the record in reverse. */
  lemma {:induction false} ExampleReply(ip: Ipv4)
    ensures ParseIpv4("+CGPADDR: 1,10.20.30.40\r\n", ip) == (true, Ipv4(40, 30, 20, 10))
  {
    ParseAddrLine(10, 20, 30, 40, "\r\n", ip);
    ExampleText();
  }

  /** A reply whose first field is not followed by a dot reports no
      address, yet the first field has already been stored in `a4`. */
  lemma {:induction false} PartialWrite(a: nat, rest: string, ip: Ipv4)
    requires rest == [] || !IsDigit(rest[0])
    requires '.' !in rest
    ensures ParseIpv4(AddrToken + (Dec(a) + rest), ip) == (false, ip.(a4 := a))
  {
    var tail := Dec(a) + rest;
    var text := AddrToken + tail;
    AfterToken(tail);
    TokenAtStart(text);
    AtoiDec(a, rest);
    assert text[|AddrToken|..] == Dec(a) + rest;
    DigitsExclude(Dec(a), '.');
    FindCharAbsent(text, '.', |AddrToken|);
  }
}
