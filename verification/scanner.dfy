/** The response scanner: finds an expected reply in the receive buffer,
    cuts out the reply line it starts and returns it. */
module Scanner {
  import opened CText

  /** Terminator of a reply line. */
  const RspEndOfLine: string := "\r\n"
  /** A reply line is taken only when it is shorter than this. */
  const MaxRspSize: nat := 64

  /** A reply line taken out of the buffer, and the buffer left behind. */
  datatype Extraction = Extraction(response: string, rest: string)

  /** `i` is the first index where `token` occurs in `buf`. */
  ghost predicate FirstOccurrence(buf: string, token: string, i: int) {
    IsAt(buf, token, i) && forall k :: 0 <= k < i ==> !IsAt(buf, token, k)
  }

  /** `t` is the first index strictly after `i` where a line terminator starts. */
  ghost predicate FirstEndAfter(buf: string, i: int, t: int) {
    i < t && IsAt(buf, RspEndOfLine, t) && forall k :: i < k < t ==> !IsAt(buf, RspEndOfLine, k)
  }

  /** The scanner takes `buf[i..j]`: `i` is the token's first occurrence,
      `j` is just past the first terminator that starts after index `i`, and
      the line is short enough. */
  ghost predicate Extracts(buf: string, token: string, i: int, j: int) {
    FirstOccurrence(buf, token, i) && FirstEndAfter(buf, i, j - |RspEndOfLine|) && j - i < MaxRspSize
  }

  /** Scans `buf` for `token`. On a match the reply line (token start up to
      and including the next terminator that starts after the token's first
      character) is returned and spliced out of the buffer, wherever in the
      buffer it sits; the buffer shrinks by exactly the line. Otherwise
      nothing is returned and the buffer stays as it is. */
  function AtParser(buf: string, token: string): (r: Option<Extraction>)
    ensures r.Some? ==> |r.value.response| < MaxRspSize
    ensures r.Some? ==> |r.value.rest| == |buf| - |r.value.response|
  {
    match Find(buf, token)
    case None => None
    case Some(i) =>
      match FindFrom(buf, RspEndOfLine, i + 1)
      case None => None
      case Some(t) =>
        var j := t + |RspEndOfLine|;
        if j - i < MaxRspSize then Some(Extraction(buf[i..j], buf[..i] + buf[j..])) else None
  }

  /** A match comes from positions as `Extracts` describes. */
  lemma ParserWitness(buf: string, token: string) returns (i: nat, j: nat)
    requires AtParser(buf, token).Some?
    ensures Extracts(buf, token, i, j)
    ensures AtParser(buf, token) == Some(Extraction(buf[i..j], buf[..i] + buf[j..]))
  {
    i := Find(buf, token).value;
    j := FindFrom(buf, RspEndOfLine, i + 1).value + |RspEndOfLine|;
  }

  /** Positions as `Extracts` describes make the scanner match there. */
  lemma ParserComplete(buf: string, token: string, i: int, j: int)
    requires Extracts(buf, token, i, j)
    ensures AtParser(buf, token) == Some(Extraction(buf[i..j], buf[..i] + buf[j..]))
  {
    var t := j - |RspEndOfLine|;
    FindFromFirst(buf, token, 0, i);
    FindFromFirst(buf, RspEndOfLine, i + 1, t);
  }

  /** What the scanner computes: it matches exactly when some `i`, `j` are
      as `Extracts` describes, and then returns `buf[i..j]` and the buffer
      with that slice removed. */
  lemma ParserMeaning(buf: string, token: string)
    ensures AtParser(buf, token).Some? <==> exists i, j :: Extracts(buf, token, i, j)
    ensures forall i, j :: Extracts(buf, token, i, j) ==>
              AtParser(buf, token) == Some(Extraction(buf[i..j], buf[..i] + buf[j..]))
  {
    if AtParser(buf, token).Some? {
      var i, j := ParserWitness(buf, token);
    }
    forall i, j | Extracts(buf, token, i, j)
      ensures AtParser(buf, token) == Some(Extraction(buf[i..j], buf[..i] + buf[j..]))
    {
      ParserComplete(buf, token, i, j);
    }
  }

  /** The three ways the scanner misses: the token is absent, no terminator
      starts after the token's first character, or the line is too long. */
  lemma ParserMisses(buf: string, token: string)
    ensures (forall k :: !IsAt(buf, token, k)) ==> AtParser(buf, token).None?
    ensures forall i :: FirstOccurrence(buf, token, i) && (forall t :: i < t ==> !IsAt(buf, RspEndOfLine, t)) ==>
              AtParser(buf, token).None?
    ensures forall i, t :: FirstOccurrence(buf, token, i) && FirstEndAfter(buf, i, t) && t + 2 - i >= MaxRspSize ==>
              AtParser(buf, token).None?
  {
    ParserMeaning(buf, token);
  }

  /** Where a match comes from: the positions of the token and of the
      terminator that closes its line. */
  lemma MatchPositions(buf: string, token: string) returns (i: nat, j: nat)
    requires AtParser(buf, token).Some?
    ensures i + |token| <= |buf| && i + 2 < j <= |buf| && j - i < MaxRspSize
    ensures buf[i..i + |token|] == token && buf[j - 2..j] == RspEndOfLine
    ensures forall k :: i < k < j - 2 ==> !IsAt(buf, RspEndOfLine, k)
    ensures AtParser(buf, token).value == Extraction(buf[i..j], buf[..i] + buf[j..])
  {
    i, j := ParserWitness(buf, token);
  }

  /** No carriage return follows the token's first character. */
  predicate NoCrAfterFirst(token: string) {
    forall k :: 0 < k < |token| ==> token[k] != '\r'
  }

  /** A matched reply line starts at the token and ends with the terminator.
      The line is cut at the first terminator after the token's first
      character, so a token with no carriage return after its first
      character lies whole inside the line. */
  lemma ResponseShape(buf: string, token: string)
    requires AtParser(buf, token).Some?
    ensures var x := AtParser(buf, token).value;
      2 <= |x.response| < MaxRspSize && x.response[|x.response| - 2..] == RspEndOfLine &&
      (x.response <= token || token <= x.response)
    ensures NoCrAfterFirst(token) ==> token <= AtParser(buf, token).value.response
  {
    var i, j := MatchPositions(buf, token);
    var r := buf[i..j];
    assert r[|r| - 2..] == buf[j - 2..j];
    if j <= i + |token| {
      assert r == token[..j - i];
      assert r[|r| - 2] == '\r';
      if j < i + |token| {
        assert token[j - 2 - i] == '\r';
      }
    } else {
      assert r[..|token|] == token;
    }
  }

  /** A token that is a whole reply line, `"\r\n" + body + "\r\n"` with no
      carriage return inside `body`, is cut out exactly: the search for the
      terminator starts after the token's first character, so the token's
      own leading terminator is skipped and its trailing one closes the line. */
  lemma EnclosedTokenIsWholeLine(buf: string, body: string, i: nat)
    requires '\r' !in body
    requires |body| + 4 < MaxRspSize
    requires FirstOccurrence(buf, RspEndOfLine + body + RspEndOfLine, i)
    ensures var token := RspEndOfLine + body + RspEndOfLine;
      AtParser(buf, token) == Some(Extraction(token, buf[..i] + buf[i + |token|..]))
  {
    var token := RspEndOfLine + body + RspEndOfLine;
    var t := i + |body| + 2;
    NoTerminatorInside(buf, body, i);
    ParserMeaning(buf, token);
    assert buf[t..t + 2] == token[|body| + 2..];
    assert Extracts(buf, token, i, t + 2);
  }

  lemma NoTerminatorInside(buf: string, body: string, i: nat)
    requires '\r' !in body
    requires IsAt(buf, RspEndOfLine + body + RspEndOfLine, i)
    ensures forall k :: i < k < i + |body| + 2 ==> !IsAt(buf, RspEndOfLine, k)
  {
    var token := RspEndOfLine + body + RspEndOfLine;
    assert buf[i..i + |token|] == token;
    forall k | i < k < i + |body| + 2
      ensures buf[k] != '\r'
    {
      assert buf[k] == token[k - i];
      if k > i + 1 {
        assert token[k - i] == body[k - i - 2];
      }
    }
    forall k | i < k < i + |body| + 2
      ensures !IsAt(buf, RspEndOfLine, k)
    {
      if k + 2 <= |buf| {
        assert buf[k..k + 2][0] == buf[k];
      }
    }
  }

  /** The first scan of "OOK\r\nK\r\n" for "OK": the token sits at index 1
      and the terminator at index 3. */
  lemma SpliceFirstScan()
    ensures AtParser("OOK\r\nK\r\n", "OK") == Some(Extraction("OK\r\n", "OK\r\n"))
  {
    var b := "OOK\r\nK\r\n";
    assert b[0..2][1] == 'O' != "OK"[1];
    assert b[1..3] == "OK";
    assert Find(b, "OK") == Some(1);
    assert b[2..4][0] == 'K' != "\r\n"[0];
    assert b[3..5] == "\r\n";
    assert FindFrom(b, RspEndOfLine, 2) == Some(3);
    assert b[1..5] == "OK\r\n";
    assert b[..1] + b[5..] == "OK\r\n";
  }

  /** The second scan, of what the first one left. */
  lemma SpliceSecondScan()
    ensures AtParser("OK\r\n", "OK") == Some(Extraction("OK\r\n", ""))
  {
    var c := "OK\r\n";
    assert c[0..2] == "OK";
    assert Find(c, "OK") == Some(0);
    assert c[1..3][0] == 'K' != "\r\n"[0];
    assert c[2..4] == "\r\n";
    assert FindFrom(c, RspEndOfLine, 1) == Some(2);
    assert c[0..4] == c;
    assert c[..0] + c[4..] == "";
  }

  /** The splice can create a new occurrence: after "OK\r\n" is cut from
      "OOK\r\nK\r\n", the halves around the cut join into "OK\r\n" again, and
      the same buffer content answers a second scan. */
  lemma SpliceCanRecreateToken()
    ensures var first := AtParser("OOK\r\nK\r\n", "OK");
      && first.Some?
      && first.value.response == "OK\r\n"
      && AtParser(first.value.rest, "OK") == Some(Extraction("OK\r\n", ""))
  {
    SpliceFirstScan();
    SpliceSecondScan();
  }
}
