/** The command engine: binding to a transport, and sending one AT command
    and waiting for its reply. The driver's process-wide buffers are an
    explicit state value; the transport's reads are a stream of chunks,
    one per poll, and its writes are the frames an exchange reports. */
module Engine {
  import opened CText
  import opened Catalog
  import opened Scanner
  import opened Polling

  /** Identity of the transport object the driver is bound to. */
  type Transport = nat

  /** Return codes of the driver. */
  datatype Status = Success | Error | NotInit | Timeout | NoCmdImplemented | OutOfRange | NoIp

  /** The driver's state: the bound transport, the receive buffer, the
      transmit buffer (which keeps the last frame built) and the last reply
      line a wait took out. */
  datatype State = State(binding: Option<Transport>, rx: string, tx: string, lastResponse: string)

  /** Static buffers start zeroed and no transport is bound. */
  const PowerUp: State := State(None, "", "", "")

  /** What one operation did: its return code, the state after it, the
      frames it wrote to the transport, in order, and how many polls it
      made (each poll is one 1 ms delay and one read). */
  datatype Exchange = Exchange(status: Status, state: State, sent: seq<string>, polls: nat)

  /** Binds the driver to a transport when none is bound, clearing the
      receive buffer; a second initialisation is refused and changes
      nothing. The power sequence it runs is control-line writes and delays
      only; its reset step's return code is overwritten. */
  function Init(s: State, t: Transport): (r: (Status, State))
    ensures r.0 == Success <==> s.binding.None?
    ensures r.0 != Success ==> r.0 == Error && r.1 == s
    ensures r.0 == Success ==> r.1.binding == Some(t) && r.1.rx == ""
    ensures r.1.tx == s.tx && r.1.lastResponse == s.lastResponse
  {
    if s.binding.None? then
      var bound := s.(binding := Some(t), rx := "");
      var _ := HwReset(bound);
      (Success, bound)
    else (Error, s)
  }

  /** Releases the binding, whichever transport is passed. */
  function Deinit(s: State): (r: State)
    ensures r.binding.None?
    ensures r.rx == s.rx && r.tx == s.tx && r.lastResponse == s.lastResponse
  {
    s.(binding := None)
  }

  /** The hardware reset: with a transport bound, the reset line is driven
      high and then low (the levels written, in order); with none, nothing
      is driven. The wait for the modem's restart message is commented out
      in the source, so the code is an error either way. */
  function HwReset(s: State): (r: (Status, seq<bool>))
    ensures r.0 == Error
    ensures r.1 != [] <==> s.binding.Some?
    ensures r.1 != [] ==> r.1[0] && !r.1[|r.1| - 1]
  {
    (Error, if s.binding.Some? then [true, false] else [])
  }

  /** The request text the driver formats into the transmit buffer for a
      form the command accepts. */
  function Request(form: Form, mnemonic: string, args: Option<CString>): (r: string)
    ensures "AT" + mnemonic <= r
  {
    var a := if args.Some? then args.value else "";
    match form
    case Test => "AT" + mnemonic + "=?"
    case Read => "AT" + mnemonic + "?"
    case Write => "AT" + mnemonic + "=" + a
    case Exe => "AT" + mnemonic + a
  }

  /** After `AT` and the mnemonic, each form has its own suffix: `=?` for
      a test, `?` for a read, `=` and the arguments for a write, the bare
      arguments for an execution. */
  lemma RequestSuffix(form: Form, mnemonic: string, args: Option<CString>)
    ensures var r := Request(form, mnemonic, args);
      var a := if args.Some? then args.value else "";
      var k := 2 + |mnemonic|;
      && |r| >= k
      && (form == Test ==> r[k..] == "=?")
      && (form == Read ==> r[k..] == "?")
      && (form == Write ==> r[k..] == "=" + a)
      && (form == Exe ==> r[k..] == a)
  {
  }

  /** The transmit buffer before the terminator is appended: the new request
      when the command accepts the form, else what the buffer held. */
  function Staged(tx: string, form: Form, id: CommandId, args: Option<CString>): (r: string)
    ensures form !in Lookup(id).forms ==> r == tx
    ensures form in Lookup(id).forms ==> "AT" + Lookup(id).mnemonic <= r
  {
    if form in Lookup(id).forms then Request(form, Lookup(id).mnemonic, args) else tx
  }

  /** The reply the engine waits for (src/bc66_drv.c:499-503): the caller's
      expected text if given, else the command's success reply. */
  function Target(expected: Option<CString>, d: Descriptor): Option<CString> {
    if expected.Some? then expected else d.success
  }

  /** `bc66_send_at_command`: refuses when unbound; otherwise flushes the
      receive buffer, formats the request for a known form (a form the
      command does not accept leaves the transmit buffer as it was), appends
      the terminator, writes the buffer, and waits for the target reply
      for the command's timeout. */
  function Send(s: State, cmdType: int, id: CommandId, expected: Option<CString>, args: Option<CString>,
                chunks: seq<string>): (x: Exchange)
    ensures s.binding.None? ==> x == Exchange(NotInit, s, [], 0)
    ensures s.binding.Some? && FormOf(cmdType).None? ==> x == Exchange(NoCmdImplemented, s.(rx := ""), [], 0)
    ensures s.binding.Some? && FormOf(cmdType).Some? ==>
      && x.state.binding == s.binding
      && x.sent == [x.state.tx]
      && |x.state.tx| >= 2 && x.state.tx[|x.state.tx| - 2..] == CmdEndLine
      && (x.status == Success || x.status == Timeout)
      && x.polls <= Lookup(id).timeout
    ensures x.status == Timeout ==> x.polls == Lookup(id).timeout && x.state.lastResponse == s.lastResponse
  {
    if s.binding.None? then Exchange(NotInit, s, [], 0)
    else
      var flushed := s.(rx := "");
      match FormOf(cmdType)
      case None => Exchange(NoCmdImplemented, flushed, [], 0)
      case Some(form) =>
        var d := Lookup(id);
        var frame := Staged(s.tx, form, id, args) + CmdEndLine;
        var written := flushed.(tx := frame);
        match Target(expected, d)
        case None => Exchange(Success, written, [frame], 0)
        case Some(token) =>
          match Wait("", ScanFor(token), chunks, d.timeout)
          case Found(response, rest, n) => Exchange(Success, written.(rx := rest, lastResponse := response), [frame], n)
          case TimedOut(rest, n) => Exchange(Timeout, written.(rx := rest), [frame], n)
  }

  /** What the transport's write delivers when the frame's length is passed
      through a `uint8_t` size parameter: the length is kept modulo 256, so
      a frame of 256 characters or more loses its tail, terminator
      included. `Send` writes the whole frame instead. */
  function NarrowWrite(frame: string): (r: string)
    ensures r <= frame && |r| < 256
    ensures |frame| < 256 <==> r == frame
  {
    frame[..|frame| % 256]
  }

  /** `bc66_get_at_response`: scans the receive buffer for `token`, taking
      the reply line out of the buffer when found. */
  function GetAtResponse(s: State, token: string): (r: (Option<string>, State))
    ensures r.0.Some? <==> AtParser(s.rx, token).Some?
    ensures r.0.Some? <==> exists i, j :: Extracts(s.rx, token, i, j)
    ensures forall i, j :: Extracts(s.rx, token, i, j) ==>
              r.0 == Some(s.rx[i..j]) && r.1.rx == s.rx[..i] + s.rx[j..]
    ensures r.0.Some? ==> |r.1.rx| + |r.0.value| == |s.rx| && |r.0.value| < MaxRspSize
    ensures r.0.None? ==> r.1 == s
    ensures r.1.binding == s.binding && r.1.tx == s.tx && r.1.lastResponse == s.lastResponse
  {
    ParserMeaning(s.rx, token);
    match AtParser(s.rx, token)
    case None => (None, s)
    case Some(x) => (Some(x.response), s.(rx := x.rest))
  }

  /** A second initialisation fails and keeps the first binding. */
  lemma InitOnce(s: State, t1: Transport, t2: Transport)
    requires s.binding.None?
    ensures var s1 := Init(s, t1).1;
      Init(s1, t2) == (Error, s1) && s1.binding == Some(t1)
  {
  }

  /** After a release the driver can be bound again, to any transport, and
      until then every command is refused without effect. */
  lemma DeinitThenInit(s: State, t: Transport, cmdType: int, id: CommandId, expected: Option<CString>,
                       args: Option<CString>, chunks: seq<string>)
    ensures Init(Deinit(s), t).0 == Success && Init(Deinit(s), t).1.binding == Some(t)
    ensures Send(Deinit(s), cmdType, id, expected, args, chunks) == Exchange(NotInit, Deinit(s), [], 0)
  {
  }

  /** A bound driver with a known form writes one frame: the staged
      request and the terminator, which the transmit buffer keeps. */
  lemma SendWrites(s: State, form: Form, id: CommandId, expected: Option<CString>, args: Option<CString>,
                   chunks: seq<string>)
    ensures var x := Send(s, CodeOf(form), id, expected, args, chunks);
      s.binding.Some? ==> x.sent == [Staged(s.tx, form, id, args) + CmdEndLine] && x.state.tx == x.sent[0]
  {
    FormCodeRoundTrip(form, CodeOf(form));
  }

  /** The frame written for each form: `AT`, the mnemonic and the form's
      suffix, then the terminator; a form the command does not accept
      resends the stale transmit buffer with one more terminator. */
  lemma SentFrame(s: State, form: Form, id: CommandId, expected: Option<CString>, args: Option<CString>,
                  chunks: seq<string>)
    ensures var x := Send(s, CodeOf(form), id, expected, args, chunks);
      var m := Lookup(id).mnemonic;
      var a := if args.Some? then args.value else "";
      s.binding.Some? ==>
      && (form !in Lookup(id).forms ==> x.sent == [s.tx + "\r\n"])
      && (form == Test && Test in Lookup(id).forms ==> x.sent == ["AT" + m + "=?\r\n"])
      && (form == Read && Read in Lookup(id).forms ==> x.sent == ["AT" + m + "?\r\n"])
      && (form == Write && Write in Lookup(id).forms ==> x.sent == ["AT" + m + "=" + a + "\r\n"])
      && (form == Exe && Exe in Lookup(id).forms ==> x.sent == ["AT" + m + a + "\r\n"])
  {
    SendWrites(s, form, id, expected, args, chunks);
    var m := Lookup(id).mnemonic;
    assert "AT" + m + "=?" + "\r\n" == "AT" + m + "=?\r\n";
    assert "AT" + m + "?" + "\r\n" == "AT" + m + "?\r\n";
  }

  /** With arguments free of carriage returns, the modem sees exactly one
      command line: the first terminator in the frame is the appended one. */
  lemma FrameTerminatedOnce(s: State, form: Form, id: CommandId, expected: Option<CString>, args: Option<CString>,
                            chunks: seq<string>)
    requires s.binding.Some? && form in Lookup(id).forms
    requires args.Some? ==> '\r' !in args.value
    ensures var f := Send(s, CodeOf(form), id, expected, args, chunks).sent[0];
      |f| >= 2 && Find(f, CmdEndLine) == Some(|f| - 2)
  {
    SendWrites(s, form, id, expected, args, chunks);
    MnemonicNoCr(id);
    var body := Request(form, Lookup(id).mnemonic, args);
    assert '\r' !in body;
    TerminatorOnlyAtEnd(body);
  }

  /** The engine waits for the caller's expected reply when one is given,
      else for the command's success reply, for the command's timeout,
      starting from an empty receive buffer. */
  lemma SendWaitsForTarget(s: State, form: Form, id: CommandId, expected: Option<CString>, args: Option<CString>,
                           chunks: seq<string>)
    requires s.binding.Some?
    ensures var x := Send(s, CodeOf(form), id, expected, args, chunks);
      var token := if expected.Some? then expected.value else RspOk;
      var w := Wait("", ScanFor(token), chunks, Lookup(id).timeout);
      && x.status == (if w.Found? then Success else Timeout)
      && x.polls == w.polls
      && x.state.rx == w.rx
      && (w.Found? ==> x.state.lastResponse == w.response)
  {
    CatalogEntries(id);
  }

  /** Every catalog entry has a success reply, so a known form never takes
      the return-without-waiting path: a success always comes from a reply
      line read after at least one poll, taken from what the transport sent. */
  lemma SuccessReadsReply(s: State, form: Form, id: CommandId, expected: Option<CString>, args: Option<CString>,
                          chunks: seq<string>)
    requires s.binding.Some?
    requires Send(s, CodeOf(form), id, expected, args, chunks).status == Success
    ensures var x := Send(s, CodeOf(form), id, expected, args, chunks);
      var token := if expected.Some? then expected.value else RspOk;
      && 1 <= x.polls
      && AtParser(Received("", chunks, x.polls), token) == Some(Extraction(x.state.lastResponse, x.state.rx))
      && 2 <= |x.state.lastResponse| < MaxRspSize
      && x.state.lastResponse[|x.state.lastResponse| - 2..] == RspEndOfLine
      && (NoCrAfterFirst(token) ==> token <= x.state.lastResponse)
  {
    SendWaitsForTarget(s, form, id, expected, args, chunks);
    var token := if expected.Some? then expected.value else RspOk;
    WaitFoundFirst("", ScanFor(token), chunks, Lookup(id).timeout);
    ResponseShape(Received("", chunks, Send(s, CodeOf(form), id, expected, args, chunks).polls), token);
  }

  /** A stream that yields one chunk and then nothing: every read after the
      first adds nothing to the buffer. */
  lemma {:induction false} ReceivedOneChunk(c: string, n: nat)
    requires n >= 1
    ensures Received("", [c], n) == UpToNul(c)
    decreases n
  {
    if n > 1 {
      ReceivedOneChunk(c, n - 1);
      assert UpToNul(Chunk([c], n - 1)) == "";
    }
  }

  /** A scan that hits on the first read ends the wait after one poll. */
  lemma FirstReadHits(scan: Scan, chunks: seq<string>, timeout: nat)
    requires timeout > 0 && chunks != []
    requires scan(UpToNul(chunks[0])).Some?
    ensures var x := scan(UpToNul(chunks[0])).value;
      Wait("", scan, chunks, timeout) == Found(x.response, x.rest, 1)
  {
    WaitUnfold("", scan, chunks, timeout);
    assert "" + UpToNul(Chunk(chunks, 0)) == UpToNul(chunks[0]);
  }

  /** The generic success reply, arriving whole in the first read with the
      modem's echo or other lines around it, completes the command after one
      poll; the reply line is cut out and the rest stays in the buffer. */
  lemma OkInFirstRead(s: State, form: Form, id: CommandId, args: Option<CString>, chunks: seq<string>, i: nat)
    requires s.binding.Some? && chunks != [] && NoNul(chunks[0])
    requires FirstOccurrence(chunks[0], RspOk, i)
    ensures var x := Send(s, CodeOf(form), id, None, args, chunks);
      && x.status == Success && x.polls == 1
      && x.state.lastResponse == RspOk
      && x.state.rx == chunks[0][..i] + chunks[0][i + |RspOk|..]
  {
    OkIsWholeLine(chunks[0], i);
    CatalogEntries(id);
    FirstReadHits(ScanFor(RspOk), chunks, Lookup(id).timeout);
    SendWaitsForTarget(s, form, id, None, args, chunks);
  }

  /** The success reply is cut out of a read as a whole line. */
  lemma OkIsWholeLine(c: string, i: nat)
    requires NoNul(c) && FirstOccurrence(c, RspOk, i)
    ensures ScanFor(RspOk)(UpToNul(c)) == Some(Extraction(RspOk, c[..i] + c[i + |RspOk|..]))
  {
    assert RspOk == RspEndOfLine + "OK" + RspEndOfLine;
    EnclosedTokenIsWholeLine(c, "OK", i);
  }

  /** The generic failure reply is not recognised: a command answered only
      with ERROR waits out its full timeout and keeps the reply in the
      receive buffer. */
  lemma ErrorReplyTimesOut(s: State, form: Form, id: CommandId, args: Option<CString>)
    requires s.binding.Some?
    ensures var x := Send(s, CodeOf(form), id, None, args, [RspError]);
      && x.status == Timeout && x.polls == Lookup(id).timeout
      && x.state.rx == RspError
  {
    SendWaitsForTarget(s, form, id, None, args, [RspError]);
    CatalogEntries(id);
    ErrorIsNotOk();
    var scan := ScanFor(RspOk);
    forall k | 0 <= k < Lookup(id).timeout
      ensures !Hit("", scan, [RspError], k)
    {
      ReceivedOneChunk(RspError, k + 1);
    }
    WaitFoundIff("", scan, [RspError], Lookup(id).timeout);
    WaitTimedOut("", scan, [RspError], Lookup(id).timeout);
    ReceivedOneChunk(RspError, Lookup(id).timeout);
  }

  /** "\r\nOK\r\n" does not occur in "\r\nERROR\r\n". */
  lemma ErrorIsNotOk()
    ensures AtParser(RspError, RspOk).None?
  {
    forall k
      ensures !IsAt(RspError, RspOk, k)
    {
      if 0 <= k <= 3 {
        assert RspError[k..k + 6][3] == RspError[k + 3] != RspOk[3];
      }
    }
    assert Find(RspError, RspOk).None?;
  }
}
