/** The driver's device operations: each checks its arguments, renders
    them into the argument text of one catalog command and runs the command
    through the engine. An argument out of range is refused before anything
    is written. */
module Device {
  import opened CText
  import opened Catalog
  import opened Scanner
  import opened Engine

  /** `'0' + (int)b`, and equally `%u` of a `bool`. */
  function Flag(b: bool): (c: char)
    ensures c == (if b then '1' else '0')
  {
    DigitChar(if b then 1 else 0)
  }

  /** The frame a write of `args` to command `id` puts on the wire. */
  function WriteFrame(id: CommandId, args: string): string {
    "AT" + Lookup(id).mnemonic + "=" + args + CmdEndLine
  }

  /** The frame an execution of command `id` with `args` puts on the wire. */
  function ExeFrame(id: CommandId, args: string): string {
    "AT" + Lookup(id).mnemonic + args + CmdEndLine
  }

  /** The frame a read of command `id` puts on the wire. */
  function ReadFrame(id: CommandId): string {
    "AT" + Lookup(id).mnemonic + "?" + CmdEndLine
  }

  /** Nothing happened: the operation returned `status` without touching
      the driver or the transport. */
  predicate Refused(x: Exchange, s: State, status: Status) {
    x == Exchange(status, s, [], 0)
  }

  /** A write of `args` to `id` with the given expected reply, as the
      engine runs it. */
  function WriteCommand(s: State, id: CommandId, expected: Option<CString>, args: CString, chunks: seq<string>): (x: Exchange)
    requires Write in Lookup(id).forms
    ensures s.binding.None? ==> Refused(x, s, NotInit)
    ensures s.binding.Some? ==> x.sent == [WriteFrame(id, args)] && (x.status == Success || x.status == Timeout)
    ensures s.binding.Some? ==> x.state.binding == s.binding
  {
    SentFrame(s, Write, id, expected, Some(args), chunks);
    Send(s, CodeOf(Write), id, expected, Some(args), chunks)
  }

  /** `bc66_send_cmd_AT`: the bare `AT` used to synchronise the baud rate. */
  function SendCmdAt(s: State, chunks: seq<string>): (x: Exchange)
    ensures s.binding.None? ==> Refused(x, s, NotInit)
    ensures s.binding.Some? ==> x.sent == ["AT\r\n"] && (x.status == Success || x.status == Timeout)
  {
    SendWrites(s, Exe, At, None, None, chunks);
    assert "AT" + "" + "" + CmdEndLine == "AT\r\n";
    Send(s, CodeOf(Exe), At, None, None, chunks)
  }

  /** `bc66_set_echo_mode`: `ATE` then the flag digit. */
  function SetEchoMode(s: State, echo: bool, chunks: seq<string>): (x: Exchange)
    ensures s.binding.None? ==> Refused(x, s, NotInit)
    ensures s.binding.Some? ==> x.sent == [ExeFrame(Ate, [Flag(echo)])] && (x.status == Success || x.status == Timeout)
  {
    SendWrites(s, Exe, Ate, None, Some([Flag(echo)]), chunks);
    Send(s, CodeOf(Exe), Ate, None, Some([Flag(echo)]), chunks)
  }

  /** `bc66_set_eps`: registration reporting mode 0 to 5. */
  function SetEps(s: State, mode: u32, chunks: seq<string>): (x: Exchange)
    ensures mode > 5 ==> Refused(x, s, OutOfRange)
    ensures mode <= 5 && s.binding.None? ==> Refused(x, s, NotInit)
    ensures mode <= 5 && s.binding.Some? ==> x.sent == [WriteFrame(Cereg, [DigitChar(mode)])]
  {
    if mode > 5 then Exchange(OutOfRange, s, [], 0)
    else
      assert mode % 0x1_0000_0000 == mode;
      assert UDec(mode) == [DigitChar(mode)];
      WriteCommand(s, Cereg, None, UDec(mode), chunks)
  }

  /** `bc66_set_power_saving_mode`: PSM mode 0 to 2. */
  function SetPowerSavingMode(s: State, mode: i32, chunks: seq<string>): (x: Exchange)
    ensures !(0 <= mode <= 2) ==> Refused(x, s, OutOfRange)
    ensures 0 <= mode <= 2 && s.binding.None? ==> Refused(x, s, NotInit)
    ensures 0 <= mode <= 2 && s.binding.Some? ==> x.sent == [WriteFrame(Cpsms, [DigitChar(mode)])]
  {
    if 0 <= mode <= 2 then WriteCommand(s, Cpsms, None, [DigitChar(mode)], chunks)
    else Exchange(OutOfRange, s, [], 0)
  }

  /** `bc66_set_sleep_mode`: sleep mode 0 to 2. */
  function SetSleepMode(s: State, mode: u8, chunks: seq<string>): (x: Exchange)
    ensures mode > 2 ==> Refused(x, s, OutOfRange)
    ensures mode <= 2 && s.binding.None? ==> Refused(x, s, NotInit)
    ensures mode <= 2 && s.binding.Some? ==> x.sent == [WriteFrame(Qsclk, [DigitChar(mode)])]
  {
    if mode > 2 then Exchange(OutOfRange, s, [], 0)
    else WriteCommand(s, Qsclk, None, [DigitChar(mode)], chunks)
  }

  const CpinReady: CString := "+CPIN: READY"

  /** `bc66_is_ready`: reads the SIM state and waits for the READY report. */
  function IsReady(s: State, chunks: seq<string>): (x: Exchange)
    ensures s.binding.None? ==> Refused(x, s, NotInit)
    ensures s.binding.Some? ==> x.sent == [ReadFrame(Cpin)] && (x.status == Success || x.status == Timeout)
  {
    SendWrites(s, Read, Cpin, Some(CpinReady), None, chunks);
    Send(s, CodeOf(Read), Cpin, Some(CpinReady), None, chunks)
  }

  /** `bc66_set_nbiot_event_report`: two flags. */
  function SetNbiotEventReport(s: State, enable: bool, event: bool, chunks: seq<string>): (x: Exchange)
    ensures s.binding.None? ==> Refused(x, s, NotInit)
    ensures s.binding.Some? ==> x.sent == [WriteFrame(Qnbiotevent, [Flag(enable), ',', Flag(event)])]
  {
    WriteCommand(s, Qnbiotevent, None, [Flag(enable), ',', Flag(event)], chunks)
  }

  /** Packet data protocol types; any other value of the C enumeration is
      `Other`. */
  datatype PdpType = Ip | Ipv6 | Ipv4v6 | NonIp | Other(code: int)

  /** The quoted name of a protocol type, if it has one. */
  function PdpName(p: PdpType): (r: Option<CString>)
    ensures r.Some? <==> !p.Other?
  {
    match p
    case Ip => Some("\"IP\"")
    case Ipv6 => Some("\"IPV6\"")
    case Ipv4v6 => Some("\"IPV4V6\"")
    case NonIp => Some("\"Non-IP\"")
    case Other(_) => None
  }

  /** `,"v"` for a given value, nothing for an absent one. */
  function QuotedField(v: Option<CString>): (r: CString) {
    if v.Some? then ",\"" + v.value + "\"" else ""
  }

  /** The argument text of the PSD connection command. */
  function PsdArgs(name: CString, apn: CString, user: Option<CString>, pass: Option<CString>): (r: CString)
    ensures name <= r
    ensures |r| == |name| + |apn| + 3 + (if user.Some? then |user.value| + 3 else 0)
                                     + (if pass.Some? then |pass.value| + 3 else 0)
  {
    name + QuotedField(Some(apn)) + QuotedField(user) + QuotedField(pass)
  }

  /** `bc66_set_psd_conn`: an unknown protocol type or a missing APN is
      refused; user name and password are each appended when given. */
  function SetPsdConn(s: State, pdp: PdpType, apn: Option<CString>, user: Option<CString>, pass: Option<CString>,
                      chunks: seq<string>): (x: Exchange)
    ensures pdp.Other? || apn.None? ==> Refused(x, s, OutOfRange)
    ensures !pdp.Other? && apn.Some? && s.binding.None? ==> Refused(x, s, NotInit)
    ensures !pdp.Other? && apn.Some? && s.binding.Some? ==>
      x.sent == [WriteFrame(Qcgdefcont, PsdArgs(PdpName(pdp).value, apn.value, user, pass))]
  {
    match PdpName(pdp)
    case None => Exchange(OutOfRange, s, [], 0)
    case Some(name) =>
      if apn.None? then Exchange(OutOfRange, s, [], 0)
      else WriteCommand(s, Qcgdefcont, None, PsdArgs(name, apn.value, user, pass), chunks)
  }

  /** A field holds no comma: a present one adds exactly one separator. */
  lemma QuotedFieldCommas(v: Option<CString>)
    requires v.Some? ==> ',' !in v.value
    ensures CountChar(QuotedField(v), ',') == (if v.Some? then 1 else 0)
  {
    if v.Some? {
      CountCharAppend(",\"", v.value, ',');
      CountCharAppend(",\"" + v.value, "\"", ',');
      CountCharAbsent(v.value, ',');
      assert CountChar(",\"", ',') == 1;
      assert CountChar("\"", ',') == 0;
    }
  }

  /** No protocol type name holds a comma. */
  lemma PdpNameNoComma(p: PdpType)
    requires !p.Other?
    ensures CountChar(PdpName(p).value, ',') == 0
  {
    CountCharAbsent(PdpName(p).value, ',');
  }

  /** The quoted fields after the type name: one comma for the APN and one
      for each credential given. */
  lemma FieldsCommas(apn: CString, user: Option<CString>, pass: Option<CString>)
    requires ',' !in apn && (user.Some? ==> ',' !in user.value) && (pass.Some? ==> ',' !in pass.value)
    ensures CountChar(QuotedField(Some(apn)) + QuotedField(user) + QuotedField(pass), ',')
         == 1 + (if user.Some? then 1 else 0) + (if pass.Some? then 1 else 0)
  {
    var q, u, w := QuotedField(Some(apn)), QuotedField(user), QuotedField(pass);
    QuotedFieldCommas(Some(apn));
    QuotedFieldCommas(user);
    QuotedFieldCommas(pass);
    CountCharAppend(q, u, ',');
    CountCharAppend(q + u, w, ',');
  }

  /** The argument text is the type name followed by the quoted fields. */
  lemma PsdArgsSplit(name: CString, apn: CString, user: Option<CString>, pass: Option<CString>)
    ensures PsdArgs(name, apn, user, pass) == name + (QuotedField(Some(apn)) + QuotedField(user) + QuotedField(pass))
  {
    var q, u, w := QuotedField(Some(apn)), QuotedField(user), QuotedField(pass);
    assert name + q + u + w == name + (q + u + w);
  }

  /** The argument text starts with the type name, and each given value
      adds one comma to those of the name. */
  lemma PsdArgsCommas(name: CString, apn: CString, user: Option<CString>, pass: Option<CString>)
    requires ',' !in apn && (user.Some? ==> ',' !in user.value) && (pass.Some? ==> ',' !in pass.value)
    ensures var args := PsdArgs(name, apn, user, pass);
      && name <= args
      && CountChar(args, ',') == CountChar(name, ',') + 1 + (if user.Some? then 1 else 0) + (if pass.Some? then 1 else 0)
  {
    var fields := QuotedField(Some(apn)) + QuotedField(user) + QuotedField(pass);
    FieldsCommas(apn, user, pass);
    CountCharAppend(name, fields, ',');
    PsdArgsSplit(name, apn, user, pass);
  }

  /** With no comma inside any value, the modem receives the protocol type,
      the APN and one more parameter for each credential given; a password
      given without a user name lands in the user name's position. */
  lemma PsdArgsFields(p: PdpType, apn: CString, user: Option<CString>, pass: Option<CString>)
    requires !p.Other?
    requires ',' !in apn && (user.Some? ==> ',' !in user.value) && (pass.Some? ==> ',' !in pass.value)
    ensures var args := PsdArgs(PdpName(p).value, apn, user, pass);
      && PdpName(p).value <= args
      && CountChar(args, ',') == 1 + (if user.Some? then 1 else 0) + (if pass.Some? then 1 else 0)
  {
    PdpNameNoComma(p);
    PsdArgsCommas(PdpName(p).value, apn, user, pass);
  }

  /** `,%u` of one band: a separator, then the digits. */
  function BandField(band: i32): (r: CString)
    ensures |r| >= 2 && r[0] == ','
    ensures CountChar(r, ',') == 1
  {
    var digits := UDec(band);
    DigitsExclude(digits, ',');
    CountCharAbsent(digits, ',');
    CountCharAppend(",", digits, ',');
    "," + digits
  }

  /** `,%u` for each band, in order. */
  function BandList(bands: seq<i32>): (r: CString)
    ensures CountChar(r, ',') == |bands|
    ensures r == [] || r[0] == ','
  {
    if bands == [] then ""
    else
      var prev := BandList(bands[..|bands| - 1]);
      var field := BandField(bands[|bands| - 1]);
      CountCharAppend(prev, field, ',');
      prev + field
  }

  /** The number of bands actually listed: none for a count below one. */
  function Listed(count: i32): nat {
    if count > 0 then count else 0
  }

  /** The argument text of the band command: the count, then each band. */
  function BandArgs(count: i32, bands: seq<i32>): (r: CString)
    requires count <= |bands|
    ensures UDec(count) <= r
    ensures |r| > |UDec(count)| <==> count > 0
  {
    UDec(count) + BandList(bands[..Listed(count)])
  }

  /** `bc66_set_mobile_bands`: the caller passes `count` bands after the
      count; a count of zero selects all bands. */
  function SetMobileBands(s: State, count: i32, bands: seq<i32>, chunks: seq<string>): (x: Exchange)
    requires count <= |bands|
    ensures s.binding.None? ==> Refused(x, s, NotInit)
    ensures s.binding.Some? ==> x.sent == [WriteFrame(Qband, BandArgs(count, bands))]
  {
    WriteCommand(s, Qband, None, BandArgs(count, bands), chunks)
  }

  /** The band text carries one separator per band listed. */
  lemma BandArgsSeparators(count: i32, bands: seq<i32>)
    requires count <= |bands|
    ensures CountChar(BandArgs(count, bands), ',') == Listed(count)
  {
    var head := UDec(count);
    var tail := BandList(bands[..Listed(count)]);
    DigitsExclude(head, ',');
    CountCharAbsent(head, ',');
    CountCharAppend(head, tail, ',');
  }

  /** The leading field of the band text reads back as the count for a
      non-negative count; a negative count is rendered as its 32-bit
      reinterpretation. */
  lemma BandArgsCount(count: i32, bands: seq<i32>)
    requires count <= |bands|
    ensures count >= 0 ==> Atoi(BandArgs(count, bands)) == count
    ensures count < 0 ==> Atoi(BandArgs(count, bands)) == count + 0x1_0000_0000
  {
    var tail := BandList(bands[..Listed(count)]);
    var u := count % 0x1_0000_0000;
    if count >= 0 {
      assert u == count;
    } else {
      assert u == count + 0x1_0000_0000;
    }
    assert BandArgs(count, bands) == Dec(u) + tail;
    AtoiDec(u, tail);
  }

  /** The stream after `n` reads. */
  function Drop(chunks: seq<string>, n: nat): seq<string> {
    if n <= |chunks| then chunks[n..] else []
  }

  /** The frames of writing each of `steps` to `id`, in order. */
  function Frames(id: CommandId, steps: seq<string>): (r: seq<string>)
    ensures |r| == |steps|
  {
    if steps == [] then [] else [WriteFrame(id, steps[0])] + Frames(id, steps[1..])
  }

  /** Exchange `e` run after exchange `p`: `e`'s code and state, the frames
      and polls of both. */
  function Then(p: Exchange, e: Exchange): (x: Exchange)
    ensures x.status == e.status && x.state == e.state
    ensures |x.sent| == |p.sent| + |e.sent|
    ensures x.sent[..|p.sent|] == p.sent && x.sent[|p.sent|..] == e.sent
    ensures x.polls == p.polls + e.polls
  {
    Exchange(e.status, e.state, p.sent + e.sent, p.polls + e.polls)
  }

  /** A write of one argument text: from a state and the stream still to
      be read, the exchange it makes. */
  type Writer = (State, CString, seq<string>) -> Exchange

  /** Writes each of `steps` with `write`, each after the previous succeeded
      and reading where the previous stopped; stops at the first failure and
      returns its code. */
  function Run(write: Writer, s: State, steps: seq<CString>, chunks: seq<string>): Exchange
    decreases |steps|
  {
    if steps == [] then Exchange(Success, s, [], 0)
    else
      var e := write(s, steps[0], chunks);
      if e.status != Success then e
      else Then(e, Run(write, e.state, steps[1..], Drop(chunks, e.polls)))
  }

  /** The write of an argument text to command `id`. */
  function WriterFor(id: CommandId): Writer
    requires Write in Lookup(id).forms
  {
    (t: State, args: CString, c: seq<string>) => WriteCommand(t, id, None, args, c)
  }

  /** The writes of `steps` to `id`, in order, until one fails. */
  function Chain(s: State, id: CommandId, steps: seq<CString>, chunks: seq<string>): (x: Exchange)
    requires Write in Lookup(id).forms
    ensures s.binding.None? && steps != [] ==> Refused(x, s, NotInit)
    ensures s.binding.Some? ==> x.status == Success || x.status == Timeout
    ensures s.binding.Some? ==> x.state.binding == s.binding
    ensures s.binding.Some? ==> x.sent <= Frames(id, steps) && (steps != [] ==> x.sent != [])
    ensures s.binding.Some? && x.status == Success ==> x.sent == Frames(id, steps)
  {
    RunFrames(s, id, steps, chunks);
    Run(WriterFor(id), s, steps, chunks)
  }

  /** What writing `steps` to `id` sends: a prefix of their frames, all of
      them on success. */
  lemma {:induction false} RunFrames(s: State, id: CommandId, steps: seq<CString>, chunks: seq<string>)
    requires Write in Lookup(id).forms
    ensures var x := Run(WriterFor(id), s, steps, chunks);
      && (s.binding.None? && steps != [] ==> Refused(x, s, NotInit))
      && (s.binding.Some? ==> x.status == Success || x.status == Timeout)
      && (s.binding.Some? ==> x.state.binding == s.binding)
      && (s.binding.Some? ==> x.sent <= Frames(id, steps) && (steps != [] ==> x.sent != []))
      && (s.binding.Some? && x.status == Success ==> x.sent == Frames(id, steps))
    decreases |steps|
  {
    if steps != [] {
      var e := WriteCommand(s, id, None, steps[0], chunks);
      assert WriterFor(id)(s, steps[0], chunks) == e;
      if e.status == Success {
        var r := Run(WriterFor(id), e.state, steps[1..], Drop(chunks, e.polls));
        RunFrames(e.state, id, steps[1..], Drop(chunks, e.polls));
        PrefixCons(WriteFrame(id, steps[0]), r.sent, Frames(id, steps[1..]));
      }
    }
  }

  lemma PrefixCons(f: string, a: seq<string>, b: seq<string>)
    requires a <= b
    ensures [f] + a <= [f] + b
  {
    assert ([f] + b)[..|a| + 1] == [f] + a;
  }

  /** Reading `a` chunks and then `b` more is reading `a + b`. */
  lemma DropDrop(chunks: seq<string>, a: nat, b: nat)
    ensures Drop(Drop(chunks, a), b) == Drop(chunks, a + b)
  {
    if a + b <= |chunks| {
      assert chunks[a..][b..] == chunks[a + b..];
    }
  }

  /** The first steps without the first one are a prefix of the rest. */
  lemma TailOfPrefix<T>(steps: seq<T>, n: nat)
    requires 0 < n < |steps|
    ensures steps[..n][1..] == steps[1..][..n - 1]
    ensures steps[..n + 1][1..] == steps[1..][..n]
    ensures steps[..n][0] == steps[0] && steps[1..][n - 1] == steps[n]
  {
  }

  /** Running three exchanges in a row does not depend on grouping. */
  lemma ThenAssoc(a: Exchange, b: Exchange, c: Exchange)
    ensures Then(Then(a, b), c) == Then(a, Then(b, c))
  {
    assert a.sent + b.sent + c.sent == a.sent + (b.sent + c.sent);
  }

  /** Running the first `n + 1` steps is running the first `n` and then
      step `n`: a run that succeeded so far writes the next step from the
      state it reached, reading where it stopped. */
  lemma {:induction false} RunSnoc(write: Writer, s: State, steps: seq<CString>, chunks: seq<string>, n: nat)
    requires n < |steps|
    ensures var p := Run(write, s, steps[..n], chunks);
      p.status == Success ==>
        Run(write, s, steps[..n + 1], chunks) == Then(p, write(p.state, steps[n], Drop(chunks, p.polls)))
    decreases n
  {
    var e0 := write(s, steps[0], chunks);
    if n == 0 {
      assert steps[..1][1..] == [];
      assert Drop(chunks, 0) == chunks;
      assert [] + e0.sent == e0.sent;
    } else {
      TailOfPrefix(steps, n);
      if e0.status == Success {
        var rest := steps[1..];
        var c0 := Drop(chunks, e0.polls);
        RunSnoc(write, e0.state, rest, c0, n - 1);
        var q := Run(write, e0.state, rest[..n - 1], c0);
        DropDrop(chunks, e0.polls, q.polls);
        ThenAssoc(e0, q, write(q.state, rest[n - 1], Drop(c0, q.polls)));
      }
    }
  }

  /** Once a prefix of the steps has failed, the whole run is that prefix:
      nothing more is written and the failure's code is returned. */
  lemma {:induction false} RunStopsAtFailure(write: Writer, s: State, steps: seq<CString>, chunks: seq<string>, n: nat)
    requires n <= |steps|
    ensures Run(write, s, steps[..n], chunks).status != Success ==>
      Run(write, s, steps, chunks) == Run(write, s, steps[..n], chunks)
    decreases n
  {
    if n > 0 {
      var e0 := write(s, steps[0], chunks);
      if n < |steps| {
        TailOfPrefix(steps, n);
      } else {
        assert steps[..n] == steps;
      }
      if e0.status == Success {
        RunStopsAtFailure(write, e0.state, steps[1..], Drop(chunks, e0.polls), n - 1);
      }
    }
  }

  /** The frames of the first `n + 1` steps. */
  lemma {:induction false} FramesSnoc(id: CommandId, steps: seq<string>, n: nat)
    requires n < |steps|
    ensures Frames(id, steps[..n + 1]) == Frames(id, steps[..n]) + [WriteFrame(id, steps[n])]
    decreases n
  {
    if n > 0 {
      TailOfPrefix(steps, n);
      FramesSnoc(id, steps[1..], n - 1);
    } else {
      assert steps[..1][1..] == [];
    }
  }

  /** The chain stops at its first failed write, whichever step that is:
      when the steps before step `n` succeeded and the write of step `n`
      fails, the chain returns that write's code and state, and the frames
      written are those of steps `0` to `n`, nothing after. */
  lemma ChainFailedWrite(s: State, id: CommandId, steps: seq<CString>, chunks: seq<string>, n: nat)
    requires Write in Lookup(id).forms && n < |steps|
    ensures var p := Chain(s, id, steps[..n], chunks);
      var e := WriteCommand(p.state, id, None, steps[n], Drop(chunks, p.polls));
      var x := Chain(s, id, steps, chunks);
      p.status == Success && e.status != Success ==>
        && x.status == e.status && x.state == e.state
        && x.polls == p.polls + e.polls
        && (s.binding.Some? ==> x.sent == Frames(id, steps[..n + 1]))
  {
    var write := WriterFor(id);
    var p := Chain(s, id, steps[..n], chunks);
    assert write(p.state, steps[n], Drop(chunks, p.polls)) ==
      WriteCommand(p.state, id, None, steps[n], Drop(chunks, p.polls));
    RunSnoc(write, s, steps, chunks, n);
    RunStopsAtFailure(write, s, steps, chunks, n + 1);
    FramesSnoc(id, steps, n);
    assert Chain(s, id, steps[..n + 1], chunks) == Run(write, s, steps[..n + 1], chunks);
  }

  /** The four MQTT configuration writes, in order. */
  function MqttSteps(keepalive: u16, dataformat: bool, session: bool, version: bool): (r: seq<CString>)
    ensures |r| == 4
    ensures "\"keepalive\",0," <= r[0] && "\"dataformat\",0," <= r[1]
    ensures "\"session\",0," <= r[2] && "\"version\"," <= r[3]
    ensures r[1][|r[1]| - 1] == r[1][|r[1]| - 3] == Flag(dataformat)
    ensures r[2][|r[2]| - 1] == Flag(session)
    ensures r[3][|r[3]| - 1] == (if version then '4' else '3')
  {
    [ "\"keepalive\",0," + Dec(keepalive),
      "\"dataformat\",0," + [Flag(dataformat), ',', Flag(dataformat)],
      "\"session\",0," + [Flag(session)],
      "\"version\"," + [if version then '4' else '3'] ]
  }

  /** `bc66_set_mqtt_parameters`: a keep-alive above 3600 s is refused;
      otherwise the four settings are written in order until one fails. */
  function SetMqttParameters(s: State, keepalive: u16, dataformat: bool, session: bool, version: bool,
                             chunks: seq<string>): (x: Exchange)
    ensures keepalive > 3600 ==> Refused(x, s, OutOfRange)
    ensures keepalive <= 3600 && s.binding.None? ==> Refused(x, s, NotInit)
    ensures keepalive <= 3600 && s.binding.Some? ==>
      var frames := Frames(Qmtcfg, MqttSteps(keepalive, dataformat, session, version));
      && 1 <= |x.sent| && x.sent <= frames
      && (x.status == Success ==> x.sent == frames)
      && (x.status == Success || x.status == Timeout)
  {
    if keepalive > 3600 then Exchange(OutOfRange, s, [], 0)
    else Chain(s, Qmtcfg, MqttSteps(keepalive, dataformat, session, version), chunks)
  }

  /** A failed keep-alive write ends the configuration: nothing more is
      written and its code is returned. */
  lemma MqttStopsAtFirstFailure(s: State, keepalive: u16, dataformat: bool, session: bool, version: bool,
                                chunks: seq<string>)
    requires keepalive <= 3600
    requires WriteCommand(s, Qmtcfg, None, "\"keepalive\",0," + Dec(keepalive), chunks).status != Success
    ensures SetMqttParameters(s, keepalive, dataformat, session, version, chunks) ==
      WriteCommand(s, Qmtcfg, None, "\"keepalive\",0," + Dec(keepalive), chunks)
  {
  }

  /** Whichever configuration write fails first ends the configuration:
      its code is returned and no later setting is written. */
  lemma MqttStopsAtFailure(s: State, keepalive: u16, dataformat: bool, session: bool, version: bool,
                           chunks: seq<string>, n: nat)
    requires keepalive <= 3600 && n < 4
    ensures var steps := MqttSteps(keepalive, dataformat, session, version);
      var p := Chain(s, Qmtcfg, steps[..n], chunks);
      var e := WriteCommand(p.state, Qmtcfg, None, steps[n], Drop(chunks, p.polls));
      var x := SetMqttParameters(s, keepalive, dataformat, session, version, chunks);
      p.status == Success && e.status != Success ==>
        && x.status == e.status && x.state == e.state
        && (s.binding.Some? ==> x.sent == Frames(Qmtcfg, steps[..n + 1]))
  {
    ChainFailedWrite(s, Qmtcfg, MqttSteps(keepalive, dataformat, session, version), chunks, n);
  }

  /** The keep-alive written reads back as the value given. */
  lemma MqttKeepaliveReadBack(keepalive: u16, dataformat: bool, session: bool, version: bool)
    ensures var step := MqttSteps(keepalive, dataformat, session, version)[0];
      |step| > 14 && Atoi(step[14..]) == keepalive
  {
    var step := MqttSteps(keepalive, dataformat, session, version)[0];
    assert step[14..] == Dec(keepalive) + "";
    AtoiDec(keepalive, "");
  }

  /** Argument text of the open, as the format at src/bc66_drv.c:935
      prints it: link 0, quoted server, port. */
  function OpenArgs(serverIp: CString, port: u16): CString {
    "0,\"" + serverIp + "\"," + Dec(port)
  }

  /** Argument text of the connect, as the format at src/bc66_drv.c:955
      prints it: link 0 and three quoted fields. */
  function ConnectArgs(clientId: CString, user: CString, pass: CString): CString {
    "0,\"" + clientId + "\",\"" + user + "\",\"" + pass + "\""
  }

  /** Argument text of the publish, as the format at src/bc66_drv.c:1006
      prints it: link 0, message id 0, QoS, no retain, quoted topic and
      message. */
  function PublishArgs(topic: CString, msg: CString, qos: i32): CString {
    "0,0," + UDec(qos) + ",0,\"" + topic + "\",\"" + msg + "\""
  }

  /** `bc66_open_net_mqtt_client`: opens network link 0 to a server. */
  function OpenNetMqttClient(s: State, serverIp: CString, port: u16, chunks: seq<string>): (x: Exchange)
    ensures s.binding.None? ==> Refused(x, s, NotInit)
    ensures s.binding.Some? ==> x.sent == [WriteFrame(Qmtopen, "0,\"" + serverIp + "\"," + Dec(port))]
  {
    WriteCommand(s, Qmtopen, Some("+QMTOPEN: 0,0"), OpenArgs(serverIp, port), chunks)
  }

  /** `bc66_connect_mqtt_client`: connects client `clientId` on link 0. */
  function ConnectMqttClient(s: State, clientId: CString, user: CString, pass: CString, chunks: seq<string>): (x: Exchange)
    ensures s.binding.None? ==> Refused(x, s, NotInit)
    ensures s.binding.Some? ==>
      x.sent == [WriteFrame(Qmtconn, "0,\"" + clientId + "\",\"" + user + "\",\"" + pass + "\"")]
  {
    WriteCommand(s, Qmtconn, Some("+QMTCONN: 0,0,0"), ConnectArgs(clientId, user, pass), chunks)
  }

  /** The connect text for the longest client id, a 120-character user
      name and an empty password: 258 characters, starting with the link,
      the opening quote and the first character of the id. */
  lemma LongConnectArgs(clientId: CString, user: CString)
    requires |clientId| == 128 && |user| == 120
    ensures var a := ConnectArgs(clientId, user, "");
      |a| == 258 && a[..4] == "0,\"" + clientId[..1]
  {
    var a := ConnectArgs(clientId, user, "");
    var tail := "\",\"" + user + "\",\"" + "" + "\"";
    assert a == "0,\"" + clientId + tail;
    assert |tail| == 127;
    assert a[..4] == ("0,\"" + clientId + tail)[..4];
  }

  /** A connect frame whose text is 258 characters long is 271 characters
      long, and its first 15 characters are the command, the link, the
      opening quote and the text's fourth character. */
  lemma ConnectFrameHead(f: string, a: string, first: string)
    requires f == "AT+QMTCONN=" + a + CmdEndLine
    requires |a| == 258 && a[..4] == "0,\"" + first
    ensures |f| == 271 && NarrowWrite(f) == "AT+QMTCONN=0,\"" + first
  {
    assert f[..15] == "AT+QMTCONN=" + a[..4];
  }

  /** The text a write to the connect command puts before its arguments. */
  lemma ConnectHead()
    ensures "AT" + Lookup(Qmtconn).mnemonic + "=" == "AT+QMTCONN="
  {
  }

  /** A connect with a client id of 128 characters, a user name of 120 and
      an empty password builds a frame of 271 characters; a write whose
      size is a `uint8_t` delivers only its first 15. */
  lemma LongConnectTruncated(s: State, clientId: CString, user: CString, chunks: seq<string>)
    requires s.binding.Some? && |clientId| == 128 && |user| == 120
    ensures var f := ConnectMqttClient(s, clientId, user, "", chunks).sent[0];
      && |f| == 271
      && NarrowWrite(f) == "AT+QMTCONN=0,\"" + clientId[..1]
  {
    var a := ConnectArgs(clientId, user, "");
    var x := WriteCommand(s, Qmtconn, Some("+QMTCONN: 0,0,0"), a, chunks);
    assert ConnectMqttClient(s, clientId, user, "", chunks) == x;
    ConnectHead();
    LongConnectArgs(clientId, user);
    ConnectFrameHead(x.sent[0], a, clientId[..1]);
  }

  /** `bc66_disconn_mqtt_client`: disconnects link 0. */
  function DisconnMqttClient(s: State, chunks: seq<string>): (x: Exchange)
    ensures s.binding.None? ==> Refused(x, s, NotInit)
    ensures s.binding.Some? ==> x.sent == [WriteFrame(Qmtdisc, "0")]
  {
    WriteCommand(s, Qmtdisc, Some("+QMTDISC: 0,0"), "0", chunks)
  }

  /** `bc66_publish_msg_mqtt`: publishes on link 0 with message id 0 and no
      retain; the QoS is rendered with `%u`, unchecked. */
  function PublishMsgMqtt(s: State, topic: CString, msg: CString, qos: i32, chunks: seq<string>): (x: Exchange)
    ensures s.binding.None? ==> Refused(x, s, NotInit)
    ensures s.binding.Some? ==>
      x.sent == [WriteFrame(Qmtpub, "0,0," + UDec(qos) + ",0,\"" + topic + "\",\"" + msg + "\"")]
  {
    WriteCommand(s, Qmtpub, Some("+QMTPUB: 0,0,0"), PublishArgs(topic, msg, qos), chunks)
  }

  /** A command confirmed by an expected reply with no carriage return in
      it succeeds only after a reply line starting with that text was read;
      that line is then the last response. */
  lemma ConfirmedBy(s: State, form: Form, id: CommandId, expected: CString, args: Option<CString>,
                    chunks: seq<string>)
    requires '\r' !in expected
    requires Send(s, CodeOf(form), id, Some(expected), args, chunks).status == Success
    ensures expected <= Send(s, CodeOf(form), id, Some(expected), args, chunks).state.lastResponse
  {
    assert NoCrAfterFirst(expected) by {
      forall k | 0 < k < |expected|
        ensures expected[k] != '\r'
      {
        assert expected[k] in expected;
      }
    }
    SuccessReadsReply(s, form, id, Some(expected), args, chunks);
  }

  /** The modem is reported ready only on a "+CPIN: READY" line. */
  lemma ReadyMeansSimReady(s: State, chunks: seq<string>)
    requires IsReady(s, chunks).status == Success
    ensures CpinReady <= IsReady(s, chunks).state.lastResponse
  {
    ConfirmedBy(s, Read, Cpin, CpinReady, None, chunks);
  }

  /** Opening succeeds only on a "+QMTOPEN: 0,0" line: link 0, result 0. */
  lemma OpenConfirmed(s: State, serverIp: CString, port: u16, chunks: seq<string>)
    ensures OpenNetMqttClient(s, serverIp, port, chunks).status == Success ==> "+QMTOPEN: 0,0" <= OpenNetMqttClient(s, serverIp, port, chunks).state.lastResponse
  {
    if OpenNetMqttClient(s, serverIp, port, chunks).status == Success {
      ConfirmedBy(s, Write, Qmtopen, "+QMTOPEN: 0,0", Some(OpenArgs(serverIp, port)), chunks);
    }
  }

  /** Connecting succeeds only on a "+QMTCONN: 0,0,0" line: link 0, packet
      sent, connection accepted. */
  lemma ConnectConfirmed(s: State, clientId: CString, user: CString, pass: CString, chunks: seq<string>)
    ensures ConnectMqttClient(s, clientId, user, pass, chunks).status == Success ==> "+QMTCONN: 0,0,0" <= ConnectMqttClient(s, clientId, user, pass, chunks).state.lastResponse
  {
    if ConnectMqttClient(s, clientId, user, pass, chunks).status == Success {
      ConfirmedBy(s, Write, Qmtconn, "+QMTCONN: 0,0,0", Some(ConnectArgs(clientId, user, pass)), chunks);
    }
  }

  /** Disconnecting succeeds only on a "+QMTDISC: 0,0" line. */
  lemma DisconnConfirmed(s: State, chunks: seq<string>)
    ensures DisconnMqttClient(s, chunks).status == Success ==> "+QMTDISC: 0,0" <= DisconnMqttClient(s, chunks).state.lastResponse
  {
    if DisconnMqttClient(s, chunks).status == Success {
      ConfirmedBy(s, Write, Qmtdisc, "+QMTDISC: 0,0", Some("0"), chunks);
    }
  }

  /** Publishing succeeds only on a "+QMTPUB: 0,0,0" line: link 0, message
      id 0, sent. */
  lemma PublishConfirmed(s: State, topic: CString, msg: CString, qos: i32, chunks: seq<string>)
    ensures PublishMsgMqtt(s, topic, msg, qos, chunks).status == Success ==> "+QMTPUB: 0,0,0" <= PublishMsgMqtt(s, topic, msg, qos, chunks).state.lastResponse
  {
    if PublishMsgMqtt(s, topic, msg, qos, chunks).status == Success {
      ConfirmedBy(s, Write, Qmtpub, "+QMTPUB: 0,0,0", Some(PublishArgs(topic, msg, qos)), chunks);
    }
  }
}
