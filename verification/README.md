# Quectel BC66 AT-command driver, modelled in Dafny

The driver talks to a BC66 NB-IoT modem over a byte transport. Each operation
works the same way:

- it formats one AT command from a constant table of 22 commands (the command
  catalog);
- it writes the command to the transport;
- it polls the transport once per millisecond, appending what it reads to a
  receive buffer and scanning that buffer for the expected reply;
- it stops when the reply line is found or the command's timeout runs out.

On top of this engine sit the device operations:

- the echo setter, and the range-checked setters of EPS registration
  reporting, power saving and sleep;
- the SIM-ready query;
- the PDP context definition, the band selection and the NB-IoT event report;
- the four-step MQTT configuration and the MQTT wrappers (open, connect,
  disconnect, publish);
- the IPv4 address query and its reply parser.

The model keeps the driver's process-wide buffers as an explicit `State` value:

- the bound transport;
- the receive buffer;
- the transmit buffer;
- the last reply line.

Every operation that sends a command returns an `Exchange`, which holds:

- the return code;
- the new state;
- the frames written to the transport;
- the number of polls.

`Init` and `Deinit` return the code and the new state, and `GetAtResponse`
returns the reply it took, if any, and the new state.

The transport's reads are a stream of chunks, one per poll. A missing chunk is
an empty read.

Files:

- `ctext.dfy` (`CText`): the C library operations the driver relies on:
  - NUL-terminated copy (`strcat` of a NUL-padded read);
  - `strstr`, `strchr`;
  - `%u` rendering;
  - `atoi`, with leading white space, an optional sign and the digit loop.
- `catalog.dfy` (`Catalog`): the command catalog, the form codes of
  `bc66_cmd_type_t`, and the reply constants.
- `scanner.dfy` (`Scanner`): `_bc66_at_parser`.
- `polling.dfy` (`Polling`): `_bc66_find_at_response`, as a recursive
  function and as the counting loop the driver runs.
- `engine.dfy` (`Engine`): `bc66_init`, `bc66_deinit`, `bc66_hw_reset`,
  `bc66_send_at_command`, `bc66_get_at_response`.
- `device.dfy` (`Device`): the setters, the PSD connection, the bands, the
  MQTT configuration and the MQTT wrappers.
- `addr.dfy` (`AddrReply`): the `+CGPADDR` reply text and its parse.
- `ipv4.dfy` (`IpAddress`): `bc66_get_ipv4_address`.

Behaviour of the code that the model keeps, as written:

- **ERROR is not detected.** A command only ever waits for its expected
  reply, or for `"\r\nOK\r\n"`. A modem answering `"\r\nERROR\r\n"` makes the
  command wait out its whole timeout and return `Timeout`
  (`Engine.ErrorReplyTimesOut`).
- **Unsupported forms resend the old frame.** When a command does not accept
  the requested form, the transmit buffer is not rewritten. The previous frame
  is sent again with one more terminator appended (`Engine.SentFrame`).
- **Unknown form codes.** A form code outside 0..3 returns "no command
  implemented". This happens after the receive buffer has been flushed.
- **The transmit flush clears the receive buffer.** `_bc66_tx_buffer_flush`
  clears the receive buffer, not the transmit buffer. So `Init` leaves the
  transmit buffer as it was.
- **`bc66_hw_reset` always reports an error.** `bc66_init` overwrites that
  code with success.
- **`bc66_deinit` ignores its argument.**
- **The last reply is kept.** The comment at `src/bc66_drv.c:577` says the
  last response is erased when a new command is sent. The code never clears
  it: a command that times out keeps the previous reply (`Engine.Send`).
- **The QMTCLOSE catalog entry.** Its mnemonic is `"AT+QMTCLOSE"`, so its
  request begins `"ATAT"`.
- **Scanning is not idempotent.** A scan can splice the buffer so that a new
  occurrence of the token forms across the cut (`Scanner.SpliceCanRecreateToken`).
  So a second scan after a successful one can succeed again on the same
  bytes.
- **A password without a user name.** The password lands in the user name's
  position of the PDP context command (`Device.PsdArgsFields`).
- **The address fields are stored in reverse.** The first dotted field goes
  to `a4` and the last to `a1`. So `"+CGPADDR: 1,10.20.30.40"` stores 10 in
  `a4` and 40 in `a1` (`IpAddress.SampleAddress`).
- **A failed address parse leaves a partial update.** The fields read before
  the missing dot stay stored. `a1`, the last field, is written only on
  success (`AddrReply.PartialWrite`).
- **Every failure of the address query reads as "no address"**, including an
  unbound driver and a timeout.

## Model

| member | source | states |
|---|---|---|
| CText.UpToNul | src/bc66_drv.c:407-410 | what `strcat` appends from a zeroed, then filled, read buffer: a prefix of the read that stops at the first NUL, or the whole read when it holds none |
| CText.FindFrom | src/bc66_drv.c:366-367 | `strstr` from a start index: a hit is an occurrence at or after the start with no earlier one; a miss means no occurrence at all from the start |
| CText.FindFromFirst | src/bc66_drv.c:366 | the first occurrence after the start is exactly what `strstr` returns |
| CText.FindChar | src/bc66_drv.c:694 | `strchr`: a hit is an index at or after the start that holds the character |
| CText.FindCharIsFindFrom | src/bc66_drv.c:694-703 | `strchr` of a character agrees with `strstr` of the one-character string, at every start |
| CText.FindCharAt | src/bc66_drv.c:697 | `strchr` finds the first position holding the character when none before it does |
| CText.FindCharAbsent | src/bc66_drv.c:697 | `strchr` finds nothing when the character does not occur from the start on |
| CText.TerminatorOnlyAtEnd | src/bc66_drv.c:495 | a body without carriage return followed by the appended CRLF holds its first CRLF at the end |
| CText.Dec | src/bc66_drv.c:797 | `%u` of a value: at least one character, all decimal digits, no leading zero |
| CText.DecValue | src/bc66_drv.c:797 | the digits `%u` writes denote the value written |
| CText.DigitsExclude | src/bc66_drv.c:807 | a run of digits holds no separator character (comma, dot) |
| CText.ReadDigitsStop | src/bc66_drv.c:696 | `atoi`'s digit loop stops at the first non-digit |
| CText.UDec | src/bc66_drv.c:797 | `%u` of an `int`: decimal digits; a value in 0..2^32-1 prints as itself, a negative 32-bit value as the value plus 2^32 |
| CText.Atoi | src/bc66_drv.c:696-705 | `atoi`: 0 when the text starts with neither space, sign nor digit; non-positive after a minus, non-negative after a plus or a digit |
| CText.ReadDigitsSnoc | src/bc66_drv.c:696 | one more digit multiplies the accumulated value by ten and adds the digit |
| CText.ReadDigitsValue | src/bc66_drv.c:696 | the digit loop from zero computes the value of the digits |
| CText.AtoiDigits | src/bc66_drv.c:696-705 | `atoi` of a digit run followed by a non-digit is the value of the run |
| CText.AtoiDec | src/bc66_drv.c:797 | `atoi` reads back what `%u` wrote, whatever non-digit follows |
| CText.CountCharAppend | src/bc66_drv.c:762-776 | counting a character in a concatenation adds the counts of the parts |
| CText.CountCharAbsent | src/bc66_drv.c:762-776 | a character that does not occur counts zero |
| Catalog.CodeOf | src/bc66_drv.h:67-72 | every form's code lies in the enumeration's range 0..3 |
| Catalog.FormOf | src/bc66_drv.h:67-72 | a code names a form exactly when it lies in 0..3, and names the form with that code |
| Catalog.FormCodeRoundTrip | src/bc66_drv.h:67-72 | form and code convert into each other in both directions |
| Catalog.Index | src/bc66_drv.c:123-281 | each command has a position below 22 in the table, and the table lists it at that position |
| Catalog.IndexInjective | src/bc66_drv.c:123-281 | two commands share a table position only when they are the same command, and the table entry at a command's position is its descriptor |
| Catalog.Lookup | src/bc66_drv.c:123-281 | the descriptor of each of the 22 commands: mnemonic, accepted forms, RSP_OK as the success reply and a timeout between 300 and 85000 ms |
| Catalog.CatalogShape | src/bc66_drv.c:123-281 | only the bare `AT` has an empty mnemonic, and exactly the first three entries accept the execution form alone |
| Catalog.CatalogEntries | src/bc66_drv.c:123-281 | every entry waits for `"\r\nOK\r\n"`, has a positive timeout and accepts at least one form |
| Catalog.ModemMnemonicsNoCr | src/bc66_drv.c:123-223 | the mnemonics of the first fourteen entries hold no carriage return |
| Catalog.MqttMnemonicsNoCr | src/bc66_drv.c:229-281 | the mnemonics of the MQTT entries hold no carriage return |
| Catalog.MnemonicNoCr | src/bc66_drv.c:123-281 | no mnemonic holds a carriage return |
| Catalog.CloseMnemonicHasPrefix | src/bc66_drv.c:243 | the QMTCLOSE mnemonic carries its own `AT` prefix and is the only one starting with `A` |
| Scanner.AtParser | src/bc66_drv.c:362-386 | a taken reply line is shorter than 64 characters and the buffer shrinks by exactly its length |
| Scanner.ParserWitness | src/bc66_drv.c:366-380 | a match is the slice from the token's first occurrence to just past the first CRLF starting after the token's first character, shorter than 64, and the buffer loses exactly that slice |
| Scanner.ParserComplete | src/bc66_drv.c:366-380 | conversely, whenever such a slice exists the scanner returns it and splices it out |
| Scanner.ParserMeaning | src/bc66_drv.c:362-386 | the scanner matches exactly when such a slice exists (both directions), and then returns it |
| Scanner.ParserMisses | src/bc66_drv.c:366-385 | the three misses: no token, no terminator after the token's first character, a line of 64 characters or more |
| Scanner.MatchPositions | src/bc66_drv.c:366-380 | a match gives the token's position and the closing terminator's position, with no terminator between |
| Scanner.ResponseShape | src/bc66_drv.c:367-376 | a taken line ends with CRLF and either lies inside the token or starts with it; a token with no carriage return after its first character starts the line |
| Scanner.EnclosedTokenIsWholeLine | src/bc66_drv.c:367-369 | a token of the form CRLF, body, CRLF is taken out exactly, because the terminator search starts one past the token's start |
| Scanner.NoTerminatorInside | src/bc66_drv.c:367 | no CRLF starts strictly inside such a token before its closing one |
| Scanner.SpliceFirstScan | src/bc66_drv.c:366-380 | scanning "OOK\r\nK\r\n" for "OK" takes "OK\r\n" and leaves "OK\r\n" |
| Scanner.SpliceSecondScan | src/bc66_drv.c:366-380 | scanning "OK\r\n" for "OK" takes the whole buffer |
| Scanner.SpliceCanRecreateToken | src/bc66_drv.c:378 | the splice can join the halves around the cut into a new match, so a repeated scan is not a no-op |
| Polling.Wait | src/bc66_drv.c:399-419 | a timeout of zero polls nothing and times out; a timeout reports exactly `timeout` polls; a success reports between 1 and `timeout` polls |
| Polling.FindAtResponse | src/bc66_drv.c:399-419 | the loop with a count-down counter, one read and one scan per iteration, computes the same outcome as the wait function |
| Polling.StepFound | src/bc66_drv.c:410-413 | an iteration whose scan hits ends the wait at that poll |
| Polling.StepMissed | src/bc66_drv.c:410-415 | an iteration whose scan misses hands the rest of the wait to the next iteration |
| Polling.ChunkRest | src/bc66_drv.c:408 | after one read the stream holds the later chunks |
| Polling.ReceivedShift | src/bc66_drv.c:408-410 | reading once and then `n` times appends the same text as reading `n + 1` times |
| Polling.HitShift | src/bc66_drv.c:411 | a hit after read `k + 1` is a hit after read `k` of the stream that follows the first read |
| Polling.FirstHit | src/bc66_drv.c:410-411 | the first scan sees the buffer plus the first read |
| Polling.WaitUnfold | src/bc66_drv.c:403-416 | one iteration: a hit ends the wait after one poll, a miss continues with one poll fewer |
| Polling.FoundScan | src/bc66_drv.c:411-413 | on success, the reply and the buffer left are what the scan after the last read yields |
| Polling.WaitFoundFirst | src/bc66_drv.c:403-414 | on success no earlier read made the scan hit: the reply comes from the first hitting read |
| Polling.TimedOutKeeps | src/bc66_drv.c:403-418 | on timeout the buffer holds everything read |
| Polling.WaitTimedOut | src/bc66_drv.c:403-418 | on timeout no read before the timeout made the scan hit, and the buffer holds everything read |
| Polling.WaitFoundIff | src/bc66_drv.c:399-419 | the wait succeeds exactly when some read before the timeout makes the scan hit |
| Engine.Init | src/bc66_drv.c:306-336 | initialisation succeeds exactly when no transport is bound; it then binds the given one and clears the receive buffer; otherwise it reports an error and changes nothing; the bound driver is then reset, whose error code is not passed on; transmit buffer and last reply are untouched |
| Engine.Deinit | src/bc66_drv.c:345-349 | the binding is released whatever object is passed; the buffers are untouched |
| Engine.Send | src/bc66_drv.c:434-509 | unbound: not initialised, nothing written; unknown form code: no command implemented after the receive flush; otherwise one frame ending in CRLF is written and kept in the transmit buffer, the result is success or timeout within the command's timeout, and a timeout keeps the previous last reply |
| Engine.GetAtResponse | src/bc66_drv.c:521-524 | a reply is returned exactly when the buffer holds the token followed by a terminator within 64 characters; the reply is the slice from the token's first occurrence to that terminator, and the buffer keeps the text before and after it; with no reply nothing changes |
| Engine.InitOnce | src/bc66_drv.c:306-336 | a second initialisation fails and keeps the first binding |
| Engine.HwReset | src/bc66_drv.c:534-545 | the reset reports an error in every case; the reset line is driven high and then low exactly when a transport is bound |
| Engine.Request | src/bc66_drv.c:445-487 | the request a supported form formats starts with `AT` and the mnemonic |
| Engine.RequestSuffix | src/bc66_drv.c:445-487 | after `AT` and the mnemonic: `=?` for a test, `?` for a read, `=` and the arguments for a write, the arguments alone for an execution |
| Engine.Staged | src/bc66_drv.c:445-487 | a form the command does not accept leaves the transmit buffer as it was; an accepted one stages a request starting with `AT` and the mnemonic |
| Engine.NarrowWrite | src/bc66_drv.h:56 | what a write whose size is a `uint8_t` delivers: a prefix of the frame, shorter than 256, the whole frame exactly when it is shorter than 256 |
| Engine.DeinitThenInit | src/bc66_drv.c:345-349 | after a release every command is refused without effect, and initialisation succeeds again with any transport |
| Engine.SendWrites | src/bc66_drv.c:441-496 | a bound driver with a known form writes exactly one frame, the staged request plus CRLF, which the transmit buffer keeps |
| Engine.SentFrame | src/bc66_drv.c:445-495 | the frame per form: `AT`, mnemonic and `=?`, `?`, `=` plus arguments or the arguments alone, then CRLF; a form the command does not accept resends the previous frame with one more CRLF |
| Engine.FrameTerminatedOnce | src/bc66_drv.c:495-496 | with arguments free of carriage returns, the only CRLF in the frame is the appended one |
| Engine.SendWaitsForTarget | src/bc66_drv.c:499-506 | the engine waits for the caller's expected reply when given, else for `"\r\nOK\r\n"`, for the command's timeout, from an empty receive buffer |
| Engine.SuccessReadsReply | src/bc66_drv.c:499-508 | every success comes after at least one poll, from a line the scanner took out of what the transport sent; the line ends with CRLF, is shorter than 64, and starts with the expected text when that text has no carriage return after its first character |
| Engine.ReceivedOneChunk | src/bc66_drv.c:407-410 | a stream of one chunk: later reads add nothing |
| Engine.FirstReadHits | src/bc66_drv.c:411-413 | a scan that hits on the first read ends the wait after one poll |
| Engine.OkInFirstRead | src/bc66_drv.c:403-414 | an OK reply arriving whole in the first read, among other lines, completes the command after one poll and leaves the other text in the buffer |
| Engine.OkIsWholeLine | src/bc66_drv.c:367-378 | the OK reply is cut out of a read as a whole line |
| Engine.ErrorReplyTimesOut | src/bc66_drv.c:499-506 | a modem answering only ERROR makes the command time out after its full timeout, with the ERROR text left in the buffer |
| Engine.ErrorIsNotOk | src/bc66_drv.c:69-70 | the ERROR reply holds no OK reply |
| Device.Flag | src/bc66_drv.c:620 | `'0' + (int)b`: the digit 1 for true, 0 for false |
| Device.WriteCommand | src/bc66_drv.c:459-472 | a write of argument text: refused when unbound, else one `AT<mnemonic>=<args>` frame and success or timeout |
| Device.SendCmdAt | src/bc66_drv.c:595-598 | the bare `AT\r\n` frame; success or timeout when bound, refused when unbound |
| Device.SetEchoMode | src/bc66_drv.c:618-621 | `ATE` followed by the flag digit |
| Device.SetEps | src/bc66_drv.c:641-648 | modes above 5 are refused before anything is written; otherwise `AT+CEREG=` and the mode digit |
| Device.SetPowerSavingMode | src/bc66_drv.c:664-671 | modes outside 0..2, negative ones included, are refused; otherwise `AT+CPSMS=` and the mode digit |
| Device.SetSleepMode | src/bc66_drv.c:864-870 | modes above 2 are refused; otherwise `AT+QSCLK=` and the mode digit |
| Device.IsReady | src/bc66_drv.c:828-831 | the read form `AT+CPIN?`, success or timeout |
| Device.SetNbiotEventReport | src/bc66_drv.c:846-849 | `AT+QNBIOTEVENT=` with the two flags separated by a comma |
| Device.PdpName | src/bc66_drv.c:737-757 | a protocol type has a quoted name exactly when it is one of the four known types |
| Device.SetPsdConn | src/bc66_drv.c:734-779 | an unknown protocol type or a missing APN is refused before the binding is checked; otherwise one `AT+QCGDEFCONT=` frame with the type name and the quoted fields |
| Device.PsdArgs | src/bc66_drv.c:762-776 | the argument text starts with the type name; its length is the name's, the APN's plus three, and each given credential's plus three |
| Device.QuotedFieldCommas | src/bc66_drv.c:762-776 | a given field without commas adds exactly one comma; an absent field adds nothing |
| Device.PdpNameNoComma | src/bc66_drv.c:739-753 | no type name holds a comma |
| Device.FieldsCommas | src/bc66_drv.c:762-776 | the quoted fields carry one comma for the APN and one for each credential given |
| Device.PsdArgsSplit | src/bc66_drv.c:762-776 | the argument text is the type name followed by the quoted fields |
| Device.PsdArgsCommas | src/bc66_drv.c:762-776 | the argument text starts with the type name, and each given value adds one comma to the name's |
| Device.PsdArgsFields | src/bc66_drv.c:734-779 | with comma-free values the modem receives type, APN and one more parameter per credential given, so a password without a user name takes the user name's place |
| Device.BandField | src/bc66_drv.c:807 | `,%u` of a band starts with its one comma and holds no other |
| Device.BandList | src/bc66_drv.c:803-810 | the band list carries one comma per band and starts with a comma when not empty |
| Device.SetMobileBands | src/bc66_drv.c:793-817 | one `AT+QBAND=` frame with the count and the first `count` bands; none for a count below one |
| Device.BandArgs | src/bc66_drv.c:797-810 | the argument text starts with `%u` of the count and holds more exactly when the count is positive |
| Device.BandArgsSeparators | src/bc66_drv.c:797-810 | the argument text carries exactly as many commas as bands listed |
| Device.BandArgsCount | src/bc66_drv.c:797 | the leading field reads back as the count; a negative count is sent as its 32-bit reinterpretation |
| Device.Frames | src/bc66_drv.c:905-914 | one frame per configuration step |
| Device.Chain | src/bc66_drv.c:905-918 | the frames written are a prefix of all steps' frames, at least the first one, all of them on success; the code is success or timeout and the binding is kept; stopping at the first failure is `Device.ChainFailedWrite` |
| Device.PrefixCons | src/bc66_drv.c:905-918 | putting the same frame in front keeps one frame sequence a prefix of the other |
| Device.Then | src/bc66_drv.c:905-918 | a write after another: the later one's code and state, the frames of both in order, the polls of both |
| Device.RunFrames | src/bc66_drv.c:905-918 | writing the steps sends a prefix of their frames, all of them on success, and keeps the binding; unbound, nothing is sent |
| Device.DropDrop | src/bc66_drv.c:408 | reading `a` chunks and then `b` more reads `a + b` |
| Device.RunSnoc | src/bc66_drv.c:905-914 | when the first `n` steps succeeded, the first `n + 1` are those `n` followed by the write of step `n` from where they stopped |
| Device.RunStopsAtFailure | src/bc66_drv.c:905-918 | once the first `n` steps have failed, the whole sequence is those `n` steps: nothing more is written and the failure's code is returned |
| Device.FramesSnoc | src/bc66_drv.c:905-914 | the frames of the first `n + 1` steps are those of the first `n` followed by step `n`'s |
| Device.ChainFailedWrite | src/bc66_drv.c:905-918 | for every step: when the steps before it succeeded and its write fails, the chain returns that write's code and state, and the frames written are those up to and including that step |
| Device.SetMqttParameters | src/bc66_drv.c:897-919 | a keep-alive above 3600 is refused; otherwise at least the keep-alive write is sent, the writes sent are a prefix of the four configuration writes, all four on success |
| Device.MqttSteps | src/bc66_drv.c:905-914 | four settings in order: keep-alive, data format, session, version; the data format flag twice, the session flag, version 4 for true and 3 for false |
| Device.MqttStopsAtFirstFailure | src/bc66_drv.c:905-907 | a failed keep-alive write ends the configuration with that write's result |
| Device.MqttStopsAtFailure | src/bc66_drv.c:905-918 | whichever of the four writes fails first ends the configuration with its code, and no later setting is written |
| Device.MqttKeepaliveReadBack | src/bc66_drv.c:905 | the keep-alive field written reads back as the value given |
| Device.OpenNetMqttClient | src/bc66_drv.c:932-936 | `AT+QMTOPEN=0,"<server>",<port>` |
| Device.ConnectMqttClient | src/bc66_drv.c:952-956 | `AT+QMTCONN=0,"<id>","<user>","<pass>"` |
| Device.LongConnectArgs | src/bc66_drv.c:955 | the connect text for a 128-character id, a 120-character user and no password is 258 characters, starting `0,"` and the id's first character |
| Device.ConnectFrameHead | src/bc66_drv.c:495-496 | such a connect frame is 271 characters long, and a `uint8_t`-sized write delivers its first 15 |
| Device.ConnectHead | src/bc66_drv.c:248-253 | a write to the connect command starts `AT+QMTCONN=` |
| Device.LongConnectTruncated | src/bc66_drv.c:496 | the connect of a 128-character id and a 120-character user builds a 271-character frame, of which a `uint8_t`-sized write delivers `AT+QMTCONN=0,"` and one character |
| Device.DisconnMqttClient | src/bc66_drv.c:970-974 | `AT+QMTDISC=0` |
| Device.PublishMsgMqtt | src/bc66_drv.c:994-1007 | `AT+QMTPUB=0,0,<qos>,0,"<topic>","<msg>"`, the QoS unchecked and rendered as unsigned |
| Device.ConfirmedBy | src/bc66_drv.c:499-500 | a command confirmed by an expected text without carriage return succeeds only after a line starting with that text was read; that line is the last reply |
| Device.ReadyMeansSimReady | src/bc66_drv.c:828-831 | ready is reported only on a `+CPIN: READY` line |
| Device.OpenConfirmed | src/bc66_drv.c:932-936 | opening succeeds only on a `+QMTOPEN: 0,0` line |
| Device.ConnectConfirmed | src/bc66_drv.c:952-956 | connecting succeeds only on a `+QMTCONN: 0,0,0` line |
| Device.DisconnConfirmed | src/bc66_drv.c:970-974 | disconnecting succeeds only on a `+QMTDISC: 0,0` line |
| Device.PublishConfirmed | src/bc66_drv.c:994-1007 | publishing succeeds only on a `+QMTPUB: 0,0,0` line |
| AddrReply.AfterDot | src/bc66_drv.c:697-698 | the next field starts just after the next dot, and there is none exactly when `strchr` finds no dot |
| AddrReply.ParseIpv4 | src/bc66_drv.c:692-713 | a text without the `+CGPADDR: 1,` prefix changes nothing and reports no address; `a1` changes only on success |
| AddrReply.TokenAtStart | src/bc66_drv.c:693-694 | a reply line starting with the prefix has it at index 0 and its first comma at the prefix's end |
| AddrReply.DottedLayout | src/bc66_drv.c:697 | a field followed by a dot has no dot before that dot |
| AddrReply.FieldValue | src/bc66_drv.c:696 | `atoi` at a field reads the field's value |
| AddrReply.DottedField | src/bc66_drv.c:696-699 | at a field followed by a dot, `atoi` reads the field and the next field starts after the dot |
| AddrReply.JoinStep | src/bc66_drv.c:697-702 | among dot-separated fields, each field reads back and the following one starts after its dot |
| AddrReply.JoinLast | src/bc66_drv.c:705 | the last field reads back when a non-digit follows it |
| AddrReply.AllFour | src/bc66_drv.c:696-705 | four dot-separated fields: three dots found, four values read in order |
| AddrReply.AfterToken | src/bc66_drv.c:693 | the text after the prefix is what follows it |
| AddrReply.AddrLayout | src/bc66_drv.c:693-705 | in a rendered address line the parse positions are found and each reads back its value |
| AddrReply.ParseAddrLine | src/bc66_drv.c:692-706 | a line holding `a.b.c.d` followed by a non-digit parses to success, with `a` in `a4` down to `d` in `a1`, whatever the record held before |
| AddrReply.ExampleJoin | src/bc66_drv.c:692-706 | the sample fields joined with dots |
| AddrReply.JoinSplit | src/bc66_drv.c:696-705 | what follows the fields is appended after them |
| AddrReply.JoinDigitsAndDots | src/bc66_drv.c:696-705 | fields joined by dots hold only digits and dots |
| AddrReply.AddrLineBody | src/bc66_drv.c:692-706 | an address line is a body free of carriage returns and NULs followed by CRLF |
| AddrReply.ExampleText | src/bc66_drv.c:692-706 | the sample reply line is the rendered address 10.20.30.40 |
| AddrReply.ExampleReply | src/bc66_drv.c:692-706 | `+CGPADDR: 1,10.20.30.40` fills `a4` with 10 and `a1` with 40 |
| AddrReply.PartialWrite | src/bc66_drv.c:696-713 | a reply whose first field has no dot after it reports no address, yet the first field is already stored in `a4` |
| IpAddress.GetIpv4Address | src/bc66_drv.c:683-714 | only success or no address is reported; unbound, nothing is written and the record is untouched; bound, one `AT+CGPADDR=1` write; a failed query reports no address and leaves the record untouched; after a successful query, success is reported exactly when the parse of the last reply succeeds, and the record is what that parse stored; success only after a line starting with `+CGPADDR: 1,` was read |
| IpAddress.AddrLineScan | src/bc66_drv.c:366-380 | an address line shorter than 64 characters is taken whole by the scan for `+CGPADDR: 1,` |
| IpAddress.AddressFromFirstRead | src/bc66_drv.c:683-706 | a bound driver whose first read is the line for `a.b.c.d` reports success with `a` in `a4` down to `d` in `a1` |
| IpAddress.SampleAddress | src/bc66_drv.c:683-706 | the sample reply `+CGPADDR: 1,10.20.30.40` read whole reports success with 10 in `a4` and 40 in `a1` |

## Left out

- Power and control lines: `bc66_power_on`, `bc66_power_off` and every delay
  are pin writes and waits with no data effect. The transport initialisation
  call in `bc66_init` is left out for the same reason. Of `bc66_hw_reset` the
  model keeps the return code and the levels written to the reset line.
- The 500 ms delays between the MQTT configuration writes are not modelled:
  each write reads on from where the previous one stopped.
- Scanner.AtParser: `strcpy(idx_start, idx_stop)` at src/bc66_drv.c:378
  copies between overlapping parts of one buffer, which is undefined
  behaviour in C. The model takes the evidently intended forward copy: the
  buffer with the reply line spliced out.
- Engine.Send: writes the whole frame. src/bc66_drv.h:56 declares the size
  parameter of the transport's write as `uint8_t`, so a frame of 256
  characters or more would be cut (see "## Findings"). src/bc66_drv.h also
  lacks the `func_delay` member the code calls, so it is older than
  src/bc66_drv.c, and
  the model follows the evident intent of writing `strlen` bytes.
- Buffer capacities are not modelled. The model's buffers are unbounded, so
  the overflows the C code can hit are outside the model:
  - receive buffer 512 bytes, transmit buffer 512 bytes, last reply 256 bytes;
  - read buffer 64 bytes, which is not NUL-terminated when a read fills it;
  - PDP text 256 bytes, band text 32 bytes, one band field 8 bytes.
- `vsprintf` formatting is modelled by the argument text it produces. Each
  device operation builds that text from its arguments.
- `bc66_send_cmd_AT` returns a `bool` converted from the return code. The
  numeric values of `bc66_ret_t` are not part of this model (the type is not
  declared in src/bc66_drv.h), so `Device.SendCmdAt` returns the code itself.
- `bc66_ip_add_t` is not part of this model. Its fields are modelled as `int`,
  which is what `atoi` returns. `atoi` overflow past 32 bits is not modelled.
- `pdp_type_t` is not part of this model. Its four named values are modelled,
  and every other value is `Other`.
- `bc66_get_last_response` is an accessor of the last reply. In the model it
  is the `lastResponse` field of the state.
- A NULL string argument is modelled only where the code tests for it (APN,
  user and password of the PSD connection). Elsewhere the model assumes a
  string is given.
- `example.c` is a usage example and is not modelled.
- The catalog entries unused by any device operation are modelled as data,
  which covers only their forms, reply and timeout.
- AddrReply.ParseIpv4: its contract states only the no-prefix and `a1` cases.
  The full content of a successful or partial parse is stated by
  `AddrReply.ParseAddrLine` and `AddrReply.PartialWrite`, for replies rendered
  from numbers.


## Findings

| source | as written | input that shows it | evidently intended | confidence | as-written member | corrected member |
|---|---|---|---|---|---|---|
| src/bc66_drv.c:496 | the frame length `strlen(tx_buffer)` is passed as the `uint8_t` size declared at src/bc66_drv.h:56, so it is kept modulo 256 | `bc66_connect_mqtt_client` with a 128-character client id (the documented maximum), a 120-character user name and an empty password: a 271-character frame, within the 512-byte buffer, of which 15 characters are written | the whole frame is written | not executed; medium, since src/bc66_drv.h is older than src/bc66_drv.c (it lacks `func_delay`) | Device.LongConnectTruncated | Engine.SendWrites |
