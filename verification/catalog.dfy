/** The AT command catalog of the BC66 driver: one descriptor per command,
    in the order of the driver's command identifiers, each giving the wire
    mnemonic, the forms the command accepts, the reply that marks success
    and the reply timeout in milliseconds. */
module Catalog {
  import opened CText

  /** The four syntactic variants of an AT command. */
  datatype Form = Test | Read | Write | Exe

  /** Numeric value of each form in the driver's command-type enumeration. */
  function CodeOf(f: Form): (code: int)
    ensures 0 <= code <= 3
  {
    match f
    case Test => 0
    case Read => 1
    case Write => 2
    case Exe => 3
  }

  /** The form a command-type value names; values outside the enumeration
      name none. */
  function FormOf(code: int): (r: Option<Form>)
    ensures r.Some? <==> 0 <= code <= 3
    ensures r.Some? ==> CodeOf(r.value) == code
  {
    if code == 0 then Some(Test)
    else if code == 1 then Some(Read)
    else if code == 2 then Some(Write)
    else if code == 3 then Some(Exe)
    else None
  }

  /** Form codes and forms correspond one to one. */
  lemma FormCodeRoundTrip(f: Form, code: int)
    ensures FormOf(CodeOf(f)) == Some(f)
    ensures FormOf(code) == Some(f) <==> code == CodeOf(f)
  {
  }

  datatype Descriptor = Descriptor(
    mnemonic: CString,          // text between "AT" and the form suffix
    forms: set<Form>,           // forms the command accepts
    success: Option<CString>,   // reply that marks completion, when there is one
    timeout: nat)               // reply timeout [ms]

  /** Line terminator of requests and reply lines. */
  const CmdEndLine: CString := "\r\n"
  /** Generic success reply. */
  const RspOk: CString := "\r\nOK\r\n"
  /** Generic failure reply; no descriptor or operation waits for it. */
  const RspError: CString := "\r\nERROR\r\n"

  /** Command identifiers, in catalog order. */
  datatype CommandId =
    | At | Ati | Ate
    | Cereg | Cesq | Cgatt | Cgpaddr
    | Qcgdefcont | Qband | Cimi | Cpin
    | Cpsms | Qnbiotevent | Qsclk
    | Qmtcfg | Qmtopen | Qmtclose | Qmtconn | Qmtdisc | Qmtsub | Qmtuns | Qmtpub

  const CommandCount: nat := 22

  const ExeOnly: set<Form> := {Exe}
  const TestReadWrite: set<Form> := {Test, Read, Write}
  const TestExe: set<Form> := {Test, Exe}
  const TestWrite: set<Form> := {Test, Write}
  const AllForms: set<Form> := {Test, Read, Write, Exe}

  /** Position of a command in the catalog. */
  function Index(id: CommandId): (i: nat)
    ensures i < CommandCount
    ensures IdAt(i) == id
  {
    match id
    case At => 0 case Ati => 1 case Ate => 2
    case Cereg => 3 case Cesq => 4 case Cgatt => 5 case Cgpaddr => 6
    case Qcgdefcont => 7 case Qband => 8 case Cimi => 9 case Cpin => 10
    case Cpsms => 11 case Qnbiotevent => 12 case Qsclk => 13
    case Qmtcfg => 14 case Qmtopen => 15 case Qmtclose => 16 case Qmtconn => 17
    case Qmtdisc => 18 case Qmtsub => 19 case Qmtuns => 20 case Qmtpub => 21
  }

  /** The command at a catalog position. */
  function IdAt(i: nat): CommandId
    requires i < CommandCount
  {
    [At, Ati, Ate, Cereg, Cesq, Cgatt, Cgpaddr, Qcgdefcont, Qband, Cimi, Cpin,
     Cpsms, Qnbiotevent, Qsclk, Qmtcfg, Qmtopen, Qmtclose, Qmtconn, Qmtdisc,
     Qmtsub, Qmtuns, Qmtpub][i]
  }

  /** The descriptor of a command. Lookup is by identifier and total. */
  function Lookup(id: CommandId): (d: Descriptor)
    ensures 300 <= d.timeout <= 85000
  {
    match id
    case At => Descriptor("", ExeOnly, Some(RspOk), 300)
    case Ati => Descriptor("I", ExeOnly, Some(RspOk), 300)
    case Ate => Descriptor("E", ExeOnly, Some(RspOk), 300)
    case Cereg => Descriptor("+CEREG", TestReadWrite, Some(RspOk), 300)
    case Cesq => Descriptor("+CESQ", TestExe, Some(RspOk), 300)
    case Cgatt => Descriptor("+CGATT", TestReadWrite, Some(RspOk), 85000)
    case Cgpaddr => Descriptor("+CGPADDR", AllForms, Some(RspOk), 300)
    case Qcgdefcont => Descriptor("+QCGDEFCONT", TestReadWrite, Some(RspOk), 300)
    case Qband => Descriptor("+QBAND", TestReadWrite, Some(RspOk), 300)
    case Cimi => Descriptor("+CIMI", TestExe, Some(RspOk), 300)
    case Cpin => Descriptor("+CPIN", TestReadWrite, Some(RspOk), 5000)
    case Cpsms => Descriptor("+CPSMS", TestReadWrite, Some(RspOk), 300)
    case Qnbiotevent => Descriptor("+QNBIOTEVENT", TestReadWrite, Some(RspOk), 300)
    case Qsclk => Descriptor("+QSCLK", TestReadWrite, Some(RspOk), 300)
    case Qmtcfg => Descriptor("+QMTCFG", TestWrite, Some(RspOk), 300)
    case Qmtopen => Descriptor("+QMTOPEN", TestReadWrite, Some(RspOk), 75000)
    case Qmtclose => Descriptor("AT+QMTCLOSE", TestWrite, Some(RspOk), 300)
    case Qmtconn => Descriptor("+QMTCONN", TestReadWrite, Some(RspOk), 10000)
    case Qmtdisc => Descriptor("+QMTDISC", TestWrite, Some(RspOk), 300)
    case Qmtsub => Descriptor("+QMTSUB", TestWrite, Some(RspOk), 40000)
    case Qmtuns => Descriptor("+QMTUNS", TestWrite, Some(RspOk), 40000)
    case Qmtpub => Descriptor("+QMTPUB", TestWrite, Some(RspOk), 40000)
  }

  /** The catalog as the driver's constant table: entry `i` describes the
      command at position `i`. */
  const Table: seq<Descriptor> := seq(CommandCount, i requires 0 <= i < CommandCount => Lookup(IdAt(i)))

  /** Only the bare `AT` has an empty mnemonic, and the first three
      entries are exactly the ones accepting the execution form alone. */
  lemma CatalogShape(id: CommandId)
    ensures Lookup(id).mnemonic == [] <==> id == At
    ensures Lookup(id).forms == ExeOnly <==> Index(id) < 3
  {
  }

  /** Each identifier has its own catalog position, and the table entry at
      that position is its descriptor. */
  lemma IndexInjective(a: CommandId, b: CommandId)
    ensures Index(a) == Index(b) <==> a == b
    ensures Table[Index(a)] == Lookup(a)
  {
    if Index(a) == Index(b) {
      assert IdAt(Index(a)) == IdAt(Index(b));
    }
  }

  /** Every catalog entry waits for the generic OK reply, with a positive
      timeout, and accepts at least one form. */
  lemma {:induction false} CatalogEntries(id: CommandId)
    ensures Lookup(id).success == Some(RspOk)
    ensures Lookup(id).timeout > 0
    ensures Lookup(id).forms != {}
  {
    assert Test in TestReadWrite && Exe in ExeOnly && Test in TestExe && Test in TestWrite && Test in AllForms;
    match id {
      case At => case Ati => case Ate =>
      case Cereg => case Cesq => case Cgatt => case Cgpaddr =>
      case Qcgdefcont => case Qband => case Cimi => case Cpin =>
      case Cpsms => case Qnbiotevent => case Qsclk =>
      case Qmtcfg => case Qmtopen => case Qmtclose => case Qmtconn =>
      case Qmtdisc => case Qmtsub => case Qmtuns => case Qmtpub =>
    }
  }

  /** The modem commands, in the first half of the catalog, hold no line
      terminator character. */
  lemma ModemMnemonicsNoCr(id: CommandId)
    ensures Index(id) < 14 ==> '\r' !in Lookup(id).mnemonic
  {
    match id {
      case At => case Ati => case Ate =>
      case Cereg => case Cesq => case Cgatt => case Cgpaddr =>
      case Qcgdefcont => case Qband => case Cimi => case Cpin =>
      case Cpsms => case Qnbiotevent => case Qsclk =>
      case _ =>
    }
  }

  /** The MQTT commands, in the second half, hold none either. */
  lemma MqttMnemonicsNoCr(id: CommandId)
    ensures Index(id) >= 14 ==> '\r' !in Lookup(id).mnemonic
  {
    match id {
      case Qmtcfg => case Qmtopen => case Qmtclose => case Qmtconn =>
      case Qmtdisc => case Qmtsub => case Qmtuns => case Qmtpub =>
      case _ =>
    }
  }

  /** No mnemonic holds a line terminator character. */
  lemma MnemonicNoCr(id: CommandId)
    ensures '\r' !in Lookup(id).mnemonic
  {
    ModemMnemonicsNoCr(id);
    MqttMnemonicsNoCr(id);
  }

  /** Of the mnemonics only the MQTT close entry carries the "AT" prefix,
      so its request reads "ATAT+QMTCLOSE...". */
  lemma CloseMnemonicHasPrefix(id: CommandId)
    ensures Lookup(Qmtclose).mnemonic == "AT+QMTCLOSE"
    ensures id != Qmtclose ==> Lookup(id).mnemonic == [] || Lookup(id).mnemonic[0] != 'A'
  {
  }
}
