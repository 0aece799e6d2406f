/**
 * CommandTable: the table of AT commands the firmware implements
 * (ESP_ATMod/command.cpp:60-129) and findCommand, which resolves a
 * received line against it (ESP_ATMod/command.cpp:3172-3228).
 */
module CommandTable {
  import opened Bytes

  /** How the byte after a matched prefix is checked (cmdMode_t). */
  datatype Mode = NoChecking | ExactMatch | QuerySet

  /** The command codes of commands_t, in declaration order. */
  datatype Command =
    | CmdError
    | CmdAt
    | CmdAtRst
    | CmdAtGmr
    | CmdAte
    | CmdAtRestore
    | CmdAtUart
    | CmdAtUartCur
    | CmdAtUartDef
    | CmdAtSysram
    | CmdAtCwmode
    | CmdAtCwmodeCur
    | CmdAtCwmodeDef
    | CmdAtCwjap
    | CmdAtCwjapCur
    | CmdAtCwjapDef
    | CmdAtCwlapopt
    | CmdAtCwlap
    | CmdAtCwqap
    | CmdAtCwsap
    | CmdAtCwsapCur
    | CmdAtCwsapDef
    | CmdAtCwdhcp
    | CmdAtCwdhcpCur
    | CmdAtCwdhcpDef
    | CmdAtCwautoconn
    | CmdAtCipstamac
    | CmdAtCipstamacCur
    | CmdAtCipstamacDef
    | CmdAtCipapmac
    | CmdAtCipapmacCur
    | CmdAtCipapmacDef
    | CmdAtCipsta
    | CmdAtCipstaCur
    | CmdAtCipstaDef
    | CmdAtCipap
    | CmdAtCipapCur
    | CmdAtCipapDef
    | CmdAtCwhostname
    | CmdAtCipstatus
    | CmdAtCipdomain
    | CmdAtCipstart
    | CmdAtCipsslsize
    | CmdAtCipsend
    | CmdAtCipclosemode
    | CmdAtCipclose
    | CmdAtCifsr
    | CmdAtCipmux
    | CmdAtCipserver
    | CmdAtCipservermaxconn
    | CmdAtCipsto
    | CmdAtCipdinfo
    | CmdAtCiprecvmode
    | CmdAtCiprecvdata
    | CmdAtCiprecvlen
    | CmdAtCipsntpcfg
    | CmdAtCipsntptime
    | CmdAtCipdns
    | CmdAtCipdnsCur
    | CmdAtCipdnsDef
    | CmdAtSyscpufreq
    | CmdAtRfmode
    | CmdAtCipsslauth
    | CmdAtCipsslfp
    | CmdAtCipsslcertmax
    | CmdAtCipsslcert
    | CmdAtCipsslmfln
    | CmdAtCipsslsta
    | CmdAtSntptime

  /** One table entry: the text after "AT", its mode and its code. */
  datatype CommandDef = CommandDef(text: string, mode: Mode, cmd: Command)

  /** commandList, in the order findCommand tries it. */
  function CommandList(): (table: seq<CommandDef>)
    ensures |table| == COMMAND_COUNT
  {
    seq(COMMAND_COUNT, i requires 0 <= i < COMMAND_COUNT => Entry(i))
  }

  /** The number of entries in commandList. */
  const COMMAND_COUNT: nat := 66

  /** Entry i of commandList. */
  function Entry(i: nat): CommandDef
  {
    match i
    case 0 => CommandDef("+RST", ExactMatch, CmdAtRst)
    case 1 => CommandDef("+GMR", ExactMatch, CmdAtGmr)
    case 2 => CommandDef("E", NoChecking, CmdAte)
    case 3 => CommandDef("+RESTORE", ExactMatch, CmdAtRestore)
    case 4 => CommandDef("+UART", QuerySet, CmdAtUart)
    case 5 => CommandDef("+UART_CUR", QuerySet, CmdAtUartCur)
    case 6 => CommandDef("+UART_DEF", QuerySet, CmdAtUartDef)
    case 7 => CommandDef("+SYSRAM?", ExactMatch, CmdAtSysram)
    case 8 => CommandDef("+CWMODE", QuerySet, CmdAtCwmode)
    case 9 => CommandDef("+CWMODE_CUR", QuerySet, CmdAtCwmodeCur)
    case 10 => CommandDef("+CWMODE_DEF", QuerySet, CmdAtCwmodeDef)
    case 11 => CommandDef("+CWJAP", QuerySet, CmdAtCwjap)
    case 12 => CommandDef("+CWJAP_CUR", QuerySet, CmdAtCwjapCur)
    case 13 => CommandDef("+CWJAP_DEF", QuerySet, CmdAtCwjapDef)
    case 14 => CommandDef("+CWLAPOPT", QuerySet, CmdAtCwlapopt)
    case 15 => CommandDef("+CWLAP", ExactMatch, CmdAtCwlap)
    case 16 => CommandDef("+CWQAP", ExactMatch, CmdAtCwqap)
    case 17 => CommandDef("+CWSAP", QuerySet, CmdAtCwsap)
    case 18 => CommandDef("+CWSAP_CUR", QuerySet, CmdAtCwsapCur)
    case 19 => CommandDef("+CWSAP_DEF", QuerySet, CmdAtCwsapDef)
    case 20 => CommandDef("+CWDHCP", QuerySet, CmdAtCwdhcp)
    case 21 => CommandDef("+CWDHCP_CUR", QuerySet, CmdAtCwdhcpCur)
    case 22 => CommandDef("+CWDHCP_DEF", QuerySet, CmdAtCwdhcpDef)
    case 23 => CommandDef("+CWAUTOCONN", QuerySet, CmdAtCwautoconn)
    case 24 => CommandDef("+CIPSTAMAC", QuerySet, CmdAtCipstamac)
    case 25 => CommandDef("+CIPSTAMAC_CUR", QuerySet, CmdAtCipstamacCur)
    case 26 => CommandDef("+CIPSTAMAC_DEF", QuerySet, CmdAtCipstamacDef)
    case 27 => CommandDef("+CIPAPMAC", QuerySet, CmdAtCipapmac)
    case 28 => CommandDef("+CIPAPMAC_CUR", QuerySet, CmdAtCipapmacCur)
    case 29 => CommandDef("+CIPAPMAC_DEF", QuerySet, CmdAtCipapmacDef)
    case 30 => CommandDef("+CIPSTA", QuerySet, CmdAtCipsta)
    case 31 => CommandDef("+CIPSTA_CUR", QuerySet, CmdAtCipstaCur)
    case 32 => CommandDef("+CIPSTA_DEF", QuerySet, CmdAtCipstaDef)
    case 33 => CommandDef("+CIPAP", QuerySet, CmdAtCipap)
    case 34 => CommandDef("+CIPAP_CUR", QuerySet, CmdAtCipapCur)
    case 35 => CommandDef("+CIPAP_DEF", QuerySet, CmdAtCipapDef)
    case 36 => CommandDef("+CWHOSTNAME", QuerySet, CmdAtCwhostname)
    case 37 => CommandDef("+CIPSTATUS", ExactMatch, CmdAtCipstatus)
    case 38 => CommandDef("+CIPSTART", NoChecking, CmdAtCipstart)
    case 39 => CommandDef("+CIPSSLSIZE", QuerySet, CmdAtCipsslsize)
    case 40 => CommandDef("+CIPSEND", NoChecking, CmdAtCipsend)
    case 41 => CommandDef("+CIPCLOSEMODE", NoChecking, CmdAtCipclosemode)
    case 42 => CommandDef("+CIPCLOSE", NoChecking, CmdAtCipclose)
    case 43 => CommandDef("+CIFSR", ExactMatch, CmdAtCifsr)
    case 44 => CommandDef("+CIPMUX", QuerySet, CmdAtCipmux)
    case 45 => CommandDef("+CIPDINFO", QuerySet, CmdAtCipdinfo)
    case 46 => CommandDef("+CIPSERVER", NoChecking, CmdAtCipserver)
    case 47 => CommandDef("+CIPSERVERMAXCONN", QuerySet, CmdAtCipservermaxconn)
    case 48 => CommandDef("+CIPSTO", QuerySet, CmdAtCipsto)
    case 49 => CommandDef("+CIPRECVMODE", QuerySet, CmdAtCiprecvmode)
    case 50 => CommandDef("+CIPRECVDATA", QuerySet, CmdAtCiprecvdata)
    case 51 => CommandDef("+CIPRECVLEN", QuerySet, CmdAtCiprecvlen)
    case 52 => CommandDef("+CIPSNTPCFG", QuerySet, CmdAtCipsntpcfg)
    case 53 => CommandDef("+CIPSNTPTIME?", ExactMatch, CmdAtCipsntptime)
    case 54 => CommandDef("+CIPDNS", QuerySet, CmdAtCipdns)
    case 55 => CommandDef("+CIPDNS_CUR", QuerySet, CmdAtCipdnsCur)
    case 56 => CommandDef("+CIPDNS_DEF", QuerySet, CmdAtCipdnsDef)
    case 57 => CommandDef("+SYSCPUFREQ", QuerySet, CmdAtSyscpufreq)
    case 58 => CommandDef("+RFMODE", QuerySet, CmdAtRfmode)
    case 59 => CommandDef("+CIPSSLAUTH", QuerySet, CmdAtCipsslauth)
    case 60 => CommandDef("+CIPSSLFP", QuerySet, CmdAtCipsslfp)
    case 61 => CommandDef("+CIPSSLCERTMAX", QuerySet, CmdAtCipsslcertmax)
    case 62 => CommandDef("+CIPSSLCERT", NoChecking, CmdAtCipsslcert)
    case 63 => CommandDef("+CIPSSLMFLN", QuerySet, CmdAtCipsslmfln)
    case 64 => CommandDef("+CIPSSLSTA", NoChecking, CmdAtCipsslsta)
    case _ => CommandDef("+SNTPTIME?", ExactMatch, CmdAtSntptime)
  }

  /** memcmp(text, buf + off, strlen(text)) == 0: the text's bytes stand at off. */
  predicate TextAt(buf: seq<byte>, off: nat, text: string)
  {
    forall k :: 0 <= k < |text| ==> At(buf, off + k) as int == text[k] as int
  }

  /** What one entry says about a line: try the next entry, or stop with a code. */
  datatype Verdict = Continue | Decide(cmd: Command)

  /**
   * The test of one entry against the line of length len held in buf
   * (command.cpp:3187-3220): the prefix must stand after "AT", then
   * the mode decides on the byte after it or on the line length.
   */
  function Check(d: CommandDef, buf: seq<byte>, len: nat): (v: Verdict)
    ensures v.Decide? ==> TextAt(buf, 2, d.text)
    ensures v.Decide? && v.cmd != d.cmd ==> v.cmd == CmdError && d.mode == QuerySet
  {
    if !TextAt(buf, 2, d.text) then Continue
    else
      var c := At(buf, |d.text| + 2);
      match d.mode
      case ExactMatch => if len == |d.text| + 4 then Decide(d.cmd) else Continue
      case QuerySet =>
        if c == EQUALS || c == QUESTION then
          if c == QUESTION && len != |d.text| + 5 then Decide(CmdError) else Decide(d.cmd)
        else Continue
      case NoChecking => if !IsAlpha(c) then Decide(d.cmd) else Continue
  }

  /** The table scan from entry i on: the verdict of the first entry that decides. */
  function FirstDecision(table: seq<CommandDef>, buf: seq<byte>, len: nat, i: nat): Command
    requires i <= |table|
    decreases |table| - i
  {
    if i == |table| then CmdError
    else match Check(table[i], buf, len)
      case Decide(c) => c
      case Continue => FirstDecision(table, buf, len, i + 1)
  }

  /** The buffer invariants findCommand checks first: "AT" ... CR LF, at least four bytes. */
  predicate Framed(buf: seq<byte>, len: nat)
  {
    4 <= len <= |buf| && buf[0] as int == 'A' as int && buf[1] as int == 'T' as int
    && buf[len - 2] == CR && buf[len - 1] == LF
  }

  /** findCommand over the line of length len at the start of buf. */
  function Resolve(buf: seq<byte>, len: nat): (r: Command)
    requires len <= |buf|
    ensures !Framed(buf, len) ==> r == CmdError
    ensures Framed(buf, len) && len == 4 ==> r == CmdAt
  {
    if !Framed(buf, len) then CmdError
    else if len == 4 then CmdAt
    else FirstDecision(CommandList(), buf, len, 0)
  }

  /**
   * findCommand: the frame checks, then the for loop over commandList.
   */
  method FindCommand(input: array<byte>, inpLen: nat) returns (r: Command)
    requires inpLen <= input.Length
    ensures r == Resolve(input[..], inpLen)
  {
    if inpLen < 4 || input[0] as int != 'A' as int || input[1] as int != 'T' as int
       || input[inpLen - 2] != CR || input[inpLen - 1] != LF {
      return CmdError;
    }
    if inpLen == 4 {
      return CmdAt;
    }
    r := ScanTable(CommandList(), input, inpLen);
  }

  /**
   * The for loop of findCommand over a command table, with the memcmp
   * done by TextAt on the whole input buffer.
   */
  method ScanTable(table: seq<CommandDef>, input: array<byte>, inpLen: nat) returns (r: Command)
    ensures r == FirstDecision(table, input[..], inpLen, 0)
  {
    ghost var buf := input[..];
    var i := 0;
    while i < |table|
      invariant i <= |table|
      invariant FirstDecision(table, buf, inpLen, i) == FirstDecision(table, buf, inpLen, 0)
      decreases |table| - i
    {
      var d := table[i];
      if TextAt(input[..], 2, d.text) {
        var c := At(input[..], |d.text| + 2);
        match d.mode {
          case ExactMatch =>
            if inpLen == |d.text| + 4 {
              return d.cmd;
            }
          case QuerySet =>
            if c == EQUALS || c == QUESTION {
              if c == QUESTION && inpLen != |d.text| + 5 {
                return CmdError;
              }
              return d.cmd;
            }
          case NoChecking =>
            if !IsAlpha(c) {
              return d.cmd;
            }
        }
      }
      assert Check(d, buf, inpLen) == Continue;
      i := i + 1;
    }
    return CmdError;
  }

  /**
   * The scan answers with the first entry that decides: every earlier
   * entry is passed over, whatever a later entry would say.
   */
  lemma {:induction false} FirstDecisionPicksFirst(table: seq<CommandDef>, buf: seq<byte>, len: nat, i: nat, k: nat)
    requires i <= k < |table|
    requires Check(table[k], buf, len).Decide?
    requires forall j :: i <= j < k ==> Check(table[j], buf, len) == Continue
    ensures FirstDecision(table, buf, len, i) == Check(table[k], buf, len).cmd
    decreases k - i
  {
    if i < k {
      FirstDecisionPicksFirst(table, buf, len, i + 1, k);
    }
  }

  /** When no entry decides, the scan ends in CMD_ERROR. */
  lemma {:induction false} FirstDecisionNone(table: seq<CommandDef>, buf: seq<byte>, len: nat, i: nat)
    requires i <= |table|
    requires forall j :: i <= j < |table| ==> Check(table[j], buf, len) == Continue
    ensures FirstDecision(table, buf, len, i) == CmdError
    decreases |table| - i
  {
    if i < |table| {
      FirstDecisionNone(table, buf, len, i + 1);
    }
  }

  /** Entry j is passed over when character m of its text is not the line's byte 2 + m. */
  lemma PassOverAt(buf: seq<byte>, len: nat, j: nat, m: nat, b: char)
    requires j < COMMAND_COUNT && m < |CommandList()[j].text|
    requires At(buf, 2 + m) as int == b as int && CommandList()[j].text[m] != b
    ensures FirstDecision(CommandList(), buf, len, j) == FirstDecision(CommandList(), buf, len, j + 1)
  {
  }

  /** A line that goes on "AT+C" is passed over by the entries 0 and 1, +RST and +GMR. */
  lemma PassOverBasic(buf: seq<byte>, len: nat)
    requires At(buf, 3) as int == 'C' as int
    ensures FirstDecision(CommandList(), buf, len, 0) == FirstDecision(CommandList(), buf, len, 2)
  {
    PassOverAt(buf, len, 0, 1, 'C'); PassOverAt(buf, len, 1, 1, 'C');
  }

  /** A line that goes on "AT+C" is passed over by the entries 2 and 3, E and +RESTORE. */
  lemma PassOverRestore(buf: seq<byte>, len: nat)
    requires At(buf, 2) as int == '+' as int && At(buf, 3) as int == 'C' as int
    ensures FirstDecision(CommandList(), buf, len, 2) == FirstDecision(CommandList(), buf, len, 4)
  {
    PassOverAt(buf, len, 2, 0, '+'); PassOverAt(buf, len, 3, 1, 'C');
  }

  /** A line that goes on "AT+C" is passed over by the entries 4 to 7, the +UART commands and +SYSRAM?. */
  lemma PassOverUart(buf: seq<byte>, len: nat)
    requires At(buf, 3) as int == 'C' as int
    ensures FirstDecision(CommandList(), buf, len, 4) == FirstDecision(CommandList(), buf, len, 8)
  {
    PassOverAt(buf, len, 4, 1, 'C'); PassOverAt(buf, len, 5, 1, 'C');
    PassOverAt(buf, len, 6, 1, 'C'); PassOverAt(buf, len, 7, 1, 'C');
  }

  /** A line that goes on "AT+CI" is passed over by the sixteen +CW.. entries. */
  lemma PassOverCw(buf: seq<byte>, len: nat)
    requires At(buf, 4) as int == 'I' as int
    ensures FirstDecision(CommandList(), buf, len, 8) == FirstDecision(CommandList(), buf, len, 24)
  {
    PassOverCwFirst(buf, len);
    PassOverCwSecond(buf, len);
  }

  lemma PassOverCwFirst(buf: seq<byte>, len: nat)
    requires At(buf, 4) as int == 'I' as int
    ensures FirstDecision(CommandList(), buf, len, 8) == FirstDecision(CommandList(), buf, len, 16)
  {
    PassOverAt(buf, len, 8, 2, 'I'); PassOverAt(buf, len, 9, 2, 'I'); PassOverAt(buf, len, 10, 2, 'I');
    PassOverAt(buf, len, 11, 2, 'I'); PassOverAt(buf, len, 12, 2, 'I'); PassOverAt(buf, len, 13, 2, 'I');
    PassOverAt(buf, len, 14, 2, 'I'); PassOverAt(buf, len, 15, 2, 'I');
  }

  lemma PassOverCwSecond(buf: seq<byte>, len: nat)
    requires At(buf, 4) as int == 'I' as int
    ensures FirstDecision(CommandList(), buf, len, 16) == FirstDecision(CommandList(), buf, len, 24)
  {
    PassOverAt(buf, len, 16, 2, 'I'); PassOverAt(buf, len, 17, 2, 'I'); PassOverAt(buf, len, 18, 2, 'I');
    PassOverAt(buf, len, 19, 2, 'I'); PassOverAt(buf, len, 20, 2, 'I'); PassOverAt(buf, len, 21, 2, 'I');
    PassOverAt(buf, len, 22, 2, 'I'); PassOverAt(buf, len, 23, 2, 'I');
  }

  /** A QUERY_SET entry is passed over when its prefix is followed by neither '=' nor '?'. */
  lemma QuerySetPassesOver(buf: seq<byte>, len: nat, j: nat, b: char)
    requires j < COMMAND_COUNT && CommandList()[j].mode == QuerySet
    requires At(buf, |CommandList()[j].text| + 2) as int == b as int && b != '=' && b != '?'
    ensures FirstDecision(CommandList(), buf, len, j) == FirstDecision(CommandList(), buf, len, j + 1)
  {
  }

  /** A line that goes on "AT+CIPSTAR" is passed over by the +CIPSTAMAC entries 24 to 26. */
  lemma PassOverStamac(buf: seq<byte>, len: nat)
    requires At(buf, 9) as int == 'R' as int
    ensures FirstDecision(CommandList(), buf, len, 24) == FirstDecision(CommandList(), buf, len, 27)
  {
    PassOverAt(buf, len, 24, 7, 'R'); PassOverAt(buf, len, 25, 7, 'R'); PassOverAt(buf, len, 26, 7, 'R');
  }

  /** A line that goes on "AT+CIPS" is passed over by the +CIPAPMAC entries 27 to 29. */
  lemma PassOverApmac(buf: seq<byte>, len: nat)
    requires At(buf, 6) as int == 'S' as int
    ensures FirstDecision(CommandList(), buf, len, 27) == FirstDecision(CommandList(), buf, len, 30)
  {
    PassOverAt(buf, len, 27, 4, 'S'); PassOverAt(buf, len, 28, 4, 'S'); PassOverAt(buf, len, 29, 4, 'S');
  }

  /** +CIPSTA, a QUERY_SET entry, lets "AT+CIPSTAR" through: 'R' is neither '=' nor '?'. */
  lemma PassOverCipsta(buf: seq<byte>, len: nat)
    requires At(buf, 9) as int == 'R' as int
    ensures FirstDecision(CommandList(), buf, len, 30) == FirstDecision(CommandList(), buf, len, 31)
  {
    QuerySetPassesOver(buf, len, 30, 'R');
  }

  /** "AT+CIPSTAR" is passed over by the entries 31 and 32, +CIPSTA_CUR and +CIPSTA_DEF. */
  lemma PassOverStaCurDef(buf: seq<byte>, len: nat)
    requires At(buf, 9) as int == 'R' as int
    ensures FirstDecision(CommandList(), buf, len, 31) == FirstDecision(CommandList(), buf, len, 33)
  {
    PassOverAt(buf, len, 31, 7, 'R'); PassOverAt(buf, len, 32, 7, 'R');
  }

  /** "AT+CIPS" is passed over by the entries 33 to 35, +CIPAP, +CIPAP_CUR and +CIPAP_DEF. */
  lemma PassOverAp(buf: seq<byte>, len: nat)
    requires At(buf, 6) as int == 'S' as int
    ensures FirstDecision(CommandList(), buf, len, 33) == FirstDecision(CommandList(), buf, len, 36)
  {
    PassOverAt(buf, len, 33, 4, 'S'); PassOverAt(buf, len, 34, 4, 'S'); PassOverAt(buf, len, 35, 4, 'S');
  }

  /** "AT+CIPSTAR" is passed over by the entries 36 and 37, +CWHOSTNAME and +CIPSTATUS. */
  lemma PassOverToCipstart(buf: seq<byte>, len: nat)
    requires At(buf, 4) as int == 'I' as int && At(buf, 9) as int == 'R' as int
    ensures FirstDecision(CommandList(), buf, len, 36) == FirstDecision(CommandList(), buf, len, 38)
  {
    PassOverAt(buf, len, 36, 2, 'I'); PassOverAt(buf, len, 37, 7, 'R');
  }

  /** The +CIPSTART entry (NO_CHECKING) decides when a non-letter follows its prefix. */
  lemma CipstartEntryDecides(buf: seq<byte>, len: nat)
    requires TextAt(buf, 2, "+CIPSTART") && !IsAlpha(At(buf, 11))
    ensures FirstDecision(CommandList(), buf, len, 38) == CmdAtCipstart
  {
    assert Check(CommandList()[38], buf, len) == Decide(CmdAtCipstart);
  }

  /**
   * AT+CIPSTART followed by a non-letter resolves to CMD_AT_CIPSTART, not
   * to CMD_AT_CIPSTA: every earlier entry lets the scan go on.
   */
  lemma CipstartIsNotCipsta(buf: seq<byte>, len: nat)
    requires Framed(buf, len) && TextAt(buf, 2, "+CIPSTART") && !IsAlpha(At(buf, 11))
    ensures Resolve(buf, len) == CmdAtCipstart
  {
    var t := "+CIPSTART";
    assert At(buf, 2) as int == t[0] as int && At(buf, 3) as int == t[1] as int && At(buf, 4) as int == t[2] as int;
    assert At(buf, 6) as int == t[4] as int && At(buf, 9) as int == t[7] as int;
    PassOverBasic(buf, len);
    PassOverRestore(buf, len);
    PassOverUart(buf, len);
    PassOverCw(buf, len);
    PassOverStamac(buf, len);
    PassOverApmac(buf, len);
    PassOverCipsta(buf, len);
    PassOverStaCurDef(buf, len);
    PassOverAp(buf, len);
    PassOverToCipstart(buf, len);
    CipstartEntryDecides(buf, len);
  }

  /** The +CWMODE entry (QUERY_SET) followed by '?' on a line of any length but 12 decides CMD_ERROR. */
  lemma CwmodeQueryDecides(buf: seq<byte>, len: nat)
    requires TextAt(buf, 2, "+CWMODE") && At(buf, 9) as int == '?' as int && len != 12
    ensures FirstDecision(CommandList(), buf, len, 8) == CmdError
  {
    assert Check(CommandList()[8], buf, len) == Decide(CmdError);
  }

  /** Every text of the table starts with '+', save "E": none starts with CR. */
  lemma TextStartsWithPlusOrE(i: nat)
    ensures |Entry(i).text| > 0
    ensures Entry(i).text[0] == '+' || Entry(i).text == "E"
  {
    if i < 33 {
      TextStartsLow(i);
    } else {
      TextStartsHigh(i);
    }
  }

  /** TextStartsWithPlusOrE for the entries 0 to 32. */
  lemma TextStartsLow(i: nat)
    requires i < 33
    ensures |Entry(i).text| > 0 && (Entry(i).text[0] == '+' || Entry(i).text == "E")
  {
  }

  /** TextStartsWithPlusOrE for the entries from 33 on. */
  lemma TextStartsHigh(i: nat)
    requires 33 <= i
    ensures |Entry(i).text| > 0 && Entry(i).text[0] == '+'
  {
  }

  /** A line that holds an entry's text after "AT" is not the bare "AT\r\n". */
  lemma TextLineIsNotBare(buf: seq<byte>, len: nat, i: nat)
    requires Framed(buf, len) && i < COMMAND_COUNT && TextAt(buf, 2, CommandList()[i].text)
    ensures len != 4
  {
    TextStartsWithPlusOrE(i);
    assert At(buf, 2) as int == CommandList()[i].text[0] as int;
  }

  /**
   * A query of a QUERY_SET command with anything between '?' and CR LF
   * ends the scan with CMD_ERROR at that entry, once no earlier entry
   * has decided.
   */
  lemma QueryWithTailIsError(buf: seq<byte>, len: nat, j: nat)
    requires Framed(buf, len) && j < COMMAND_COUNT && CommandList()[j].mode == QuerySet
    requires TextAt(buf, 2, CommandList()[j].text) && At(buf, |CommandList()[j].text| + 2) == QUESTION
    requires len != |CommandList()[j].text| + 5
    requires forall k :: 0 <= k < j ==> Check(CommandList()[k], buf, len) == Continue
    ensures Resolve(buf, len) == CmdError
  {
    TextLineIsNotBare(buf, len, j);
    FirstDecisionPicksFirst(CommandList(), buf, len, 0, j);
  }

  /** "AT+CWMODE?" with anything more before CR LF is CMD_ERROR. */
  lemma CwmodeQueryWithTailIsError(buf: seq<byte>, len: nat)
    requires Framed(buf, len) && TextAt(buf, 2, "+CWMODE") && At(buf, 9) as int == '?' as int && len != 12
    ensures Resolve(buf, len) == CmdError
  {
    var t := "+CWMODE";
    assert At(buf, 2) as int == t[0] as int && At(buf, 3) as int == t[1] as int;
    PassOverBasic(buf, len);
    PassOverRestore(buf, len);
    PassOverUart(buf, len);
    CwmodeQueryDecides(buf, len);
  }

  /**
   * The canonical line of an entry: its text after "AT", then '?' for a
   * QUERY_SET entry, then CR LF.
   */
  predicate CanonicalLine(buf: seq<byte>, len: nat, d: CommandDef)
  {
    TextAt(buf, 2, d.text) &&
    match d.mode
    case QuerySet => At(buf, |d.text| + 2) == QUESTION && len == |d.text| + 5
    case _ => len == |d.text| + 4
  }

  /** Every entry decides its own command on its canonical line. */
  lemma EntryDecidesOwnLine(buf: seq<byte>, len: nat, d: CommandDef)
    requires Framed(buf, len) && CanonicalLine(buf, len, d)
    ensures Check(d, buf, len) == Decide(d.cmd)
  {
    if d.mode == NoChecking {
      assert At(buf, |d.text| + 2) == CR;
    }
  }

  /**
   * The canonical line of entry i resolves to entry i's command once
   * every earlier entry passes over it.
   */
  lemma CanonicalLineResolves(buf: seq<byte>, len: nat, i: nat)
    requires Framed(buf, len) && i < COMMAND_COUNT && CanonicalLine(buf, len, CommandList()[i])
    requires forall k :: 0 <= k < i ==> Check(CommandList()[k], buf, len) == Continue
    ensures Resolve(buf, len) == CommandList()[i].cmd
  {
    TextLineIsNotBare(buf, len, i);
    EntryDecidesOwnLine(buf, len, CommandList()[i]);
    FirstDecisionPicksFirst(CommandList(), buf, len, 0, i);
  }

  /** "AT+CWLAP\r\n" is CMD_AT_CWLAP: the earlier +CWLAPOPT entry passes over it. */
  lemma CwlapLineResolves(buf: seq<byte>, len: nat)
    requires Framed(buf, len) && TextAt(buf, 2, "+CWLAP") && len == 10
    ensures Resolve(buf, len) == CmdAtCwlap
  {
    var t := "+CWLAP";
    assert At(buf, 2) as int == t[0] as int && At(buf, 3) as int == t[1] as int && At(buf, 5) as int == t[3] as int;
    assert At(buf, 8) == CR;
    PassOverBasic(buf, len);
    PassOverRestore(buf, len);
    PassOverUart(buf, len);
    PassOverAt(buf, len, 8, 3, 'L'); PassOverAt(buf, len, 9, 3, 'L'); PassOverAt(buf, len, 10, 3, 'L');
    PassOverAt(buf, len, 11, 3, 'L'); PassOverAt(buf, len, 12, 3, 'L'); PassOverAt(buf, len, 13, 3, 'L');
    PassOverAt(buf, len, 14, 6, '\r');
    assert Check(CommandList()[15], buf, len) == Decide(CmdAtCwlap);
  }

  /** A line that goes on "AT+CIPST" is passed over by the +CWLAP.. to +CWAUTOCONN entries. */
  lemma PassOverStaPrefix(buf: seq<byte>, len: nat)
    requires At(buf, 2) as int == '+' as int && At(buf, 3) as int == 'C' as int && At(buf, 4) as int == 'I' as int
    ensures FirstDecision(CommandList(), buf, len, 0) == FirstDecision(CommandList(), buf, len, 24)
  {
    PassOverBasic(buf, len);
    PassOverRestore(buf, len);
    PassOverUart(buf, len);
    PassOverCw(buf, len);
  }

  /**
   * "AT+CIPSTAMAC" set, or queried on a line of length 15, is
   * CMD_AT_CIPSTAMAC: no entry before it matches.
   */
  lemma CipstamacLineResolves(buf: seq<byte>, len: nat)
    requires Framed(buf, len) && TextAt(buf, 2, "+CIPSTAMAC")
    requires At(buf, 12) == EQUALS || (At(buf, 12) == QUESTION && len == 15)
    ensures Resolve(buf, len) == CmdAtCipstamac
  {
    var t := "+CIPSTAMAC";
    assert At(buf, 2) as int == t[0] as int && At(buf, 3) as int == t[1] as int && At(buf, 4) as int == t[2] as int;
    PassOverStaPrefix(buf, len);
    CipstamacEntryDecides(buf, len);
  }

  /** The +CIPSTAMAC entry decides a line "AT+CIPSTAMAC=…" or "AT+CIPSTAMAC?". */
  lemma CipstamacEntryDecides(buf: seq<byte>, len: nat)
    requires Framed(buf, len) && TextAt(buf, 2, "+CIPSTAMAC")
    requires At(buf, 12) == EQUALS || (At(buf, 12) == QUESTION && len == 15)
    ensures Check(CommandList()[24], buf, len) == Decide(CmdAtCipstamac)
  {
  }

  /** A line with no 'M' at byte 9 is passed over by the +CIPSTAMAC entries 24 to 26. */
  lemma PassOverStamacAt9(buf: seq<byte>, len: nat, b: char)
    requires At(buf, 9) as int == b as int && b != 'M'
    ensures FirstDecision(CommandList(), buf, len, 24) == FirstDecision(CommandList(), buf, len, 27)
  {
    PassOverAt(buf, len, 24, 7, b); PassOverAt(buf, len, 25, 7, b); PassOverAt(buf, len, 26, 7, b);
  }

  /** A line that goes on "AT+CIPSTA" and then '=' or '?' is passed over by the entries 0 to 29. */
  lemma PassOverToCipsta(buf: seq<byte>, len: nat)
    requires TextAt(buf, 2, "+CIPSTA") && (At(buf, 9) == EQUALS || At(buf, 9) == QUESTION)
    ensures FirstDecision(CommandList(), buf, len, 0) == FirstDecision(CommandList(), buf, len, 30)
  {
    var t := "+CIPSTA";
    assert At(buf, 2) as int == t[0] as int && At(buf, 3) as int == t[1] as int && At(buf, 4) as int == t[2] as int;
    assert At(buf, 6) as int == t[4] as int;
    PassOverStaPrefix(buf, len);
    PassOverStamacAt9(buf, len, if At(buf, 9) == EQUALS then '=' else '?');
    PassOverApmac(buf, len);
  }

  /**
   * "AT+CIPSTA" set, or queried on a line of length 12, is CMD_AT_CIPSTA:
   * the earlier +CIPSTAMAC entries pass over it.
   */
  lemma CipstaLineResolves(buf: seq<byte>, len: nat)
    requires Framed(buf, len) && TextAt(buf, 2, "+CIPSTA")
    requires At(buf, 9) == EQUALS || (At(buf, 9) == QUESTION && len == 12)
    ensures Resolve(buf, len) == CmdAtCipsta
  {
    var t := "+CIPSTA";
    assert At(buf, 2) as int == t[0] as int;
    PassOverToCipsta(buf, len);
    CipstaEntryDecides(buf, len);
  }

  /** The +CIPSTA entry decides a line "AT+CIPSTA=…" or "AT+CIPSTA?". */
  lemma CipstaEntryDecides(buf: seq<byte>, len: nat)
    requires Framed(buf, len) && TextAt(buf, 2, "+CIPSTA")
    requires At(buf, 9) == EQUALS || (At(buf, 9) == QUESTION && len == 12)
    ensures Check(CommandList()[30], buf, len) == Decide(CmdAtCipsta)
  {
  }

  /** Entry j lets the line through when character m of its text is not the line's byte 2 + m. */
  lemma EntryPasses(buf: seq<byte>, len: nat, j: nat, m: nat, b: char)
    requires j < COMMAND_COUNT && m < |CommandList()[j].text|
    requires At(buf, 2 + m) as int == b as int && CommandList()[j].text[m] != b
    ensures Check(CommandList()[j], buf, len) == Continue
  {
  }

  /** Entries lo to hi - 1 that all let the line through leave the scan to entry hi. */
  lemma {:induction false} PassOverRange(buf: seq<byte>, len: nat, lo: nat, hi: nat)
    requires lo <= hi <= COMMAND_COUNT
    requires forall j :: lo <= j < hi ==> Check(CommandList()[j], buf, len) == Continue
    ensures FirstDecision(CommandList(), buf, len, lo) == FirstDecision(CommandList(), buf, len, hi)
    decreases hi - lo
  {
    if lo < hi {
      PassOverRange(buf, len, lo + 1, hi);
    }
  }

  /** "AT+CIPSS" is passed over by the +CIPSTAMAC and +CIPAPMAC entries 24 to 29. */
  lemma PassOverMacs(buf: seq<byte>, len: nat)
    requires At(buf, 6) as int == 'S' as int && At(buf, 7) as int == 'S' as int
    ensures FirstDecision(CommandList(), buf, len, 24) == FirstDecision(CommandList(), buf, len, 30)
  {
    forall j | 24 <= j < 30
      ensures Check(CommandList()[j], buf, len) == Continue
    {
      if j < 27 { EntryPasses(buf, len, j, 5, 'S'); }
      else { EntryPasses(buf, len, j, 4, 'S'); }
    }
    PassOverRange(buf, len, 24, 30);
  }

  /** "AT+CIPSS" is passed over by the +CIPSTA and +CIPAP entries 30 to 35. */
  lemma PassOverStaAp(buf: seq<byte>, len: nat)
    requires At(buf, 6) as int == 'S' as int && At(buf, 7) as int == 'S' as int
    ensures FirstDecision(CommandList(), buf, len, 30) == FirstDecision(CommandList(), buf, len, 36)
  {
    forall j | 30 <= j < 36
      ensures Check(CommandList()[j], buf, len) == Continue
    {
      if j < 33 { EntryPasses(buf, len, j, 5, 'S'); }
      else { EntryPasses(buf, len, j, 4, 'S'); }
    }
    PassOverRange(buf, len, 30, 36);
  }

  /** "AT+CIPSS?C" is passed over by the entries 36 to 40, +CWHOSTNAME to +CIPSEND. */
  lemma PassOverHostnameToSend(buf: seq<byte>, len: nat)
    requires At(buf, 3) as int == 'C' as int && At(buf, 4) as int == 'I' as int && At(buf, 5) as int == 'P' as int
    requires At(buf, 6) as int == 'S' as int && At(buf, 7) as int == 'S' as int && At(buf, 9) as int == 'C' as int
    ensures FirstDecision(CommandList(), buf, len, 36) == FirstDecision(CommandList(), buf, len, 41)
  {
    forall j | 36 <= j < 41
      ensures Check(CommandList()[j], buf, len) == Continue
    {
      if j == 36 { EntryPasses(buf, len, 36, 2, 'I'); }
      else if j == 37 { EntryPasses(buf, len, 37, 5, 'S'); }
      else if j == 38 { EntryPasses(buf, len, 38, 5, 'S'); }
      else if j == 39 { EntryPasses(buf, len, 39, 7, 'C'); }
      else { EntryPasses(buf, len, 40, 5, 'S'); }
    }
    PassOverRange(buf, len, 36, 41);
  }

  /** "AT+CIPSS?C" is passed over by the entries 41 to 45, +CIPCLOSEMODE to +CIPDINFO. */
  lemma PassOverCloseToDinfo(buf: seq<byte>, len: nat)
    requires At(buf, 3) as int == 'C' as int && At(buf, 4) as int == 'I' as int && At(buf, 5) as int == 'P' as int
    requires At(buf, 6) as int == 'S' as int && At(buf, 7) as int == 'S' as int && At(buf, 9) as int == 'C' as int
    ensures FirstDecision(CommandList(), buf, len, 41) == FirstDecision(CommandList(), buf, len, 46)
  {
    forall j | 41 <= j < 46
      ensures Check(CommandList()[j], buf, len) == Continue
    {
      if j == 41 { EntryPasses(buf, len, 41, 4, 'S'); }
      else if j == 42 { EntryPasses(buf, len, 42, 4, 'S'); }
      else if j == 43 { EntryPasses(buf, len, 43, 3, 'P'); }
      else if j == 44 { EntryPasses(buf, len, 44, 4, 'S'); }
      else { EntryPasses(buf, len, 45, 4, 'S'); }
    }
    PassOverRange(buf, len, 41, 46);
  }

  /** "AT+CIPSS?C" is passed over by the entries 46 to 50, +CIPSERVER to +CIPRECVDATA. */
  lemma PassOverServerToRecvdata(buf: seq<byte>, len: nat)
    requires At(buf, 3) as int == 'C' as int && At(buf, 4) as int == 'I' as int && At(buf, 5) as int == 'P' as int
    requires At(buf, 6) as int == 'S' as int && At(buf, 7) as int == 'S' as int && At(buf, 9) as int == 'C' as int
    ensures FirstDecision(CommandList(), buf, len, 46) == FirstDecision(CommandList(), buf, len, 51)
  {
    forall j | 46 <= j < 51
      ensures Check(CommandList()[j], buf, len) == Continue
    {
      if j == 46 { EntryPasses(buf, len, 46, 5, 'S'); }
      else if j == 47 { EntryPasses(buf, len, 47, 5, 'S'); }
      else if j == 48 { EntryPasses(buf, len, 48, 5, 'S'); }
      else if j == 49 { EntryPasses(buf, len, 49, 4, 'S'); }
      else { EntryPasses(buf, len, 50, 4, 'S'); }
    }
    PassOverRange(buf, len, 46, 51);
  }

  /** "AT+CIPSS?C" is passed over by the entries 51 to 55, +CIPRECVLEN to +CIPDNS_CUR. */
  lemma PassOverRecvlenToDns(buf: seq<byte>, len: nat)
    requires At(buf, 3) as int == 'C' as int && At(buf, 4) as int == 'I' as int && At(buf, 5) as int == 'P' as int
    requires At(buf, 6) as int == 'S' as int && At(buf, 7) as int == 'S' as int && At(buf, 9) as int == 'C' as int
    ensures FirstDecision(CommandList(), buf, len, 51) == FirstDecision(CommandList(), buf, len, 56)
  {
    forall j | 51 <= j < 56
      ensures Check(CommandList()[j], buf, len) == Continue
    {
      if j == 51 { EntryPasses(buf, len, 51, 4, 'S'); }
      else if j == 52 { EntryPasses(buf, len, 52, 5, 'S'); }
      else if j == 53 { EntryPasses(buf, len, 53, 5, 'S'); }
      else if j == 54 { EntryPasses(buf, len, 54, 4, 'S'); }
      else { EntryPasses(buf, len, 55, 4, 'S'); }
    }
    PassOverRange(buf, len, 51, 56);
  }

  /** "AT+CIPSS?C" is passed over by the entries 56 to 58, +CIPDNS_DEF, +SYSCPUFREQ and +RFMODE. */
  lemma PassOverDnsDefToRfmode(buf: seq<byte>, len: nat)
    requires At(buf, 3) as int == 'C' as int && At(buf, 4) as int == 'I' as int && At(buf, 5) as int == 'P' as int
    requires At(buf, 6) as int == 'S' as int && At(buf, 7) as int == 'S' as int && At(buf, 9) as int == 'C' as int
    ensures FirstDecision(CommandList(), buf, len, 56) == FirstDecision(CommandList(), buf, len, 59)
  {
    forall j | 56 <= j < 59
      ensures Check(CommandList()[j], buf, len) == Continue
    {
      if j == 56 { EntryPasses(buf, len, 56, 4, 'S'); }
      else if j == 57 { EntryPasses(buf, len, 57, 1, 'C'); }
      else { EntryPasses(buf, len, 58, 1, 'C'); }
    }
    PassOverRange(buf, len, 56, 59);
  }

  /** "AT+CIPSS?C" is passed over by the entries 59 and 60, +CIPSSLAUTH and +CIPSSLFP. */
  lemma PassOverSslauthSslfp(buf: seq<byte>, len: nat)
    requires At(buf, 9) as int == 'C' as int
    ensures FirstDecision(CommandList(), buf, len, 59) == FirstDecision(CommandList(), buf, len, 61)
  {
    PassOverAt(buf, len, 59, 7, 'C'); PassOverAt(buf, len, 60, 7, 'C');
  }

  /** "AT+CIPSS?C" is passed over by the entries 36 to 60. */
  lemma PassOverToCertMax(buf: seq<byte>, len: nat)
    requires At(buf, 3) as int == 'C' as int && At(buf, 4) as int == 'I' as int && At(buf, 5) as int == 'P' as int
    requires At(buf, 6) as int == 'S' as int && At(buf, 7) as int == 'S' as int && At(buf, 9) as int == 'C' as int
    ensures FirstDecision(CommandList(), buf, len, 36) == FirstDecision(CommandList(), buf, len, 61)
  {
    PassOverHostnameToSend(buf, len);
    PassOverCloseToDinfo(buf, len);
    PassOverServerToRecvdata(buf, len);
    PassOverRecvlenToDns(buf, len);
    PassOverDnsDefToRfmode(buf, len);
    PassOverSslauthSslfp(buf, len);
  }

  /** A line that goes on "AT+CIPSS?C" is passed over by the entries 0 to 60. */
  lemma PassOverToCipsslcert(buf: seq<byte>, len: nat)
    requires At(buf, 2) as int == '+' as int && At(buf, 3) as int == 'C' as int && At(buf, 4) as int == 'I' as int
    requires At(buf, 5) as int == 'P' as int && At(buf, 6) as int == 'S' as int
    requires At(buf, 7) as int == 'S' as int && At(buf, 9) as int == 'C' as int
    ensures FirstDecision(CommandList(), buf, len, 0) == FirstDecision(CommandList(), buf, len, 61)
  {
    PassOverStaPrefix(buf, len);
    PassOverMacs(buf, len);
    PassOverStaAp(buf, len);
    PassOverToCertMax(buf, len);
  }

  /**
   * On a line "AT+CIPSSLCERT" followed by a non-letter the +CIPSSLCERTMAX
   * entry, the one before +CIPSSLCERT, needs an 'M' where the line has
   * none and passes over it; the +CIPSSLCERT entry then decides.
   */
  lemma CipsslcertEntryDecides(buf: seq<byte>, len: nat)
    requires TextAt(buf, 2, "+CIPSSLCERT") && !IsAlpha(At(buf, 13))
    ensures FirstDecision(CommandList(), buf, len, 61) == CmdAtCipsslcert
  {
    PassOverAt(buf, len, 61, 11, At(buf, 13) as char);
    assert Check(CommandList()[62], buf, len) == Decide(CmdAtCipsslcert);
  }

  /**
   * "AT+CIPSSLCERT" followed by a non-letter resolves to CMD_AT_CIPSSLCERT:
   * no earlier entry, the +CIPSSLCERTMAX entry included, decides it.
   */
  lemma CipsslcertNotShadowedByMax(buf: seq<byte>, len: nat)
    requires Framed(buf, len) && TextAt(buf, 2, "+CIPSSLCERT") && !IsAlpha(At(buf, 13))
    ensures Resolve(buf, len) == CmdAtCipsslcert
  {
    var t := "+CIPSSLCERT";
    assert At(buf, 2) as int == t[0] as int && At(buf, 3) as int == t[1] as int && At(buf, 4) as int == t[2] as int;
    assert At(buf, 5) as int == t[3] as int && At(buf, 6) as int == t[4] as int;
    assert At(buf, 7) as int == t[5] as int && At(buf, 9) as int == t[7] as int;
    PassOverToCipsslcert(buf, len);
    CipsslcertEntryDecides(buf, len);
  }
}
