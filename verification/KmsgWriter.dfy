/** The /dev/kmsg writer (pkg/kmsg/writer/kmsg.go) and its priorities (pkg/kmsg/writer/type_kernel_message.go). */
module KmsgWriter {
  import Text

  type byte = b: int | 0 <= b < 256

  const NEWLINE: byte := 10
  const TAB: byte := 9
  const SPACE: byte := 32
  const MAX_RECORD := 1024 - 48
  const LOG_SYSLOG := 5 * 8

  // ---- priorities ----

  datatype Priority = Emerg | Alert | Crit | Error | Warning | Notice | Info | Debug | Default

  /** The canonical text of a priority. */
  function Name(p: Priority): string {
    match p
    case Emerg => "KERN_EMERG"
    case Alert => "KERN_ALERT"
    case Crit => "KERN_CRIT"
    case Error => "KERN_ERR"
    case Warning => "KERN_WARNING"
    case Notice => "KERN_NOTICE"
    case Info => "KERN_INFO"
    case Debug => "KERN_DEBUG"
    case Default => "KERN_DEFAULT"
  }

  /** ConvertKernelMessagePriority. */
  function Convert(s: string): (p: Priority) {
    if s == "KERN_EMERG" || s == "kern.emerg" then Emerg
    else if s == "KERN_ALERT" || s == "kern.alert" then Alert
    else if s == "KERN_CRIT" || s == "kern.crit" then Crit
    else if s == "KERN_ERR" || s == "kern.err" then Error
    else if s == "KERN_WARNING" || s == "kern.warning" || s == "kern.warn" then Warning
    else if s == "KERN_NOTICE" || s == "kern.notice" then Notice
    else if s == "KERN_INFO" || s == "kern.info" then Info
    else if s == "KERN_DEBUG" || s == "kern.debug" then Debug
    else if s == "KERN_DEFAULT" || s == "kern.default" then Default
    else Info
  }

  function SyslogPriority(s: string): (n: nat) {
    LOG_SYSLOG + (match Convert(s)
                  case Emerg => 0
                  case Alert => 1
                  case Crit => 2
                  case Error => 3
                  case Warning => 4
                  case Notice => 5
                  case Info => 6
                  case Debug => 7
                  case Default => 6)
  }

  /** Every text names facility 5, and its severity is that of its canonical form. */
  lemma PriorityIsSyslog(s: string)
    ensures SyslogPriority(s) / 8 == 5 && 40 <= SyslogPriority(s) <= 47
    ensures Convert(Name(Convert(s))) == Convert(s)
    ensures SyslogPriority(Name(Convert(s))) == SyslogPriority(s)
  {}

  /** The severities in the kernel's own spelling ... */
  lemma KernelSeverities()
    ensures SyslogPriority("KERN_EMERG") == 40 && SyslogPriority("KERN_ALERT") == 41
        && SyslogPriority("KERN_CRIT") == 42
    ensures SyslogPriority("KERN_ERR") == 43 && SyslogPriority("KERN_WARNING") == 44
  {}

  lemma KernelLowSeverities()
    ensures SyslogPriority("KERN_NOTICE") == 45 && SyslogPriority("KERN_INFO") == 46
        && SyslogPriority("KERN_DEBUG") == 47
    ensures SyslogPriority("KERN_DEFAULT") == 46
  {}

  /** ... and in that of syslog. */
  lemma SyslogSeverities()
    ensures SyslogPriority("kern.emerg") == 40 && SyslogPriority("kern.alert") == 41
        && SyslogPriority("kern.crit") == 42
    ensures SyslogPriority("kern.err") == 43 && SyslogPriority("kern.warning") == 44
  {}

  lemma SyslogLowSeverities()
    ensures SyslogPriority("kern.warn") == 44 && SyslogPriority("kern.notice") == 45
        && SyslogPriority("kern.info") == 46
    ensures SyslogPriority("kern.debug") == 47 && SyslogPriority("kern.default") == 46
  {}

  const SPELLINGS := ["KERN_EMERG", "KERN_ALERT", "KERN_CRIT", "KERN_ERR", "KERN_WARNING", "KERN_NOTICE", "KERN_INFO",
                      "KERN_DEBUG", "KERN_DEFAULT", "kern.emerg", "kern.alert", "kern.crit", "kern.err", "kern.warning",
                      "kern.warn", "kern.notice", "kern.info", "kern.debug", "kern.default"]

  /** Any other text means informational. */
  lemma OtherTextIsInfo(s: string)
    requires s !in SPELLINGS
    ensures SyslogPriority(s) == 46
  {
    assert forall i :: 0 <= i < |SPELLINGS| ==> s != SPELLINGS[i];
    NotSpelled(s);
  }

  lemma NotSpelled(s: string)
    requires forall i :: 0 <= i < |SPELLINGS| ==> s != SPELLINGS[i]
    ensures Convert(s) == Info
  {
    assert s != SPELLINGS[0] && s != SPELLINGS[1] && s != SPELLINGS[2] && s != SPELLINGS[3] && s != SPELLINGS[4];
    assert s != SPELLINGS[5] && s != SPELLINGS[6] && s != SPELLINGS[7] && s != SPELLINGS[8] && s != SPELLINGS[9];
    assert s != SPELLINGS[10] && s != SPELLINGS[11] && s != SPELLINGS[12] && s != SPELLINGS[13] && s != SPELLINGS[14];
    assert s != SPELLINGS[15] && s != SPELLINGS[16] && s != SPELLINGS[17] && s != SPELLINGS[18];
  }

  // ---- lines ----

  /** bytes.IndexByte. */
  method IndexByte(p: seq<byte>, b: byte) returns (i: int)
    ensures i == -1 ==> b !in p
    ensures i != -1 ==> 0 <= i < |p| && p[i] == b && b !in p[..i]
  {
    for k := 0 to |p|
      invariant b !in p[..k]
    {
      if p[k] == b {
        return k;
      }
    }
    assert p[..|p|] == p;
    return -1;
  }

  /** The length of the first line. */
  function LineEnd(p: seq<byte>): (e: nat)
    ensures e <= |p|
  {
    if p == [] || p[0] == NEWLINE then 0 else LineEnd(p[1..]) + 1
  }

  /** The lines of a text, without their newlines; a last line need not end in one. */
  function Lines(p: seq<byte>): seq<seq<byte>>
    decreases |p|
  {
    if p == [] then [] else [p[..LineEnd(p)]] + Lines(After(p, LineEnd(p)))
  }

  /** Each line followed by a newline. */
  function Unlines(lines: seq<seq<byte>>): seq<byte> {
    if lines == [] then [] else lines[0] + [NEWLINE] + Unlines(lines[1..])
  }

  /** The first line of p is p[..e]. */
  ghost predicate EndsAt(p: seq<byte>, e: nat) {
    e <= |p| && NEWLINE !in p[..e] && (e < |p| ==> p[e] == NEWLINE)
  }

  /** What follows the first line and its newline. */
  function After(p: seq<byte>, e: nat): seq<byte> {
    if e < |p| then p[e + 1..] else []
  }

  lemma {:induction false} EndIsUnique(p: seq<byte>, e: nat)
    requires EndsAt(p, e)
    ensures LineEnd(p) == e
  {
    if e > 0 {
      assert p[..e][0] == p[0];
      assert p[1..][..e - 1] == p[..e][1..];
      EndIsUnique(p[1..], e - 1);
    }
  }

  lemma {:induction false} EndIsEnd(p: seq<byte>)
    ensures EndsAt(p, LineEnd(p))
  {
    if p != [] && p[0] != NEWLINE {
      var e := LineEnd(p[1..]);
      EndIsEnd(p[1..]);
      assert p[..e + 1] == [p[0]] + p[1..][..e];
    }
  }

  lemma LinesStep(p: seq<byte>, e: nat)
    requires p != [] && EndsAt(p, e)
    ensures Lines(p) == [p[..e]] + Lines(After(p, e))
  {
    EndIsUnique(p, e);
  }

  lemma {:induction false} LinesHoldNoNewline(p: seq<byte>, k: nat)
    requires k < |Lines(p)|
    ensures NEWLINE !in Lines(p)[k]
    decreases |p|
  {
    EndIsEnd(p);
    if k > 0 {
      LinesHoldNoNewline(After(p, LineEnd(p)), k - 1);
    }
  }

  lemma UnlinesCons(line: seq<byte>, lines: seq<seq<byte>>)
    ensures Unlines([line] + lines) == line + [NEWLINE] + Unlines(lines)
  {
    assert ([line] + lines)[1..] == lines;
  }

  /** A text with a newline added at its end if it has none; the empty text stays empty. */
  function Terminated(p: seq<byte>): seq<byte> {
    if p == [] || p[|p| - 1] == NEWLINE then p else p + [NEWLINE]
  }

  lemma TerminatedStep(p: seq<byte>, e: nat)
    requires p != [] && EndsAt(p, e)
    ensures Terminated(p) == p[..e] + [NEWLINE] + Terminated(After(p, e))
  {
    if e < |p| {
      var rest := p[e + 1..];
      assert p == p[..e] + [NEWLINE] + rest;
      assert rest != [] ==> rest[|rest| - 1] == p[|p| - 1];
      assert p[..e] + [NEWLINE] + (rest + [NEWLINE]) == p + [NEWLINE];
    } else {
      assert p[..e] == p && p[|p| - 1] in p[..e];
    }
  }

  /** Putting the lines together gives the text back, with its last newline. */
  lemma {:induction false} UnlinesOfLines(p: seq<byte>)
    ensures Unlines(Lines(p)) == Terminated(p)
    decreases |p|
  {
    if p != [] {
      var e := LineEnd(p);
      EndIsEnd(p);
      LinesStep(p, e);
      TerminatedStep(p, e);
      UnlinesCons(p[..e], Lines(After(p, e)));
      UnlinesOfLines(After(p, e));
    }
  }

  lemma LinesOfCons(line: seq<byte>, rest: seq<byte>)
    requires NEWLINE !in line
    ensures Lines(line + [NEWLINE] + rest) == [line] + Lines(rest)
  {
    var p, e := line + [NEWLINE] + rest, |line|;
    assert p[..e] == line && p[e] == NEWLINE && p[e + 1..] == rest;
    LinesStep(p, e);
  }

  /** And no other lines do. */
  lemma {:induction false} LinesOfUnlines(lines: seq<seq<byte>>)
    requires forall k :: 0 <= k < |lines| ==> NEWLINE !in lines[k]
    ensures Lines(Unlines(lines)) == lines
  {
    if lines != [] {
      LinesOfCons(lines[0], Unlines(lines[1..]));
      LinesOfUnlines(lines[1..]);
    }
  }

  // ---- records ----

  function Bytes(s: string): seq<byte>
    requires forall i :: 0 <= i < |s| ==> s[i] < 128 as char
  {
    seq(|s|, i requires 0 <= i < |s| => s[i] as int)
  }

  function TrimNewline(line: seq<byte>): seq<byte> {
    if line != [] && line[|line| - 1] == NEWLINE then line[..|line| - 1] else line
  }

  function Untab(line: seq<byte>): (r: seq<byte>)
    ensures |r| == |line|
    ensures forall i :: 0 <= i < |r| ==> r[i] == if line[i] == TAB then SPACE else line[i]
  {
    seq(|line|, i requires 0 <= i < |line| => if line[i] == TAB then SPACE else line[i])
  }

  /** A tab becomes a space; every other byte stays. */
  lemma TabsBecomeSpaces(line: seq<byte>, i: nat)
    requires i < |line|
    ensures |Untab(line)| == |line| && Untab(line)[i] == if line[i] == 9 then 32 else line[i]
  {}

  /** buildKmsgLine: "<%d>%s\n". */
  function BuildLine(priority: nat, line: seq<byte>): seq<byte> {
    Bytes(['<'] + Text.Digits(priority) + ['>']) + Untab(TrimNewline(line)) + [NEWLINE]
  }

  /** A built line longer than a record loses its end to "..." and a newline. */
  function CutLine(built: seq<byte>): seq<byte> {
    if |built| > MAX_RECORD then built[..MAX_RECORD - 4] + [46, 46, 46, NEWLINE] else built
  }

  /** What Write hands to the device for one line of the message. */
  function Record(priority: nat, line: seq<byte>): seq<byte> {
    CutLine(BuildLine(priority, line))
  }

  function Records(priority: nat, lines: seq<seq<byte>>): (r: seq<seq<byte>>)
    ensures |r| == |lines|
  {
    if lines == [] then [] else [Record(priority, lines[0])] + Records(priority, lines[1..])
  }

  lemma {:induction false} RecordsAt(priority: nat, lines: seq<seq<byte>>, k: nat)
    requires k < |lines|
    ensures Records(priority, lines)[k] == Record(priority, lines[k])
  {
    var tail := Records(priority, lines[1..]);
    RecordsCons(priority, lines[0], lines[1..]);
    assert lines == [lines[0]] + lines[1..];
    if k > 0 {
      RecordsAt(priority, lines[1..], k - 1);
      assert ([Record(priority, lines[0])] + tail)[k] == tail[k - 1];
    }
  }

  lemma PrefixOfPriority(n: nat)
    requires 40 <= n <= 47
    ensures Bytes(['<'] + Text.Digits(n) + ['>']) == [60, 52, 48 + (n - 40), 62]
  {
    assert Text.Digits(n) == Text.Digits(n / 10) + [('0' as int + n % 10) as char];
    assert Text.Digits(n / 10) == ['4'];
    assert ['<'] + Text.Digits(n) + ['>'] == ['<', '4', ('0' as int + (n - 40)) as char, '>'];
  }

  /** What follows the priority, for a line without newline. */
  function Shown(line: seq<byte>): seq<byte> {
    if |line| <= 971 then Untab(line) else Untab(line[..968]) + [46, 46, 46]
  }

  lemma CutHead(head: seq<byte>, text: seq<byte>)
    requires |head| == 4 && |text| > 971
    ensures (head + text + [NEWLINE])[..972] == head + text[..968]
  {}

  lemma RecordIs(n: nat, line: seq<byte>)
    requires 40 <= n <= 47 && NEWLINE !in line
    ensures Record(n, line) == [60, 52, 48 + (n - 40), 62] + Shown(line) + [NEWLINE]
  {
    PrefixOfPriority(n);
    var head: seq<byte> := [60, 52, 48 + (n - 40), 62];
    assert TrimNewline(line) == line;
    assert BuildLine(n, line) == head + Untab(line) + [NEWLINE];
    if |line| > 971 {
      CutHead(head, Untab(line));
      assert Untab(line)[..968] == Untab(line[..968]);
      var kept, dots: seq<byte> := head + Untab(line[..968]), [46, 46, 46];
      assert kept + [46, 46, 46, NEWLINE] == kept + dots + [NEWLINE];
      assert kept + dots == head + Shown(line);
    }
  }

  lemma TextHasNoNewline(line: seq<byte>)
    requires NEWLINE !in line
    ensures NEWLINE !in Shown(line) && |Shown(line)| <= 971
  {
    assert forall i :: 0 <= i < |line| ==> line[i] != NEWLINE;
    assert |line| > 971 ==> forall i :: 0 <= i < 968 ==> line[..968][i] == line[i];
  }

  /**
    Every record starts with the priority in angle brackets, is at most 976 bytes and ends in its only newline.
    A line of up to 971 bytes follows intact, tabs shown as spaces; a longer one keeps its first 968 bytes and "...".
   */
  lemma RecordShape(priority: string, line: seq<byte>)
    requires NEWLINE !in line
    ensures var n := SyslogPriority(priority);
            var r := Record(n, line);
            && 5 <= |r| <= 976 && r[..4] == [60, 52, 48 + (n - 40), 62]
            && 10 !in r[..|r| - 1] && r[|r| - 1] == 10
            && r[4..|r| - 1] == if |line| <= 971 then Untab(line) else Untab(line[..968]) + [46, 46, 46]
  {
    PriorityIsSyslog(priority);
    FramedShape(SyslogPriority(priority), line);
  }

  lemma FramedShape(n: nat, line: seq<byte>)
    requires 40 <= n <= 47 && NEWLINE !in line
    ensures var r := Record(n, line);
            && 5 <= |r| <= 976 && r[..4] == [60, 52, 48 + (n - 40), 62]
            && NEWLINE !in r[..|r| - 1] && r[|r| - 1] == NEWLINE
            && r[4..|r| - 1] == Shown(line)
  {
    RecordIs(n, line);
    TextHasNoNewline(line);
    FrameOf([60, 52, 48 + (n - 40), 62], Shown(line));
  }

  lemma FrameOf(head: seq<byte>, text: seq<byte>)
    requires |head| == 4 && NEWLINE !in head && NEWLINE !in text
    ensures var r := head + text + [NEWLINE];
            |r| == |text| + 5 && r[..4] == head && r[4..|r| - 1] == text && NEWLINE !in r[..|r| - 1]
              && r[|r| - 1] == NEWLINE
  {
    assert (head + text + [NEWLINE])[..|text| + 4] == head + text;
  }

  /** The text of a record, without the priority and the newline. */
  function Payload(record: seq<byte>): seq<byte> {
    if |record| < 5 then [] else record[4..|record| - 1]
  }

  function Payloads(records: seq<seq<byte>>): (r: seq<seq<byte>>)
    ensures |r| == |records| && forall k :: 0 <= k < |r| ==> r[k] == Payload(records[k])
  {
    seq(|records|, k requires 0 <= k < |records| => Payload(records[k]))
  }

  lemma UntabIsIdentity(line: seq<byte>)
    requires TAB !in line
    ensures Untab(line) == line
  {
    assert forall i :: 0 <= i < |line| ==> line[i] != TAB;
  }

  predicate Plain(lines: seq<seq<byte>>) {
    forall k :: 0 <= k < |lines| ==> TAB !in lines[k] && |lines[k]| <= 971
  }

  /** One line is carried over unchanged exactly when it is short and free of tabs. */
  lemma PayloadIntact(priority: string, line: seq<byte>)
    requires NEWLINE !in line
    ensures Payload(Record(SyslogPriority(priority), line)) == line <==> TAB !in line && |line| <= 971
  {
    RecordShape(priority, line);
    var payload := Payload(Record(SyslogPriority(priority), line));
    if TAB !in line {
      UntabIsIdentity(line);
    } else if |line| <= 971 {
      var i :| 0 <= i < |line| && line[i] == TAB;
      assert payload[i] == SPACE;
    }
  }

  lemma PayloadIsLine(priority: string, line: seq<byte>)
    requires NEWLINE !in line
    ensures NEWLINE !in Payload(Record(SyslogPriority(priority), line))
  {
    RecordShape(priority, line);
    var r := Record(SyslogPriority(priority), line);
    assert Payload(r) == r[..|r| - 1][4..];
  }

  /**
    The records carry the message: reading them back gives its lines exactly when every line is short and has no tab.
   */
  lemma RecordsCarryMessage(priority: string, message: seq<byte>)
    ensures var records := Records(SyslogPriority(priority), Lines(message));
            Unlines(Payloads(records)) == Unlines(Lines(message)) <==> Plain(Lines(message))
  {
    var lines := Lines(message);
    var n := SyslogPriority(priority);
    var payloads := Payloads(Records(n, lines));
    forall k | 0 <= k < |lines|
      ensures NEWLINE !in payloads[k] && (payloads[k] == lines[k] <==> TAB !in lines[k] && |lines[k]| <= 971)
    {
      RecordsAt(n, lines, k);
      LinesHoldNoNewline(message, k);
      PayloadIntact(priority, lines[k]);
      PayloadIsLine(priority, lines[k]);
    }
    if Plain(lines) {
      assert payloads == lines;
    } else if Unlines(payloads) == Unlines(lines) {
      forall k | 0 <= k < |lines| ensures NEWLINE !in lines[k] {
        LinesHoldNoNewline(message, k);
      }
      LinesOfUnlines(payloads);
      LinesOfUnlines(lines);
    }
  }

  // ---- writing ----

  /** The open device: it keeps the records it took, and `takes` says which write attempts succeed. */
  class Device {
    const takes: nat -> bool
    var records: seq<seq<byte>>
    var attempts: nat

    constructor (takes: nat -> bool)
      ensures this.takes == takes && records == [] && attempts == 0
    {
      this.takes := takes;
      records := [];
      attempts := 0;
    }

    method Write(record: seq<byte>) returns (ok: bool)
      modifies this
      ensures ok == takes(old(attempts)) && attempts == old(attempts) + 1
      ensures records == if ok then old(records) + [record] else old(records)
    {
      ok := takes(attempts);
      attempts := attempts + 1;
      if ok {
        records := records + [record];
      }
    }
  }

  /** The result of a call, and the device after it. */
  datatype Written = Written(ok: bool, records: seq<seq<byte>>, attempts: nat)

  /** Writing the wanted records one after the other, up to the first failing write. */
  function Emit(takes: nat -> bool, records: seq<seq<byte>>, attempts: nat, want: seq<seq<byte>>): Written
    decreases |want|
  {
    if want == [] then Written(true, records, attempts)
    else if !takes(attempts) then Written(false, records, attempts + 1)
    else Emit(takes, records + [want[0]], attempts + 1, want[1..])
  }

  class Writer {
    const device: Device

    constructor (device: Device)
      ensures this.device == device
    {
      this.device := device;
    }

    /** One record per line, in order, up to the first failing write. */
    method Write(priority: string, message: seq<byte>) returns (ok: bool)
      modifies device
      ensures Written(ok, device.records, device.attempts) ==
              Emit(device.takes, old(device.records), old(device.attempts),
                   Records(SyslogPriority(priority), Lines(message)))
    {
      ok := WriteLines(SyslogPriority(priority), message);
    }

    /** The loop of Write. */
    method WriteLines(n: nat, message: seq<byte>) returns (ok: bool)
      modifies device
      ensures Written(ok, device.records, device.attempts) ==
              Emit(device.takes, old(device.records), old(device.attempts), Records(n, Lines(message)))
    {
      var p := message;
      while |p| > 0
        invariant Emit(device.takes, device.records, device.attempts, Records(n, Lines(p))) ==
                  Emit(device.takes, old(device.records), old(device.attempts), Records(n, Lines(message)))
        decreases |p|
      {
        ghost var records, attempts := device.records, device.attempts;
        ghost var record;
        ok, p, record := WriteLine(n, p);
        EmitCons(device.takes, records, attempts, record, Records(n, Lines(p)));
        if !ok {
          return;
        }
      }
      ok := true;
    }

    /** The body of that loop: the first line is cut off and written. */
    method WriteLine(n: nat, p: seq<byte>) returns (ok: bool, rest: seq<byte>, ghost written: seq<byte>)
      requires p != []
      modifies device
      ensures |rest| < |p| && Records(n, Lines(p)) == [written] + Records(n, Lines(rest))
      ensures ok == device.takes(old(device.attempts)) && device.attempts == old(device.attempts) + 1
      ensures device.records == if ok then old(device.records) + [written] else old(device.records)
    {
      var i := IndexByte(p, NEWLINE);
      ghost var e := if i == -1 then |p| else i;
      assert i == -1 ==> p[..e] == p;
      if i == -1 {
        i := |p| - 1;
      }
      HeadRecord(n, p, e, i);
      var record := CutLine(BuildLine(n, p[..i + 1]));
      written := record;
      rest := p[i + 1..];
      ok := device.Write(record);
    }
  }

  lemma EmitCons(takes: nat -> bool, records: seq<seq<byte>>, attempts: nat, record: seq<byte>, rest: seq<seq<byte>>)
    ensures Emit(takes, records, attempts, [record] + rest) ==
            if takes(attempts) then Emit(takes, records + [record], attempts + 1, rest)
            else Written(false, records, attempts + 1)
  {
    assert ([record] + rest)[1..] == rest;
  }

  /**
    What a call leaves: the first k wanted records were added, in order, and their writes succeeded; it reports success
    exactly if that is all of them, and otherwise stopped at a write that failed.
   */
  lemma {:induction false} EmitWritesPrefix(takes: nat -> bool, records: seq<seq<byte>>, attempts: nat,
                                            want: seq<seq<byte>>)
    returns (k: nat)
    ensures k <= |want| && Emit(takes, records, attempts, want).records == records + want[..k]
    ensures forall j :: attempts <= j < attempts + k ==> takes(j)
    ensures Emit(takes, records, attempts, want).ok <==> k == |want|
    ensures k < |want| ==> !takes(attempts + k) && Emit(takes, records, attempts, want).attempts == attempts + k + 1
    decreases |want|
  {
    if want == [] || !takes(attempts) {
      k := 0;
    } else {
      var rest := EmitWritesPrefix(takes, records + [want[0]], attempts + 1, want[1..]);
      k := rest + 1;
      assert want[..k] == [want[0]] + want[1..][..rest];
      assert records + [want[0]] + want[1..][..rest] == records + want[..k];
      assert attempts + 1 + rest == attempts + k;
    }
  }

  lemma TrimCut(p: seq<byte>, e: nat)
    requires e < |p| && p[e] == NEWLINE
    ensures TrimNewline(p[..e + 1]) == p[..e]
  {
    assert p[..e + 1][..e] == p[..e];
  }

  lemma TrimWhole(p: seq<byte>)
    requires p != [] && EndsAt(p, |p|)
    ensures TrimNewline(p[..|p|]) == p[..|p|] && p[|p|..] == []
  {
    assert p[|p| - 1] in p[..|p|];
  }

  lemma SliceIsLine(p: seq<byte>, e: nat, i: int)
    requires p != [] && EndsAt(p, e) && i == if e < |p| then e else |p| - 1
    ensures TrimNewline(p[..i + 1]) == p[..e] && p[i + 1..] == After(p, e)
  {
    if e < |p| {
      TrimCut(p, e);
    } else {
      TrimWhole(p);
    }
  }

  lemma RecordOfSlice(n: nat, p: seq<byte>)
    requires NEWLINE !in TrimNewline(p)
    ensures Record(n, p) == Record(n, TrimNewline(p))
  {
    var line := TrimNewline(p);
    assert line != [] ==> line[|line| - 1] in line;
  }

  lemma RecordsCons(n: nat, line: seq<byte>, lines: seq<seq<byte>>)
    ensures Records(n, [line] + lines) == [Record(n, line)] + Records(n, lines)
  {
    assert ([line] + lines)[1..] == lines;
  }

  /** The slice the loop takes makes the record of the first line, and what it leaves those of the other lines. */
  lemma HeadRecord(n: nat, p: seq<byte>, e: nat, i: int)
    requires p != [] && EndsAt(p, e) && i == if e < |p| then e else |p| - 1
    ensures Records(n, Lines(p)) == [Record(n, p[..i + 1])] + Records(n, Lines(p[i + 1..]))
  {
    LinesStep(p, e);
    SliceIsLine(p, e, i);
    RecordOfSlice(n, p[..i + 1]);
    RecordsCons(n, p[..e], Lines(p[i + 1..]));
  }
}
