/**
  The lspci -vvv parser (pkg/pci/pci.go). The regular expressions that tell lines apart are abstract: a line is
  given by the kind it matches and the tokens the code takes from it.
 */
module Lspci {
  import opened Text

  // ---- ACS flags ----

  /** The seven flags of an ACS structure; the structure is the set of those that are on. */
  const FLAG_NAMES := {"SrcValid", "TransBlk", "ReqRedir", "CmpltRedir", "UpstreamFwd", "EgressCtrl", "DirectTrans"}

  type Acs = set<string>

  const NO_ACS: Acs := {}

  /** Field `f` sets the flag `name`. */
  predicate Sets(f: string, name: string) {
    |f| >= 2 && f[..|f| - 1] == name
  }

  /** The flag `name` is on when the last field that sets it ends in '+'. */
  predicate FlagOn(fields: seq<string>, name: string) {
    fields != [] &&
    var f := fields[|fields| - 1];
    if Sets(f, name) then f[|f| - 1] == '+' else FlagOn(fields[..|fields| - 1], name)
  }

  method ParseACS(fields: seq<string>) returns (a: Acs)
    ensures forall name :: name in a <==> name in FLAG_NAMES && FlagOn(fields, name)
    ensures a == ParseAcs(fields)
  {
    a := NO_ACS;
    for i := 0 to |fields|
      invariant a == ParseAcs(fields[..i])
    {
      assert fields[..i + 1][..i] == fields[..i];
      var f := fields[i];
      if |f| < 2 {
        continue;
      }
      var enabled, name := f[|f| - 1] == '+', f[..|f| - 1];
      if name in FLAG_NAMES {
        a := if enabled then a + {name} else a - {name};
      }
    }
    assert fields[..|fields|] == fields;
    forall name ensures name in a <==> name in FLAG_NAMES && FlagOn(fields, name) {
      FlagsAreLastSet(fields, name);
    }
  }

  function ParseAcs(fields: seq<string>): Acs {
    if fields == [] then NO_ACS
    else
      var a, f := ParseAcs(fields[..|fields| - 1]), fields[|fields| - 1];
      if |f| < 2 || f[..|f| - 1] !in FLAG_NAMES then a
      else if f[|f| - 1] == '+' then a + {f[..|f| - 1]}
      else a - {f[..|f| - 1]}
  }

  lemma {:induction false} FlagsAreLastSet(fields: seq<string>, name: string)
    ensures name in ParseAcs(fields) <==> name in FLAG_NAMES && FlagOn(fields, name)
  {
    if fields != [] {
      FlagsAreLastSet(fields[..|fields| - 1], name);
    }
  }

  /** The seven flags by name. */
  lemma SevenFlags(fields: seq<string>)
    ensures "SrcValid" in ParseAcs(fields) <==> FlagOn(fields, "SrcValid")
    ensures "TransBlk" in ParseAcs(fields) <==> FlagOn(fields, "TransBlk")
    ensures "ReqRedir" in ParseAcs(fields) <==> FlagOn(fields, "ReqRedir")
    ensures "CmpltRedir" in ParseAcs(fields) <==> FlagOn(fields, "CmpltRedir")
    ensures "UpstreamFwd" in ParseAcs(fields) <==> FlagOn(fields, "UpstreamFwd")
    ensures "EgressCtrl" in ParseAcs(fields) <==> FlagOn(fields, "EgressCtrl")
    ensures "DirectTrans" in ParseAcs(fields) <==> FlagOn(fields, "DirectTrans")
  {
    FlagsAreLastSet(fields, "SrcValid");
    FlagsAreLastSet(fields, "TransBlk");
    FlagsAreLastSet(fields, "ReqRedir");
    FlagsAreLastSet(fields, "CmpltRedir");
    FlagsAreLastSet(fields, "UpstreamFwd");
    FlagsAreLastSet(fields, "EgressCtrl");
    FlagsAreLastSet(fields, "DirectTrans");
  }

  // ---- lines, devices, blocks ----

  /**
    BadHeader is a line that matches the header's pattern and yet has a single field: after its space the pattern takes
    a character, such as a no-break space, that strings.Fields counts as white space.
   */
  datatype Line =
    | Header(id: string, name: string)
    | BadHeader
    | AcsCapability
    | AcsCap(fields: seq<string>)
    | AcsCtl(fields: seq<string>)
    | Driver(driver: string)
    | Modules(modules: seq<string>)
    | Other

  datatype AccessControl = AccessControl(cap: Acs, ctl: Acs)

  datatype Device = Device(id: string, name: string, acs: Option<AccessControl>, driver: string, modules: seq<string>)

  const BLANK := Device("", "", None, "", [])

  /** The header's pattern gives every ID seven characters. */
  predicate WellFormed(lines: seq<Line>) {
    forall i :: 0 <= i < |lines| ==> lines[i].Header? ==> lines[i].id != ""
  }

  /** A header and the lines up to the next one. */
  datatype Block = Block(id: string, name: string, body: seq<Line>)

  /** The lines before the first header. */
  function Preamble(lines: seq<Line>): seq<Line> {
    if lines == [] then []
    else
      var rest, l := lines[..|lines| - 1], lines[|lines| - 1];
      if l.Header? || Blocks(rest) != [] then Preamble(rest) else Preamble(rest) + [l]
  }

  function Blocks(lines: seq<Line>): (blocks: seq<Block>) {
    if lines == [] then []
    else
      var before, l := Blocks(lines[..|lines| - 1]), lines[|lines| - 1];
      if l.Header? then before + [Block(l.id, l.name, [])]
      else if before == [] then []
      else before[..|before| - 1] + [Extend(before[|before| - 1], l)]
  }

  function Extend(b: Block, l: Line): Block {
    b.(body := b.body + [l])
  }

  predicate NoHeaders(lines: seq<Line>) {
    forall i :: 0 <= i < |lines| ==> !lines[i].Header?
  }

  function Unblocks(blocks: seq<Block>): seq<Line> {
    if blocks == [] then []
    else
      var b := blocks[|blocks| - 1];
      Unblocks(blocks[..|blocks| - 1]) + [Header(b.id, b.name)] + b.body
  }

  lemma UnblocksSnoc(blocks: seq<Block>, b: Block)
    ensures Unblocks(blocks + [b]) == Unblocks(blocks) + [Header(b.id, b.name)] + b.body
  {
    assert (blocks + [b])[..|blocks|] == blocks;
  }

  lemma Regroup<T>(a: seq<T>, b: seq<T>, x: seq<T>)
    ensures a + (b + x) == a + b + x
  {}

  /** The preamble and the blocks are the lines again. */
  lemma {:induction false} BlocksPartition(lines: seq<Line>)
    ensures Preamble(lines) + Unblocks(Blocks(lines)) == lines
  {
    if lines != [] {
      var rest, l := lines[..|lines| - 1], lines[|lines| - 1];
      var before := Blocks(rest);
      BlocksPartition(rest);
      assert lines == rest + [l];
      if l.Header? {
        UnblocksSnoc(before, Block(l.id, l.name, []));
        assert Unblocks(Blocks(lines)) == Unblocks(before) + [l];
        Regroup(Preamble(rest), Unblocks(before), [l]);
      } else if before != [] {
        UnblocksExtend(before, l);
        Regroup(Preamble(rest), Unblocks(before), [l]);
      } else {
        assert Unblocks([]) == [];
        assert rest == Preamble(rest);
      }
    }
  }

  lemma UnblocksExtend(blocks: seq<Block>, l: Line)
    requires blocks != []
    ensures Unblocks(blocks[..|blocks| - 1] + [Extend(blocks[|blocks| - 1], l)]) == Unblocks(blocks) + [l]
  {
    var init, last := blocks[..|blocks| - 1], blocks[|blocks| - 1];
    UnblocksSnoc(init, Extend(last, l));
    Regroup(Unblocks(init) + [Header(last.id, last.name)], last.body, [l]);
  }

  /** They are cut exactly before each header. */
  lemma {:induction false} NoHeaderInside(lines: seq<Line>)
    ensures NoHeaders(Preamble(lines))
    ensures forall k :: 0 <= k < |Blocks(lines)| ==> NoHeaders(Blocks(lines)[k].body)
  {
    if lines != [] {
      NoHeaderInside(lines[..|lines| - 1]);
    }
  }

  // ---- what a device takes from the lines of its block ----

  function LastDriver(segment: seq<Line>): string {
    if segment == [] then ""
    else
      var l := segment[|segment| - 1];
      if l.Driver? then l.driver else LastDriver(segment[..|segment| - 1])
  }

  predicate HasCapability(segment: seq<Line>) {
    AcsCapability in segment
  }

  /** The last ACSCap line after the last capability line. */
  function LastCap(segment: seq<Line>): Acs {
    if segment == [] then NO_ACS
    else
      var l := segment[|segment| - 1];
      if l.AcsCapability? then NO_ACS else if l.AcsCap? then ParseAcs(l.fields) else LastCap(segment[..|segment| - 1])
  }

  function LastCtl(segment: seq<Line>): Acs {
    if segment == [] then NO_ACS
    else
      var l := segment[|segment| - 1];
      if l.AcsCapability? then NO_ACS else if l.AcsCtl? then ParseAcs(l.fields) else LastCtl(segment[..|segment| - 1])
  }

  /** Before a capability line, ACSCap and ACSCtl lines are ignored. */
  function AcsOf(segment: seq<Line>): Option<AccessControl> {
    if HasCapability(segment) then Some(AccessControl(LastCap(segment), LastCtl(segment))) else None
  }

  /** The device described by a header and the lines of `segment`. */
  function Build(id: string, name: string, segment: seq<Line>): Device {
    Device(id, name, AcsOf(segment), LastDriver(segment), [])
  }

  predicate NoModules(lines: seq<Line>) {
    forall i :: 0 <= i < |lines| ==> !lines[i].Modules?
  }

  /** The lines before the first modules line. */
  function UpToModules(body: seq<Line>): (r: seq<Line>)
    ensures NoModules(r) && r <= body && (|r| < |body| ==> body[|r|].Modules?)
  {
    if body == [] || body[0].Modules? then [] else [body[0]] + UpToModules(body[1..])
  }

  /** The one device of a block: its header, and its lines up to and including its modules line. */
  function DeviceOf(b: Block): Device {
    var lines := UpToModules(b.body);
    var d := Build(b.id, b.name, lines);
    if |lines| < |b.body| then d.(modules := b.body[|lines|].modules) else d
  }

  function DevicesOf(blocks: seq<Block>): (devs: seq<Device>)
    ensures |devs| == |blocks| && forall k :: 0 <= k < |devs| ==> devs[k] == DeviceOf(blocks[k])
  {
    seq(|blocks|, k requires 0 <= k < |blocks| => DeviceOf(blocks[k]))
  }

  // ---- what the parser emits, on every input ----

  /** The lines after the last modules line. */
  function Tail(body: seq<Line>): seq<Line> {
    if body == [] || body[|body| - 1].Modules? then []
    else Tail(body[..|body| - 1]) + [body[|body| - 1]]
  }

  /** The device still open after the body: a modules line closes one and opens a nameless one. */
  function Open(id: string, name: string, body: seq<Line>): Device {
    if NoModules(body) then Build(id, name, body) else Build("", "", Tail(body))
  }

  /** The devices that the modules lines of a body close. */
  function Closed(id: string, name: string, body: seq<Line>): seq<Device> {
    if body == [] then []
    else
      var rest, l := body[..|body| - 1], body[|body| - 1];
      Closed(id, name, rest) + if l.Modules? then [Open(id, name, rest).(modules := l.modules)] else []
  }

  /** What a block followed by a header contributes. */
  function Kept(b: Block): seq<Device> {
    Closed(b.id, b.name, b.body) + if NoModules(b.body) then [Build(b.id, b.name, b.body)] else []
  }

  function AllKept(blocks: seq<Block>): seq<Device> {
    if blocks == [] then [] else AllKept(blocks[..|blocks| - 1]) + Kept(blocks[|blocks| - 1])
  }

  /** The IDs of the blocks without modules line. */
  function Recorded(blocks: seq<Block>): (ids: set<string>) {
    set b | b in blocks && NoModules(b.body) :: b.id
  }

  function Current(preamble: seq<Line>, blocks: seq<Block>): Device {
    if blocks == [] then Open("", "", preamble)
    else
      var last := blocks[|blocks| - 1];
      Open(last.id, last.name, last.body)
  }

  function Emitted(preamble: seq<Line>, blocks: seq<Block>): seq<Device> {
    if blocks == [] then Closed("", "", preamble)
    else
      var last := blocks[|blocks| - 1];
      Closed("", "", preamble) + AllKept(blocks[..|blocks| - 1]) + Closed(last.id, last.name, last.body)
  }

  function Earlier(blocks: seq<Block>): set<string> {
    if blocks == [] then {} else Recorded(blocks[..|blocks| - 1])
  }

  /** The last block lost because an earlier block without modules line had its ID. */
  predicate Dropped(blocks: seq<Block>) {
    blocks != [] && NoModules(blocks[|blocks| - 1].body) && blocks[|blocks| - 1].id in Earlier(blocks)
  }

  function AllDevices(preamble: seq<Line>, blocks: seq<Block>): seq<Device> {
    Emitted(preamble, blocks) +
    if blocks != [] && NoModules(blocks[|blocks| - 1].body) && !Dropped(blocks) then [Current(preamble, blocks)] else []
  }

  // ---- one line at a time ----

  /** How a line other than a header or a modules line changes the current device. */
  function Absorb(d: Device, l: Line): Device {
    match l
    case AcsCapability => d.(acs := Some(AccessControl(NO_ACS, NO_ACS)))
    case AcsCap(fields) => if d.acs.Some? then d.(acs := Some(d.acs.value.(cap := ParseAcs(fields)))) else d
    case AcsCtl(fields) => if d.acs.Some? then d.(acs := Some(d.acs.value.(ctl := ParseAcs(fields)))) else d
    case Driver(driver) => d.(driver := driver)
    case _ => d
  }

  lemma BuildAbsorbs(id: string, name: string, segment: seq<Line>, l: Line)
    ensures Build(id, name, segment + [l]) == Absorb(Build(id, name, segment), l)
  {
    assert (segment + [l])[..|segment|] == segment;
  }

  lemma NoModulesSnoc(body: seq<Line>, l: Line)
    ensures NoModules(body + [l]) <==> NoModules(body) && !l.Modules?
  {
    assert (body + [l])[|body|] == l;
    assert forall i :: 0 <= i < |body| ==> (body + [l])[i] == body[i];
  }

  lemma OpenAbsorbs(id: string, name: string, body: seq<Line>, l: Line)
    requires !l.Modules?
    ensures Open(id, name, body + [l]) == Absorb(Open(id, name, body), l)
    ensures Closed(id, name, body + [l]) == Closed(id, name, body)
  {
    NoModulesSnoc(body, l);
    assert (body + [l])[..|body|] == body;
    BuildAbsorbs(id, name, body, l);
    BuildAbsorbs("", "", Tail(body), l);
  }

  lemma OpenCloses(id: string, name: string, body: seq<Line>, l: Line)
    requires l.Modules?
    ensures Open(id, name, body + [l]) == BLANK
    ensures Closed(id, name, body + [l]) == Closed(id, name, body) + [Open(id, name, body).(modules := l.modules)]
  {
    NoModulesSnoc(body, l);
    assert (body + [l])[..|body|] == body;
  }

  /** The current device has an ID exactly while the last block had no modules line. */
  lemma CurrentHasID(preamble: seq<Line>, blocks: seq<Block>)
    requires forall b :: b in blocks ==> b.id != ""
    ensures Current(preamble, blocks).id != "" <==> blocks != [] && NoModules(blocks[|blocks| - 1].body)
  {
    if blocks != [] {
      assert blocks[|blocks| - 1] in blocks;
    }
  }

  lemma KeptIsClosedAndCurrent(preamble: seq<Line>, blocks: seq<Block>)
    requires blocks != [] && forall b :: b in blocks ==> b.id != ""
    ensures var cur := Current(preamble, blocks);
      && Closed("", "", preamble) + AllKept(blocks) == Emitted(preamble, blocks) + (if cur.id != "" then [cur] else [])
      && Recorded(blocks) == Earlier(blocks) + (if cur.id != "" then {cur.id} else {})
  {
    var init, last := blocks[..|blocks| - 1], blocks[|blocks| - 1];
    CurrentHasID(preamble, blocks);
    assert forall b :: b in blocks <==> b in init || b == last;
    var extra := if NoModules(last.body) then [Build(last.id, last.name, last.body)] else [];
    Regroup(AllKept(init), Closed(last.id, last.name, last.body), extra);
    Regroup(Closed("", "", preamble), AllKept(init) + Closed(last.id, last.name, last.body), extra);
    Regroup(Closed("", "", preamble), AllKept(init), Closed(last.id, last.name, last.body));
  }

  /** A header closes the current device if it has an ID, and starts the next. */
  lemma HeaderStep(preamble: seq<Line>, blocks: seq<Block>, next: Block)
    requires next.body == [] && forall b :: b in blocks ==> b.id != ""
    ensures var cur := Current(preamble, blocks); var blocks' := blocks + [next];
      && Current(preamble, blocks') == Device(next.id, next.name, None, "", [])
      && Emitted(preamble, blocks') == Emitted(preamble, blocks) + (if cur.id != "" then [cur] else [])
      && Earlier(blocks') == Earlier(blocks) + (if cur.id != "" then {cur.id} else {})
  {
    CurrentHasID(preamble, blocks);
    assert (blocks + [next])[..|blocks|] == blocks;
    if blocks != [] {
      KeptIsClosedAndCurrent(preamble, blocks);
    }
  }

  lemma SwapLast(blocks: seq<Block>, last: Block)
    requires blocks != []
    ensures var swapped := blocks[..|blocks| - 1] + [last];
      |swapped| == |blocks| && swapped[..|blocks| - 1] == blocks[..|blocks| - 1] && swapped[|blocks| - 1] == last
  {}

  /** The preamble and blocks after a line that is not a header. */
  lemma LineStep(preamble: seq<Line>, blocks: seq<Block>, l: Line, preamble': seq<Line>, blocks': seq<Block>)
    requires if blocks == [] then preamble' == preamble + [l] && blocks' == []
             else preamble' == preamble && blocks' == blocks[..|blocks| - 1] + [Extend(blocks[|blocks| - 1], l)]
    ensures var cur := Current(preamble, blocks);
      && Current(preamble', blocks') == (if l.Modules? then BLANK else Absorb(cur, l))
      && Emitted(preamble', blocks') ==
         Emitted(preamble, blocks) + (if l.Modules? then [cur.(modules := l.modules)] else [])
      && Earlier(blocks') == Earlier(blocks)
  {
    if blocks == [] {
      if l.Modules? {
        OpenCloses("", "", preamble, l);
      } else {
        OpenAbsorbs("", "", preamble, l);
      }
    } else {
      var last := blocks[|blocks| - 1];
      SwapLast(blocks, Extend(last, l));
      var sofar := Closed("", "", preamble) + AllKept(blocks[..|blocks| - 1]);
      if l.Modules? {
        OpenCloses(last.id, last.name, last.body, l);
        Regroup(sofar, Closed(last.id, last.name, last.body), [Current(preamble, blocks).(modules := l.modules)]);
      } else {
        OpenAbsorbs(last.id, last.name, last.body, l);
      }
    }
  }

  lemma {:induction false} BlocksHaveIDs(lines: seq<Line>)
    requires WellFormed(lines)
    ensures forall b :: b in Blocks(lines) ==> b.id != ""
  {
    if lines != [] {
      var rest := lines[..|lines| - 1];
      BlocksHaveIDs(rest);
      if Blocks(rest) != [] {
        assert Blocks(rest)[|Blocks(rest)| - 1] in Blocks(rest);
      }
    }
  }

  // ---- the parser ----

  /** The loop's exit: end of input, an error that is ignored because the process is dead, or any other error. */
  datatype ScanEnd = EndOfInput | AlreadyClosed | Failed

  datatype Outcome = Parsed(devices: seq<Device>) | InvalidHeader | Cancelled | ScanFailed

  function Filter(devs: seq<Device>, nameMatch: Option<string -> bool>): seq<Device> {
    if devs == [] then []
    else
      var d := devs[|devs| - 1];
      Filter(devs[..|devs| - 1], nameMatch) + if nameMatch.Some? && !nameMatch.value(d.name) then [] else [d]
  }

  /** The line reaches the check of the context: it is of no known kind, or an ACS line outside a capability. */
  predicate Unclaimed(cur: Device, l: Line) {
    l.Other? || ((l.AcsCap? || l.AcsCtl?) && cur.acs.None?)
  }

  ghost predicate Checked(lines: seq<Line>, i: nat)
    requires i < |lines|
  {
    Unclaimed(Current(Preamble(lines[..i]), Blocks(lines[..i])), lines[i])
  }

  /** Where parsing stands after `lines`. */
  ghost predicate Tracks(lines: seq<Line>, cur: Device, devs: seq<Device>, ids: set<string>) {
    && cur == Current(Preamble(lines), Blocks(lines))
    && devs == Emitted(Preamble(lines), Blocks(lines))
    && ids == Earlier(Blocks(lines))
  }

  lemma TracksStart()
    ensures Tracks([], BLANK, [], {})
  {}

  lemma TracksHeader(lines: seq<Line>, l: Line, cur: Device, devs: seq<Device>, ids: set<string>)
    requires WellFormed(lines) && l.Header? && Tracks(lines, cur, devs, ids)
    ensures Tracks(lines + [l], Device(l.id, l.name, None, "", []),
                   if cur.id != "" then devs + [cur] else devs, if cur.id != "" then ids + {cur.id} else ids)
  {
    BlocksHaveIDs(lines);
    assert (lines + [l])[..|lines|] == lines;
    HeaderStep(Preamble(lines), Blocks(lines), Block(l.id, l.name, []));
  }

  lemma TracksLine(lines: seq<Line>, l: Line, cur: Device, devs: seq<Device>, ids: set<string>)
    requires !l.Header? && Tracks(lines, cur, devs, ids)
    ensures Tracks(lines + [l], if l.Modules? then BLANK else Absorb(cur, l),
                   if l.Modules? then devs + [cur.(modules := l.modules)] else devs, ids)
    ensures Unclaimed(cur, l) ==> Absorb(cur, l) == cur
  {
    assert (lines + [l])[..|lines|] == lines;
    LineStep(Preamble(lines), Blocks(lines), l, Preamble(lines + [l]), Blocks(lines + [l]));
  }

  lemma TracksEnd(lines: seq<Line>, cur: Device, devs: seq<Device>, ids: set<string>)
    requires WellFormed(lines) && Tracks(lines, cur, devs, ids)
    ensures AllDevices(Preamble(lines), Blocks(lines)) ==
            if cur.id != "" && cur.id !in ids then devs + [cur] else devs
  {
    BlocksHaveIDs(lines);
    CurrentHasID(Preamble(lines), Blocks(lines));
  }

  /** The variables of the loop. */
  datatype Scan = Scan(cur: Device, devs: seq<Device>, ids: set<string>)

  function ScanStep(s: Scan, l: Line): Scan {
    if l.Header? then
      var next := Device(l.id, l.name, None, "", []);
      if s.cur.id != "" then Scan(next, s.devs + [s.cur], s.ids + {s.cur.id}) else s.(cur := next)
    else if l.Modules? then Scan(BLANK, s.devs + [s.cur.(modules := l.modules)], s.ids)
    else s.(cur := Absorb(s.cur, l))
  }

  function Scanned(lines: seq<Line>): Scan {
    if lines == [] then Scan(BLANK, [], {}) else ScanStep(Scanned(lines[..|lines| - 1]), lines[|lines| - 1])
  }

  /** Scanning line by line stands where the blocks say. */
  lemma {:induction false} ScanTracksBlocks(lines: seq<Line>)
    requires WellFormed(lines)
    ensures var s := Scanned(lines); Tracks(lines, s.cur, s.devs, s.ids)
  {
    if lines == [] {
      TracksStart();
    } else {
      var rest, l := lines[..|lines| - 1], lines[|lines| - 1];
      ScanTracksBlocks(rest);
      var s := Scanned(rest);
      assert lines == rest + [l];
      if l.Header? {
        TracksHeader(rest, l, s.cur, s.devs, s.ids);
      } else {
        TracksLine(rest, l, s.cur, s.devs, s.ids);
      }
    }
  }

  /** Line i makes the call return an error, if the call gets that far. */
  ghost predicate Stops(lines: seq<Line>, done: nat -> bool, i: nat)
    requires i < |lines|
  {
    lines[i].BadHeader? || (done(i) && Checked(lines, i))
  }

  /** No line before i ended the call. */
  ghost predicate Undisturbed(lines: seq<Line>, done: nat -> bool, i: nat)
    requires i <= |lines|
  {
    forall k :: 0 <= k < i ==> !Stops(lines, done, k)
  }

  /** Line i is the first to end the call. */
  ghost predicate EndsCall(lines: seq<Line>, done: nat -> bool, i: nat)
    requires i < |lines|
  {
    Undisturbed(lines, done, i) && Stops(lines, done, i)
  }

  /** The lines since the current device was begun: after the last header or modules line. */
  function SinceReset(lines: seq<Line>): seq<Line> {
    if lines == [] then []
    else
      var l := lines[|lines| - 1];
      if l.Header? || l.Modules? then [] else SinceReset(lines[..|lines| - 1]) + [l]
  }

  lemma {:induction false} CapabilityIsOpen(lines: seq<Line>)
    ensures Scanned(lines).cur.acs.Some? <==> AcsCapability in SinceReset(lines)
  {
    if lines != [] {
      CapabilityIsOpen(lines[..|lines| - 1]);
    }
  }

  /**
    The context is looked at exactly for a line of no known kind, and for an ACS line without a capability line since
    the device was begun.
   */
  lemma CheckedExactly(lines: seq<Line>, i: nat)
    requires WellFormed(lines) && i < |lines|
    ensures Checked(lines, i) <==>
            || lines[i].Other?
            || ((lines[i].AcsCap? || lines[i].AcsCtl?) && AcsCapability !in SinceReset(lines[..i]))
  {
    CheckedIsUnclaimed(lines, i);
    CapabilityIsOpen(lines[..i]);
  }

  lemma EndsOnce(lines: seq<Line>, done: nat -> bool, i: nat, j: nat)
    requires i < |lines| && j < |lines| && EndsCall(lines, done, i) && EndsCall(lines, done, j)
    ensures i == j
  {}

  lemma CheckedIsUnclaimed(lines: seq<Line>, i: nat)
    requires WellFormed(lines) && i < |lines|
    ensures Checked(lines, i) <==> Unclaimed(Scanned(lines[..i]).cur, lines[i])
  {
    ScanTracksBlocks(lines[..i]);
  }

  lemma UndisturbedStep(lines: seq<Line>, done: nat -> bool, i: nat)
    requires WellFormed(lines) && i < |lines| && Undisturbed(lines, done, i)
    ensures var stops := lines[i].BadHeader? || (done(i) && Unclaimed(Scanned(lines[..i]).cur, lines[i]));
            Undisturbed(lines, done, i + 1) == !stops && EndsCall(lines, done, i) == stops
  {
    CheckedIsUnclaimed(lines, i);
    assert Undisturbed(lines, done, i + 1) <==> !Stops(lines, done, i) by {
      if !Stops(lines, done, i) {
        forall k | 0 <= k < i + 1 ensures !Stops(lines, done, k) {
        }
      }
    }
  }

  /** The scanning loop; `done(i)` tells whether the context is done when line i is read, `end` where it stopped. */
  method ScanLines(lines: seq<Line>, done: nat -> bool) returns (end: nat, s: Scan)
    requires WellFormed(lines)
    ensures end <= |lines| && Undisturbed(lines, done, end)
    ensures end < |lines| ==> EndsCall(lines, done, end)
    ensures end == |lines| ==> s == Scanned(lines)
  {
    var devs, cur, ids := [], BLANK, {};
    var i := 0;
    while i < |lines|
      invariant 0 <= i <= |lines|
      invariant Scan(cur, devs, ids) == Scanned(lines[..i])
      invariant Undisturbed(lines, done, i)
    {
      var l := lines[i];
      assert lines[..i + 1][..i] == lines[..i];
      UndisturbedStep(lines, done, i);
      if l.BadHeader? {
        return i, Scan(cur, devs, ids);
      } else if l.Header? {
        if cur.id != "" {
          devs := devs + [cur];
          ids := ids + {cur.id};
        }
        cur := Device(l.id, l.name, None, "", []);
      } else if l.Modules? {
        devs := devs + [cur.(modules := l.modules)];
        cur := BLANK;
      } else if !Unclaimed(cur, l) {
        cur := Absorb(cur, l);
      } else if done(i) {
        return i, Scan(cur, devs, ids);
      }
      i := i + 1;
    }
    assert lines[..i] == lines;
    return i, Scan(cur, devs, ids);
  }

  /**
    parseLspciVVV on every input: the error of the first line that ends the call, else the error of the scanner, else
    the devices that the blocks say, filtered by name.
   */
  method ParseLspci(lines: seq<Line>, end: ScanEnd, done: nat -> bool, nameMatch: Option<string -> bool>)
    returns (r: Outcome)
    requires WellFormed(lines)
    ensures r.InvalidHeader? <==> exists i :: 0 <= i < |lines| && EndsCall(lines, done, i) && lines[i].BadHeader?
    ensures r.Cancelled? <==> exists i :: 0 <= i < |lines| && EndsCall(lines, done, i) && !lines[i].BadHeader?
    ensures r.ScanFailed? <==> Undisturbed(lines, done, |lines|) && end.Failed?
    ensures r.Parsed? ==> r.devices == Filter(AllDevices(Preamble(lines), Blocks(lines)), nameMatch)
  {
    var stop, s := ScanLines(lines, done);
    if stop < |lines| {
      forall i | 0 <= i < |lines| && EndsCall(lines, done, i) ensures i == stop {
        EndsOnce(lines, done, i, stop);
      }
      return if lines[stop].BadHeader? then InvalidHeader else Cancelled;
    }
    if end.Failed? {
      return ScanFailed;
    }
    var devs := s.devs;
    if s.cur.id != "" && s.cur.id !in s.ids {
      devs := devs + [s.cur];
    }
    ScanTracksBlocks(lines);
    TracksEnd(lines, s.cur, s.devs, s.ids);
    var filtered := FilterByName(devs, nameMatch);
    r := Parsed(filtered);
  }

  /** A device is kept exactly if there is no matcher or its name matches ... */
  lemma FilterOne(d: Device, nameMatch: Option<string -> bool>)
    ensures Filter([d], nameMatch) == if nameMatch.None? || nameMatch.value(d.name) then [d] else []
  {
    assert [d][..0] == [];
  }

  /** ... and the kept ones keep their order. */
  lemma {:induction false} FilterSplits(a: seq<Device>, b: seq<Device>, nameMatch: Option<string -> bool>)
    ensures Filter(a + b, nameMatch) == Filter(a, nameMatch) + Filter(b, nameMatch)
  {
    if b == [] {
      assert a + b == a;
    } else {
      var n := |b| - 1;
      FilterSplits(a, b[..n], nameMatch);
      assert (a + b)[..|a + b| - 1] == a + b[..n];
    }
  }

  method FilterByName(devs: seq<Device>, nameMatch: Option<string -> bool>) returns (filtered: seq<Device>)
    ensures filtered == Filter(devs, nameMatch)
  {
    filtered := [];
    for i := 0 to |devs|
      invariant filtered == Filter(devs[..i], nameMatch)
    {
      assert devs[..i + 1][..i] == devs[..i];
      if nameMatch.Some? && !nameMatch.value(devs[i].name) {
        continue;
      }
      filtered := filtered + [devs[i]];
    }
    assert devs[..|devs|] == devs;
  }

  // ---- one device per header ----

  /** At most one modules line. */
  predicate Modest(body: seq<Line>) {
    forall i, j :: 0 <= i < j < |body| ==> !(body[i].Modules? && body[j].Modules?)
  }

  /** What an input must look like for one device per header. */
  predicate Orderly(preamble: seq<Line>, blocks: seq<Block>) {
    NoModules(preamble) && (forall k :: 0 <= k < |blocks| ==> Modest(blocks[k].body)) && !Dropped(blocks)
  }

  lemma {:induction false} UpToModulesIs(body: seq<Line>, n: nat)
    requires n <= |body| && NoModules(body[..n]) && (n < |body| ==> body[n].Modules?)
    ensures UpToModules(body) == body[..n]
  {
    if n > 0 {
      assert body[0] == body[..n][0];
      assert body[1..][..n - 1] == body[..n][1..];
      UpToModulesIs(body[1..], n - 1);
    }
  }

  /** Without modules line nothing is closed. */
  lemma {:induction false} NothingClosed(id: string, name: string, body: seq<Line>)
    requires NoModules(body)
    ensures Closed(id, name, body) == []
  {
    if body != [] {
      NothingClosed(id, name, body[..|body| - 1]);
    }
  }

  lemma DeviceOfExtended(b: Block, l: Line)
    requires !NoModules(b.body)
    ensures DeviceOf(Extend(b, l)) == DeviceOf(b)
  {
    var r := UpToModules(b.body);
    var body := b.body + [l];
    assert |r| < |b.body|;
    assert body[..|r|] == r && body[|r|] == b.body[|r|];
    UpToModulesIs(body, |r|);
  }

  lemma DeviceOfClosed(b: Block, l: Line)
    requires NoModules(b.body) && l.Modules?
    ensures DeviceOf(Extend(b, l)) == Build(b.id, b.name, b.body).(modules := l.modules)
  {
    var body := b.body + [l];
    assert body[..|b.body|] == b.body && body[|b.body|] == l;
    UpToModulesIs(body, |b.body|);
  }

  /** A block with one modules line closes its device, and only that. */
  lemma {:induction false} OneClosed(b: Block)
    requires Modest(b.body) && !NoModules(b.body)
    ensures Closed(b.id, b.name, b.body) == [DeviceOf(b)]
    decreases |b.body|
  {
    var n := |b.body| - 1;
    var rest, l := b.(body := b.body[..n]), b.body[n];
    assert Extend(rest, l) == b;
    NoModulesSnoc(rest.body, l);
    if l.Modules? {
      assert NoModules(rest.body);
      NothingClosed(b.id, b.name, rest.body);
      OpenCloses(b.id, b.name, rest.body, l);
      DeviceOfClosed(rest, l);
    } else {
      OneClosed(rest);
      OpenAbsorbs(b.id, b.name, rest.body, l);
      DeviceOfExtended(rest, l);
    }
  }

  lemma OneKept(b: Block)
    requires Modest(b.body)
    ensures Kept(b) == [DeviceOf(b)]
  {
    if NoModules(b.body) {
      NothingClosed(b.id, b.name, b.body);
      UpToModulesIs(b.body, |b.body|);
      assert b.body[..|b.body|] == b.body;
    } else {
      OneClosed(b);
    }
  }

  lemma DevicesOfSnoc(blocks: seq<Block>)
    requires blocks != []
    ensures DevicesOf(blocks) == DevicesOf(blocks[..|blocks| - 1]) + [DeviceOf(blocks[|blocks| - 1])]
  {}

  lemma {:induction false} AllKeptOne(blocks: seq<Block>)
    requires forall k :: 0 <= k < |blocks| ==> Modest(blocks[k].body)
    ensures AllKept(blocks) == DevicesOf(blocks)
  {
    if blocks != [] {
      AllKeptOne(blocks[..|blocks| - 1]);
      OneKept(blocks[|blocks| - 1]);
      DevicesOfSnoc(blocks);
    }
  }

  predicate HasNameless(devs: seq<Device>) {
    exists k :: 0 <= k < |devs| && devs[k].id == ""
  }

  /** A modules line before the first header emits a nameless device. */
  lemma {:induction false} PreambleEmits(preamble: seq<Line>)
    requires !NoModules(preamble)
    ensures HasNameless(Closed("", "", preamble))
  {
    var n := |preamble| - 1;
    var rest, l := preamble[..n], preamble[n];
    assert preamble == rest + [l];
    if l.Modules? {
      OpenCloses("", "", rest, l);
      var devs := Closed("", "", preamble);
      assert devs[|devs| - 1].id == "";
    } else {
      NoModulesSnoc(rest, l);
      PreambleEmits(rest);
      OpenAbsorbs("", "", rest, l);
    }
  }

  /** So does a second modules line in a block. */
  lemma {:induction false} SecondEmits(id: string, name: string, body: seq<Line>)
    requires !Modest(body)
    ensures HasNameless(Closed(id, name, body))
  {
    var n := |body| - 1;
    var rest, l := body[..n], body[n];
    assert body == rest + [l];
    if Modest(rest) {
      assert l.Modules? && !NoModules(rest);
      OpenCloses(id, name, rest, l);
      var devs := Closed(id, name, body);
      assert devs[|devs| - 1].id == "";
    } else {
      SecondEmits(id, name, rest);
      NamelessStays(Closed(id, name, rest), if l.Modules? then [Open(id, name, rest).(modules := l.modules)] else []);
    }
  }

  lemma NamelessStays(a: seq<Device>, b: seq<Device>)
    requires HasNameless(a) || HasNameless(b)
    ensures HasNameless(a + b)
  {
    if HasNameless(a) {
      var k :| 0 <= k < |a| && a[k].id == "";
      assert (a + b)[k].id == "";
    } else {
      var k :| 0 <= k < |b| && b[k].id == "";
      assert (a + b)[|a| + k].id == "";
    }
  }

  lemma {:induction false} KeptEmits(blocks: seq<Block>, k: nat)
    requires k < |blocks| && !Modest(blocks[k].body)
    ensures HasNameless(AllKept(blocks))
  {
    var n := |blocks| - 1;
    if k == n {
      var b := blocks[n];
      SecondEmits(b.id, b.name, b.body);
      NamelessStays(Closed(b.id, b.name, b.body), if NoModules(b.body) then [Build(b.id, b.name, b.body)] else []);
      NamelessStays(AllKept(blocks[..n]), Kept(b));
    } else {
      KeptEmits(blocks[..n], k);
      NamelessStays(AllKept(blocks[..n]), Kept(blocks[n]));
    }
  }

  /** The emitted devices, read as all blocks kept, except a last one that is dropped. */
  lemma AllDevicesAre(preamble: seq<Line>, blocks: seq<Block>)
    requires forall b :: b in blocks ==> b.id != ""
    ensures Closed("", "", preamble) + AllKept(blocks)
      == AllDevices(preamble, blocks) + (if Dropped(blocks) then [Current(preamble, blocks)] else [])
  {
    CurrentHasID(preamble, blocks);
    if blocks != [] {
      KeptIsClosedAndCurrent(preamble, blocks);
    }
  }

  lemma DevicesHaveIDs(blocks: seq<Block>)
    requires forall b :: b in blocks ==> b.id != ""
    ensures !HasNameless(DevicesOf(blocks))
  {
    forall k | 0 <= k < |blocks| ensures DevicesOf(blocks)[k].id != "" {
      assert blocks[k] in blocks;
    }
  }

  /**
    One device per header, in order, described by the lines of its own block up to its modules line: exactly when
    no modules line comes before the first header, no block has two, and the last block, if it has none, does not
    repeat the ID of an earlier block without one.
   */
  lemma OneDevicePerHeader(lines: seq<Line>)
    requires WellFormed(lines)
    ensures AllDevices(Preamble(lines), Blocks(lines)) == DevicesOf(Blocks(lines)) <==>
        Orderly(Preamble(lines), Blocks(lines))
  {
    BlocksHaveIDs(lines);
    BlocksOneDevice(Preamble(lines), Blocks(lines));
  }

  lemma BlocksOneDevice(preamble: seq<Line>, blocks: seq<Block>)
    requires forall b :: b in blocks ==> b.id != ""
    ensures AllDevices(preamble, blocks) == DevicesOf(blocks) <==> Orderly(preamble, blocks)
  {
    var all := AllDevices(preamble, blocks);
    var lost := if Dropped(blocks) then [Current(preamble, blocks)] else [];
    AllDevicesAre(preamble, blocks);
    if NoModules(preamble) && forall k :: 0 <= k < |blocks| ==> Modest(blocks[k].body) {
      NothingClosed("", "", preamble);
      AllKeptOne(blocks);
      assert DevicesOf(blocks) == all + lost;
      assert |all + lost| == |all| + |lost|;
    } else {
      NamelessEmitted(preamble, blocks);
      CurrentHasID(preamble, blocks);
      DevicesHaveIDs(blocks);
      assert HasNameless(all + lost);
      assert !Dropped(blocks) ==> all + lost == all;
      assert HasNameless(all);
    }
  }

  lemma NamelessEmitted(preamble: seq<Line>, blocks: seq<Block>)
    requires !NoModules(preamble) || exists k :: 0 <= k < |blocks| && !Modest(blocks[k].body)
    ensures HasNameless(Closed("", "", preamble) + AllKept(blocks))
  {
    if !NoModules(preamble) {
      PreambleEmits(preamble);
      NamelessStays(Closed("", "", preamble), AllKept(blocks));
    } else {
      var k :| 0 <= k < |blocks| && !Modest(blocks[k].body);
      KeptEmits(blocks, k);
      NamelessStays(Closed("", "", preamble), AllKept(blocks));
    }
  }

  /** Distinct header IDs rule out the dropped block. */
  lemma DistinctIDsDropNothing(blocks: seq<Block>)
    requires forall i, j :: 0 <= i < j < |blocks| ==> blocks[i].id != blocks[j].id
    ensures !Dropped(blocks)
  {
    if blocks != [] {
      var n := |blocks| - 1;
      assert forall i :: 0 <= i < n ==> blocks[..n][i].id != blocks[n].id;
    }
  }

  lemma BlocksOfHeader(before: seq<Line>, h: Line)
    requires h.Header?
    ensures Blocks(before + [h]) == Blocks(before) + [Block(h.id, h.name, [])]
    ensures Preamble(before + [h]) == Preamble(before)
  {
    assert (before + [h])[..|before|] == before && (before + [h])[|before|] == h;
  }

  lemma TwoHeaders(h: Line)
    requires h.Header?
    ensures var b := Block(h.id, h.name, []); Preamble([h, h]) == [] && Blocks([h, h]) == [b, b]
  {
    var b := Block(h.id, h.name, []);
    assert Blocks([]) == [] && Preamble([]) == [];
    BlocksOfHeader([], h);
    assert [] + [h] == [h] && [] + [b] == [b];
    BlocksOfHeader([h], h);
    assert [h] + [h] == [h, h] && [b] + [b] == [b, b];
  }

  /** Two blocks without modules lines and with one ID: the parser keeps one of them. */
  lemma RepeatedLastIsDropped(h: Line)
    requires h.Header? && h.id != ""
    ensures |AllDevices(Preamble([h, h]), Blocks([h, h]))| == 1 && |DevicesOf(Blocks([h, h]))| == 2
  {
    var b := Block(h.id, h.name, []);
    TwoHeaders(h);
    AllDevicesAre([], [b, b]);
    AllKeptOne([b, b]);
    assert [b, b][..1] == [b] && b in [b];
    assert Dropped([b, b]);
    var all, lost := AllDevices([], [b, b]), [Current([], [b, b])];
    assert |all + lost| == |all| + 1;
  }
}
