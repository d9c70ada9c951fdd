/** The component list of custom plugins (pkg/custom-plugins/spec.go): entries, expansion and validation. */
module ComponentList {
  import opened Text

  // ---- trimming ----

  /** unicode.IsSpace. */
  predicate IsSpace(c: char) {
    || '\t' <= c <= '\r' || c == ' ' || c == '\U{85}' || c == '\U{A0}' || c == '\U{1680}'
    || '\U{2000}' <= c <= '\U{200A}'
    || c == '\U{2028}' || c == '\U{2029}' || c == '\U{202F}' || c == '\U{205F}' || c == '\U{3000}'
  }

  predicate IsTrimmed(s: string) {
    s == "" || (!IsSpace(s[0]) && !IsSpace(s[|s| - 1]))
  }

  function TrimLeft(s: string): (r: string)
    ensures |r| <= |s| && r == s[|s| - |r|..] && (r == "" || !IsSpace(r[0]))
  {
    if s != "" && IsSpace(s[0]) then TrimLeft(s[1..]) else s
  }

  function TrimRight(s: string): (r: string)
    ensures r <= s && (r == "" || !IsSpace(r[|r| - 1]))
  {
    if s != "" && IsSpace(s[|s| - 1]) then TrimRight(s[..|s| - 1]) else s
  }

  /** strings.TrimSpace. */
  function Trim(s: string): (r: string)
    ensures IsTrimmed(r) && (IsTrimmed(s) ==> r == s)
    ensures forall c :: c in r ==> c in s
  {
    var t := TrimLeft(s);
    assert forall c :: c in t ==> c in s;
    TrimRight(t)
  }

  predicate AllSpaces(s: string) {
    forall i :: 0 <= i < |s| ==> IsSpace(s[i])
  }

  lemma {:induction false} TrimLeftCuts(s: string)
    ensures AllSpaces(s[..|s| - |TrimLeft(s)|])
  {
    if s != "" && IsSpace(s[0]) {
      TrimLeftCuts(s[1..]);
      var k := |s| - |TrimLeft(s)|;
      assert s[..k] == [s[0]] + s[1..][..k - 1];
    }
  }

  lemma {:induction false} TrimRightCuts(s: string)
    ensures AllSpaces(s[|TrimRight(s)|..])
  {
    if s != "" && IsSpace(s[|s| - 1]) {
      var n := |s| - 1;
      TrimRightCuts(s[..n]);
      var k := |TrimRight(s)|;
      assert s[k..] == s[..n][k..] + [s[n]];
    }
  }

  /** Trimming cuts white space off both ends and nothing else. */
  lemma TrimCutsSpaces(s: string) returns (left: string, right: string)
    ensures s == left + Trim(s) + right && AllSpaces(left) && AllSpaces(right)
  {
    left := CutLeft(s);
    right := CutRight(TrimLeft(s));
    Regrouped(left, Trim(s), right);
  }

  lemma CutLeft(s: string) returns (left: string)
    ensures s == left + TrimLeft(s) && AllSpaces(left)
  {
    TrimLeftCuts(s);
    left := s[..|s| - |TrimLeft(s)|];
  }

  lemma CutRight(s: string) returns (right: string)
    ensures s == TrimRight(s) + right && AllSpaces(right)
  {
    TrimRightCuts(s);
    right := s[|TrimRight(s)|..];
  }

  lemma Regrouped<T>(a: seq<T>, b: seq<T>, c: seq<T>)
    ensures a + (b + c) == a + b + c
  {}

  // ---- entries ----

  /** `tags` is None where Go has a nil slice. */
  datatype Entry = Entry(name: string, param: string, runMode: string, tags: Option<seq<string>>)

  /** Panicked: the slice expression for the tags runs backwards. */
  datatype ParseOutcome = Parsed(entry: Entry) | EmptyName | BadTags | Panicked

  /** strings.SplitN(s, c, 2), with None for a missing second part. */
  function Halves(s: string, c: char): (string, Option<string>) {
    match Cut(s, c)
    case None => (s, None)
    case Some((a, b)) => (a, Some(b))
  }

  function TrimAll(parts: seq<string>): (r: seq<string>)
    ensures |r| == |parts| && forall i :: 0 <= i < |r| ==> r[i] == Trim(parts[i])
  {
    seq(|parts|, i requires 0 <= i < |parts| => Trim(parts[i]))
  }

  /** The parts that are not empty. */
  function Compact(parts: seq<string>): (r: seq<string>)
    ensures forall x :: x in r <==> x in parts && x != ""
  {
    if parts == [] then []
    else
      var last := parts[|parts| - 1];
      assert forall x :: x in parts <==> x in parts[..|parts| - 1] || x == last;
      Compact(parts[..|parts| - 1]) + if last != "" then [last] else []
  }

  function TagsOf(s: string): seq<string> {
    if s == "" then [] else Compact(TrimAll(Split(s, ',')))
  }

  /** What follows '#': a run mode, and tags in brackets if there are any. */
  function ParseMode(name: string, param: string, part: string): (r: ParseOutcome) {
    if ('[' in part) != (']' in part) then BadTags
    else
      match Cut(part, '[')
      case None => Parsed(Entry(name, param, Trim(part), None))
      case Some((mode, rest)) =>
        if rest == "" then Panicked
        else Parsed(Entry(name, param, Trim(mode), Some(TagsOf(rest[..|rest| - 1]))))
  }

  /** parseComponentListEntry. */
  function ParseEntry(entry: string): (r: ParseOutcome) {
    var (namePart, param) := Halves(entry, ':');
    var (name, mode) := Halves(namePart, '#');
    var given := if param.Some? then param.value else "";
    if name == "" then EmptyName
    else if mode.None? then Parsed(Entry(name, given, "", None))
    else ParseMode(name, given, mode.value)
  }

  /** The entry as text, with a '#' part and a ':' part or without. */
  function PrintEntry(e: Entry, hash: bool, colon: bool): string {
    PrintName(e, hash) + if colon then ":" + e.param else ""
  }

  function PrintName(e: Entry, hash: bool): string {
    e.name + if hash then "#" + PrintMode(e) else ""
  }

  function PrintMode(e: Entry): string {
    e.runMode + if e.tags.Some? then "[" + Join(e.tags.value, ',') + "]" else ""
  }

  predicate TagOk(tag: string) {
    tag != "" && IsTrimmed(tag) && ',' !in tag && ':' !in tag
  }

  predicate TagsOk(tags: seq<string>) {
    forall i :: 0 <= i < |tags| ==> TagOk(tags[i])
  }

  /** The entries that can be written down. */
  predicate WellFormed(e: Entry) {
    && e.name != "" && ':' !in e.name && '#' !in e.name
    && IsTrimmed(e.runMode) && ':' !in e.runMode && '[' !in e.runMode
    && (e.tags.None? ==> ']' !in e.runMode)
    && (e.tags.Some? ==> TagsOk(e.tags.value))
  }

  lemma {:induction false} CompactKeeps(parts: seq<string>)
    requires "" !in parts
    ensures Compact(parts) == parts
  {
    if parts != [] {
      var n := |parts| - 1;
      assert parts[n] in parts;
      CompactKeeps(parts[..n]);
      assert parts == parts[..n] + [parts[n]];
    }
  }

  lemma TrimAllKeeps(tags: seq<string>)
    requires TagsOk(tags)
    ensures TrimAll(tags) == tags && "" !in tags
  {
    assert forall i :: 0 <= i < |tags| ==> TagOk(tags[i]);
  }

  lemma TagsOfParts(parts: seq<string>)
    requires parts != [] && parts[0] != "" && forall i :: 0 <= i < |parts| ==> ',' !in parts[i]
    ensures TagsOf(Join(parts, ',')) == Compact(TrimAll(parts))
  {
    SplitOfJoin(parts, ',');
    assert Join(parts, ',')[0] == parts[0][0];
  }

  lemma TagsOfJoin(tags: seq<string>)
    requires TagsOk(tags)
    ensures TagsOf(Join(tags, ',')) == tags
  {
    if tags != [] {
      assert forall i :: 0 <= i < |tags| ==> TagOk(tags[i]);
      TagsOfParts(tags);
      TrimAllKeeps(tags);
      CompactKeeps(tags);
    }
  }

  lemma {:induction false} PartsOfJoin(parts: seq<string>, c: char, x: char, i: nat)
    requires i < |parts| && x in parts[i]
    ensures x in Join(parts, c)
  {
    if i > 0 {
      PartsOfJoin(parts[1..], c, x, i - 1);
    }
  }

  lemma TrimmedPartIsTag(part: string)
    requires ',' !in part && ':' !in part
    ensures Trim(part) != "" ==> TagOk(Trim(part))
  {}

  lemma PartsMakeTags(parts: seq<string>, trimmed: seq<string>, tags: seq<string>)
    requires forall i :: 0 <= i < |parts| ==> ',' !in parts[i] && ':' !in parts[i]
    requires |trimmed| == |parts| && forall i :: 0 <= i < |parts| ==> trimmed[i] == Trim(parts[i])
    requires forall x :: x in tags ==> x in trimmed && x != ""
    ensures TagsOk(tags)
  {
    forall k | 0 <= k < |tags| ensures TagOk(tags[k]) {
      assert tags[k] in trimmed;
      var i :| 0 <= i < |trimmed| && trimmed[i] == tags[k];
      TrimmedPartIsTag(parts[i]);
    }
  }

  lemma PiecesArePlain(s: string, x: char)
    requires x !in s
    ensures forall i :: 0 <= i < |Split(s, ',')| ==> x !in Split(s, ',')[i]
  {
    var parts := Split(s, ',');
    forall i | 0 <= i < |parts| ensures x !in parts[i] {
      if x in parts[i] {
        PartsOfJoin(parts, ',', x, i);
      }
    }
  }

  lemma TagsOfMakesTags(s: string)
    requires ':' !in s
    ensures TagsOk(TagsOf(s))
  {
    if s != "" {
      var parts := Split(s, ',');
      PiecesArePlain(s, ':');
      PartsMakeTags(parts, TrimAll(parts), Compact(TrimAll(parts)));
    }
  }

  lemma ParseModeIsWellFormed(name: string, param: string, part: string)
    requires name != "" && ':' !in name && '#' !in name && ':' !in part
    ensures ParseMode(name, param, part).Parsed? ==> WellFormed(ParseMode(name, param, part).entry)
  {
    match Cut(part, '[')
    case None =>
    case Some((mode, rest)) =>
      if rest != "" {
        assert forall c :: c in rest || c in mode ==> c in part;
        TagsOfMakesTags(rest[..|rest| - 1]);
      }
  }

  /** Whatever parses is well formed. */
  lemma ParsedIsWellFormed(entry: string)
    requires ParseEntry(entry).Parsed?
    ensures WellFormed(ParseEntry(entry).entry)
  {
    var (namePart, param) := Halves(entry, ':');
    var (name, mode) := Halves(namePart, '#');
    if mode.Some? {
      assert forall c :: c in mode.value || c in name ==> c in namePart;
      ParseModeIsWellFormed(name, if param.Some? then param.value else "", mode.value);
    }
  }

  lemma ParseCutMode(name: string, param: string, part: string, mode: string, rest: string)
    requires Cut(part, '[') == Some((mode, rest)) && ']' in part && rest != ""
    ensures ParseMode(name, param, part) == Parsed(Entry(name, param, Trim(mode), Some(TagsOf(rest[..|rest| - 1]))))
  {}

  /** A bracketed part parses, whatever the brackets hold. */
  lemma ParseBracketed(name: string, param: string, mode: string, inner: string)
    requires '[' !in mode
    ensures ParseMode(name, param, mode + ("[" + inner + "]")) ==
            Parsed(Entry(name, param, Trim(mode), Some(TagsOf(inner))))
  {
    var part, rest := mode + ("[" + inner + "]"), inner + "]";
    assert part == mode + ['['] + rest;
    CutOf(mode, '[', rest);
    assert part[|part| - 1] == ']';
    assert rest[..|rest| - 1] == inner;
    ParseCutMode(name, param, part, mode, rest);
  }

  lemma ParsePrintedMode(e: Entry)
    requires WellFormed(e)
    ensures ParseMode(e.name, e.param, PrintMode(e)) == Parsed(e)
  {
    if e.tags.Some? {
      ParseBracketed(e.name, e.param, e.runMode, Join(e.tags.value, ','));
      TagsOfJoin(e.tags.value);
    } else {
      assert PrintMode(e) == e.runMode;
    }
  }

  lemma PrintedNameIsPlain(e: Entry, hash: bool)
    requires WellFormed(e)
    ensures ':' !in PrintName(e, hash)
  {
    if e.tags.Some? {
      assert forall i :: 0 <= i < |e.tags.value| ==> TagOk(e.tags.value[i]);
      JoinAvoids(e.tags.value, ',', ':');
    }
  }

  /** The halves of a printed pair. */
  lemma HalvesOf(a: string, c: char, b: string)
    requires c !in a
    ensures Halves(a, c) == (a, None)
    ensures Halves(a + ([c] + b), c) == (a, Some(b))
  {
    CutOf(a, c, b);
    assert a + ([c] + b) == a + [c] + b;
  }

  lemma HalvesOfPrint(e: Entry, hash: bool, colon: bool)
    requires WellFormed(e)
    ensures Halves(PrintEntry(e, hash, colon), ':') == (PrintName(e, hash), if colon then Some(e.param) else None)
    ensures Halves(PrintName(e, hash), '#') == (e.name, if hash then Some(PrintMode(e)) else None)
  {
    PrintedNameIsPlain(e, hash);
    HalvesOf(PrintName(e, hash), ':', e.param);
    HalvesOf(e.name, '#', PrintMode(e));
    assert e.name + "" == e.name;
    assert PrintName(e, hash) + "" == PrintName(e, hash);
  }

  lemma ParsePrinted(e: Entry, hash: bool, colon: bool)
    requires WellFormed(e)
    requires e.runMode != "" || e.tags.Some? ==> hash
    requires e.param != "" ==> colon
    ensures ParseEntry(PrintEntry(e, hash, colon)) == Parsed(e)
  {
    HalvesOfPrint(e, hash, colon);
    if hash {
      ParsePrintedMode(e);
    }
  }

  /**
    All forms of an entry, with and without a run mode part and a parameter, parse back to what printed them
    exactly when the parts are well formed; the parameter is arbitrary.
   */
  lemma ParseInvertsPrint(e: Entry, hash: bool, colon: bool)
    requires e.runMode != "" || e.tags.Some? ==> hash
    requires e.param != "" ==> colon
    ensures ParseEntry(PrintEntry(e, hash, colon)) == Parsed(e) <==> WellFormed(e)
  {
    if WellFormed(e) {
      ParsePrinted(e, hash, colon);
    } else if ParseEntry(PrintEntry(e, hash, colon)) == Parsed(e) {
      ParsedIsWellFormed(PrintEntry(e, hash, colon));
    }
  }

  /** A run-mode part with a ']' whose first '[' is its last character. */
  ghost predicate Backward(part: string) {
    ']' in part && exists before :: '[' !in before && part == before + ['[']
  }

  lemma BackwardIsCut(part: string)
    ensures Backward(part) <==> ']' in part && exists before :: Cut(part, '[') == Some((before, ""))
  {
    forall before | '[' !in before && part == before + ['['] ensures Cut(part, '[') == Some((before, "")) {
      CutOf(before, '[', "");
      assert part == before + ['['] + "";
    }
    forall before | Cut(part, '[') == Some((before, "")) ensures '[' !in before && part == before + ['['] {
      assert part == before + ['['] + "";
    }
  }

  /** When a run-mode part fails, and how. */
  lemma ModeFailsExactly(name: string, param: string, part: string)
    ensures ParseMode(name, param, part) == BadTags <==> ('[' in part) != (']' in part)
    ensures ParseMode(name, param, part) == Panicked <==> Backward(part)
    ensures ParseMode(name, param, part) != EmptyName
  {
    BackwardIsCut(part);
  }

  /**
    When an entry fails, and how, for every entry: `namePart` is what comes before the first colon, `name` and `mode`
    what comes before and after the first '#' of that.
   */
  lemma EntryFailsExactly(entry: string)
    ensures var (namePart, _) := Halves(entry, ':');
            var (name, mode) := Halves(namePart, '#');
            var r := ParseEntry(entry);
            && (r == EmptyName <==> name == "")
            && (r == BadTags <==> name != "" && mode.Some? && ('[' in mode.value) != (']' in mode.value))
            && (r == Panicked <==> name != "" && mode.Some? && Backward(mode.value))
  {
    var (namePart, param) := Halves(entry, ':');
    var (name, mode) := Halves(namePart, '#');
    if mode.Some? {
      ModeFailsExactly(name, if param.Some? then param.value else "", mode.value);
    }
  }

  /** The name is empty exactly for an entry that is empty or starts with ':' or '#'. */
  lemma NameIsEmptyExactly(entry: string)
    ensures ParseEntry(entry) == EmptyName <==> entry == "" || entry[0] == ':' || entry[0] == '#'
  {
    EntryFailsExactly(entry);
    StartsWith(entry, ':');
    StartsWith(Halves(entry, ':').0, '#');
  }

  lemma StartsWith(s: string, c: char)
    ensures var (a, _) := Halves(s, c);
            && (a == "" <==> s == "" || s[0] == c)
            && (a != "" ==> a[0] == s[0])
  {}

  /** The same for an entry given by its parts, with or without a parameter. */
  lemma PartsFailExactly(name: string, part: string, param: Option<string>)
    requires ':' !in name && '#' !in name && ':' !in part
    ensures var head := name + (['#'] + part);
            var r := ParseEntry(if param.Some? then head + ([':'] + param.value) else head);
            && (r == EmptyName <==> name == "")
            && (r == BadTags <==> name != "" && ('[' in part) != (']' in part))
            && (r == Panicked <==> name != "" && Backward(part))
  {
    var head := name + (['#'] + part);
    HalvesOf(name, '#', part);
    HalvesOf(head, ':', if param.Some? then param.value else "");
    EntryFailsExactly(if param.Some? then head + ([':'] + param.value) else head);
  }

  /** The shortest kind of entry that panics. */
  lemma BackwardBracketsPanic()
    ensures ParseEntry("a#][") == Panicked
  {
    PartsFailExactly("a", "][", None);
    assert "][" == "]" + ['['];
    assert "a#][" == "a" + (['#'] + "][");
  }

  /** parseComponentListEntry with its loop over the tags. */
  method ParseComponentListEntry(entry: string) returns (r: ParseOutcome)
    ensures r == ParseEntry(entry)
  {
    var (namePart, second) := Halves(entry, ':');
    var param := if second.Some? then second.value else "";
    var (name, mode) := Halves(namePart, '#');
    if name == "" {
      return EmptyName;
    }
    if mode.None? {
      return Parsed(Entry(name, param, "", None));
    }
    r := ParseModePart(name, param, mode.value);
  }

  method ParseModePart(name: string, param: string, part: string) returns (r: ParseOutcome)
    ensures r == ParseMode(name, param, part)
  {
    if ('[' in part) != (']' in part) {
      return BadTags;
    }
    match Cut(part, '[') {
      case None => return Parsed(Entry(name, param, Trim(part), None));
      case Some((runMode, rest)) =>
        if rest == "" {
          return Panicked;
        }
        var tags := CollectTags(rest[..|rest| - 1]);
        return Parsed(Entry(name, param, Trim(runMode), Some(tags)));
    }
  }

  method CollectTags(s: string) returns (tags: seq<string>)
    ensures tags == TagsOf(s)
  {
    tags := [];
    if s == "" {
      return;
    }
    var parts := Split(s, ',');
    for i := 0 to |parts|
      invariant tags == Compact(TrimAll(parts[..i]))
    {
      assert TrimAll(parts[..i + 1])[..i] == TrimAll(parts[..i]);
      var tag := Trim(parts[i]);
      if tag != "" {
        tags := tags + [tag];
      }
    }
    assert parts[..|parts|] == parts;
  }

  // ---- specs ----

  datatype PluginType = Init | Component | ComponentListType | OtherType(text: string)

  datatype Script = Script(contentType: string, script: string)

  datatype Step = Step(name: string, script: Option<Script>)

  /** The output parser is carried along as it is. */
  datatype Plugin = Plugin(steps: seq<Step>, parser: Option<string>)

  datatype Spec = Spec(
    name: string, kind: PluginType, deprecatedType: string, list: seq<string>, listFile: string, runMode: string,
    tags: Option<seq<string>>, plugin: Option<Plugin>, timeout: int, interval: int)

  datatype Error =
    | ListAndFile | Unreadable | EmptyFile | EmptyList | NameRequired | MissingPlugin | EntryNameEmpty | EntryBadTags
    | EntryPanicked | InvalidType | NameTooLong | StepNameRequired | MissingStep | ScriptRequired | Undecodable
      | IntervalTooShort

  datatype Result<T> = Ok(value: T) | Err(error: Error)

  /** strings.ReplaceAll for a non-empty pattern. */
  function ReplaceAll(s: string, old_: string, new_: string): string
    requires old_ != ""
    decreases |s|
  {
    if |s| < |old_| then s
    else if s[..|old_|] == old_ then new_ + ReplaceAll(s[|old_|..], old_, new_)
    else [s[0]] + ReplaceAll(s[1..], old_, new_)
  }

  /** A step without script leaves the zero step behind. */
  function Substitute(step: Step, name: string, param: string): Step {
    match step.script
    case None => Step("", None)
    case Some(s) =>
      var named := ReplaceAll(s.script, "${NAME}", name);
      Step(step.name, Some(Script(s.contentType, ReplaceAll(named, "${PAR}", param))))
  }

  function SubstituteAll(steps: seq<Step>, name: string, param: string): (r: seq<Step>)
    ensures |r| == |steps| && forall i :: 0 <= i < |r| ==> r[i] == Substitute(steps[i], name, param)
  {
    seq(|steps|, i requires 0 <= i < |steps| => Substitute(steps[i], name, param))
  }

  /** The component made from one entry of a component list. */
  function Instance(spec: Spec, plugin: Plugin, e: Entry): Spec {
    Spec(e.name, Component, "", [], "", if e.runMode == "" then spec.runMode else e.runMode,
         if e.tags.None? then spec.tags else e.tags,
         Some(Plugin(SubstituteAll(plugin.steps, e.name, e.param), plugin.parser)), spec.timeout, spec.interval)
  }

  /** ComponentName is empty exactly for a blank name: lower-casing and replacing spaces keep the length above zero. */
  predicate Nameless(name: string) {
    Trim(name) == ""
  }

  /** The lines that are neither empty nor comments. */
  function Relevant(lines: seq<string>): (entries: seq<string>)
    ensures forall x :: x in entries ==> x in lines && x != "" && x[0] != '#'
  {
    if lines == [] then []
    else
      var before, line := Relevant(lines[..|lines| - 1]), lines[|lines| - 1];
      if line == "" || line[0] == '#' then before else before + [line]
  }

  /** The lines of a component list file that count. */
  function FileEntries(lines: seq<string>): seq<string> {
    Relevant(TrimAll(lines))
  }

  /** The entries of a component list spec, from the spec or from its file; `files` holds the readable ones. */
  function EntriesOf(spec: Spec, files: map<string, string>): Result<seq<string>> {
    if spec.listFile == "" then (if spec.list == [] then Err(EmptyList) else Ok(spec.list))
    else if spec.list != [] then Err(ListAndFile)
    else if spec.listFile !in files then Err(Unreadable)
    else
      var entries := FileEntries(Split(files[spec.listFile], '\n'));
      if entries == [] then Err(EmptyFile) else Ok(entries)
  }

  function EntryError(r: ParseOutcome): Error
    requires !r.Parsed?
  {
    match r
    case EmptyName => EntryNameEmpty
    case BadTags => EntryBadTags
    case Panicked => EntryPanicked
  }

  /** The spec made from one entry of a list. */
  function InstanceOf(spec: Spec, plugin: Plugin, entry: string): Result<Spec> {
    var parsed := ParseEntry(entry);
    if parsed.Parsed? then Ok(Instance(spec, plugin, parsed.entry)) else Err(EntryError(parsed))
  }

  function Maker(spec: Spec, plugin: Plugin): string -> Result<Spec> {
    entry => InstanceOf(spec, plugin, entry)
  }

  /** What one spec becomes: itself, or one component per entry of its list. */
  function ExpandOne(spec: Spec, files: map<string, string>): Result<seq<Spec>> {
    if spec.kind != ComponentListType then Ok([spec])
    else ExpandList(spec, EntriesOf(spec, files), Nameless(spec.name))
  }

  function ExpandList(spec: Spec, entries: Result<seq<string>>, nameless: bool): Result<seq<Spec>> {
    if entries.Err? then Err(entries.error)
    else if nameless then Err(NameRequired)
    else if spec.plugin.None? then Err(MissingPlugin)
    else Traverse(Maker(spec, spec.plugin.value), entries.value)
  }

  function Expander(files: map<string, string>): Spec -> Result<seq<Spec>> {
    spec => ExpandOne(spec, files)
  }

  function Expand(specs: seq<Spec>, files: map<string, string>): Result<seq<Spec>> {
    var parts := Traverse(Expander(files), specs);
    if parts.Err? then Err(parts.error) else Ok(Flatten(parts.value))
  }

  // ---- expansion in order ----

  /** The results of f in order, or its first error. */
  function Traverse<A, B>(f: A -> Result<B>, xs: seq<A>): Result<seq<B>> {
    if xs == [] then Ok([])
    else
      var before := Traverse(f, xs[..|xs| - 1]);
      if before.Err? then before
      else
        var last := f(xs[|xs| - 1]);
        if last.Err? then Err(last.error) else Ok(before.value + [last.value])
  }

  /** It succeeds exactly when f does everywhere, and then holds f's results position by position. */
  lemma {:induction false} TraverseIsPointwise<A, B>(f: A -> Result<B>, xs: seq<A>)
    ensures Traverse(f, xs).Ok? <==> forall k :: 0 <= k < |xs| ==> f(xs[k]).Ok?
    ensures Traverse(f, xs).Ok? ==>
      |Traverse(f, xs).value| == |xs| && forall k :: 0 <= k < |xs| ==> f(xs[k]) == Ok(Traverse(f, xs).value[k])
  {
    if xs != [] {
      var n := |xs| - 1;
      TraverseIsPointwise(f, xs[..n]);
      assert forall k :: 0 <= k < n ==> xs[..n][k] == xs[k];
    }
  }

  lemma {:induction false} TraverseOfOk<A, B>(f: A -> Result<B>, xs: seq<A>, ys: seq<B>)
    requires |xs| == |ys| && forall k :: 0 <= k < |xs| ==> f(xs[k]) == Ok(ys[k])
    ensures Traverse(f, xs) == Ok(ys)
  {
    TraverseIsPointwise(f, xs);
    assert Traverse(f, xs).value == ys;
  }

  lemma {:induction false} ErrorStays<A, B>(f: A -> Result<B>, xs: seq<A>, n: nat)
    requires n <= |xs| && Traverse(f, xs[..n]).Err?
    ensures Traverse(f, xs) == Traverse(f, xs[..n])
    decreases |xs| - n
  {
    if n < |xs| {
      assert xs[..n + 1][..n] == xs[..n];
      ErrorStays(f, xs, n + 1);
    } else {
      assert xs[..n] == xs;
    }
  }

  lemma TraverseStep<A, B>(f: A -> Result<B>, xs: seq<A>, i: nat)
    requires i < |xs| && Traverse(f, xs[..i]).Ok?
    ensures f(xs[i]).Ok? ==> Traverse(f, xs[..i + 1]) == Ok(Traverse(f, xs[..i]).value + [f(xs[i]).value])
    ensures f(xs[i]).Err? ==> Traverse(f, xs) == Err(f(xs[i]).error)
  {
    assert xs[..i + 1][..i] == xs[..i];
    if f(xs[i]).Err? {
      ErrorStays(f, xs, i + 1);
    }
  }

  function Flatten<T>(parts: seq<seq<T>>): seq<T> {
    if parts == [] then [] else Flatten(parts[..|parts| - 1]) + parts[|parts| - 1]
  }

  /** Where part i starts in the flattened sequence. */
  function Offset<T>(parts: seq<seq<T>>, i: nat): nat
    requires i <= |parts|
  {
    if i == 0 then 0 else Offset(parts, i - 1) + |parts[i - 1]|
  }

  lemma {:induction false} OffsetOfPrefix<T>(parts: seq<seq<T>>, n: nat, i: nat)
    requires i <= n <= |parts|
    ensures Offset(parts[..n], i) == Offset(parts, i)
  {
    if i > 0 {
      OffsetOfPrefix(parts, n, i - 1);
    }
  }

  lemma {:induction false} FlattenLength<T>(parts: seq<seq<T>>)
    ensures |Flatten(parts)| == Offset(parts, |parts|)
  {
    if parts != [] {
      var n := |parts| - 1;
      FlattenLength(parts[..n]);
      OffsetOfPrefix(parts, n, n);
    }
  }

  lemma {:induction false} FlattenSlice<T>(parts: seq<seq<T>>, i: nat)
    requires i < |parts|
    ensures Offset(parts, i) + |parts[i]| <= |Flatten(parts)|
    ensures Flatten(parts)[Offset(parts, i)..Offset(parts, i) + |parts[i]|] == parts[i]
  {
    var n := |parts| - 1;
    OffsetOfPrefix(parts, n, if i < n then i else n);
    if i < n {
      FlattenSlice(parts[..n], i);
    } else {
      FlattenLength(parts[..n]);
    }
  }

  /** A list expands exactly when every entry parses, to one instance per entry in order. */
  lemma InstancesInOrder(spec: Spec, plugin: Plugin, entries: seq<string>)
    ensures var r := Traverse(Maker(spec, plugin), entries);
      && (r.Ok? <==> forall k :: 0 <= k < |entries| ==> InstanceOf(spec, plugin, entries[k]).Ok?)
      && (r.Ok? ==>
            && |r.value| == |entries|
            && forall k :: 0 <= k < |entries| ==> InstanceOf(spec, plugin, entries[k]) == Ok(r.value[k]))
  {
    var f := Maker(spec, plugin);
    assert forall e: string :: f(e) == InstanceOf(spec, plugin, e);
    TraverseIsPointwise(f, entries);
  }

  /** How many specs one spec becomes. */
  function Width(spec: Spec, files: map<string, string>): nat {
    if spec.kind != ComponentListType then 1
    else
      var entries := EntriesOf(spec, files);
      if entries.Ok? then |entries.value| else 0
  }

  lemma ExpandOneWidth(spec: Spec, files: map<string, string>)
    requires ExpandOne(spec, files).Ok?
    ensures |ExpandOne(spec, files).value| == Width(spec, files)
    ensures spec.kind == ComponentListType ==> EntriesOf(spec, files).Ok? && Width(spec, files) > 0
  {
    if spec.kind == ComponentListType {
      TraverseIsPointwise(Maker(spec, spec.plugin.value), EntriesOf(spec, files).value);
    }
  }

  lemma PartsOf(specs: seq<Spec>, files: map<string, string>) returns (parts: seq<seq<Spec>>)
    requires Expand(specs, files).Ok?
    ensures |parts| == |specs| && Expand(specs, files).value == Flatten(parts)
    ensures forall k :: 0 <= k < |specs| ==> ExpandOne(specs[k], files) == Ok(parts[k])
  {
    var f := Expander(files);
    parts := Traverse(f, specs).value;
    TraverseIsPointwise(f, specs);
    forall k | 0 <= k < |specs| ensures ExpandOne(specs[k], files) == Ok(parts[k]) {
      assert f(specs[k]) == ExpandOne(specs[k], files);
    }
  }

  /** Part k of a cut of `all` into consecutive parts. */
  ghost predicate HoldsAt<T>(all: seq<T>, parts: seq<seq<T>>, k: nat)
    requires k < |parts|
  {
    Offset(parts, k) + |parts[k]| <= |all| && all[Offset(parts, k)..Offset(parts, k) + |parts[k]|] == parts[k]
  }

  /**
    Expansion keeps the order and loses nothing: it is cut into consecutive parts, one per spec in order, and each
    part is the expansion of its spec, one long for an ordinary spec and one per entry for a component list.
   */
  lemma ExpansionInOrder(specs: seq<Spec>, files: map<string, string>) returns (parts: seq<seq<Spec>>)
    requires Expand(specs, files).Ok?
    ensures |parts| == |specs| && |Expand(specs, files).value| == Offset(parts, |parts|)
    ensures forall k :: 0 <= k < |parts| ==> HoldsAt(Expand(specs, files).value, parts, k)
    ensures forall k :: 0 <= k < |parts| ==> ExpandOne(specs[k], files) == Ok(parts[k])
    ensures forall k :: 0 <= k < |parts| ==> |parts[k]| == Width(specs[k], files)
  {
    parts := PartsOf(specs, files);
    FlattenLength(parts);
    forall k | 0 <= k < |parts| ensures HoldsAt(Flatten(parts), parts, k) {
      FlattenSlice(parts, k);
    }
    forall k | 0 <= k < |parts| ensures |parts[k]| == Width(specs[k], files) {
      ExpandOneWidth(specs[k], files);
    }
  }

  ghost predicate NoLists(specs: seq<Spec>) {
    forall i :: 0 <= i < |specs| ==> specs[i].kind != ComponentListType
  }

  lemma {:induction false} FlattenHasNoLists(parts: seq<seq<Spec>>)
    requires forall k :: 0 <= k < |parts| ==> NoLists(parts[k])
    ensures NoLists(Flatten(parts))
  {
    if parts != [] {
      FlattenHasNoLists(parts[..|parts| - 1]);
    }
  }

  lemma ExpandOneHasNoLists(spec: Spec, files: map<string, string>)
    requires ExpandOne(spec, files).Ok?
    ensures NoLists(ExpandOne(spec, files).value)
  {
    if spec.kind == ComponentListType {
      InstancesInOrder(spec, spec.plugin.value, EntriesOf(spec, files).value);
    }
  }

  /** No component list is left. */
  lemma ExpansionHasNoLists(specs: seq<Spec>, files: map<string, string>)
    requires Expand(specs, files).Ok?
    ensures NoLists(Expand(specs, files).value)
  {
    var parts := PartsOf(specs, files);
    forall k | 0 <= k < |parts| ensures NoLists(parts[k]) {
      ExpandOneHasNoLists(specs[k], files);
    }
    FlattenHasNoLists(parts);
  }

  lemma {:induction false} FlattenSingles<T>(xs: seq<T>, parts: seq<seq<T>>)
    requires |parts| == |xs| && forall k :: 0 <= k < |xs| ==> parts[k] == [xs[k]]
    ensures Flatten(parts) == xs
  {
    if xs != [] {
      var n := |xs| - 1;
      FlattenSingles(xs[..n], parts[..n]);
      assert xs == xs[..n] + [xs[n]];
    }
  }

  /** Specs without component list expand to themselves. */
  lemma NothingToExpand(specs: seq<Spec>, files: map<string, string>)
    requires NoLists(specs)
    ensures Expand(specs, files) == Ok(specs)
  {
    var f := Expander(files);
    var parts := seq(|specs|, k requires 0 <= k < |specs| => [specs[k]]);
    TraverseOfOk(f, specs, parts);
    FlattenSingles(specs, parts);
  }

  /** So expanding twice is expanding once, whatever the files hold the second time. */
  lemma ExpandIsIdempotent(specs: seq<Spec>, files: map<string, string>, later: map<string, string>)
    requires Expand(specs, files).Ok?
    ensures Expand(Expand(specs, files).value, later) == Expand(specs, files)
  {
    ExpansionHasNoLists(specs, files);
    NothingToExpand(Expand(specs, files).value, later);
  }

  /** ExpandComponentList with its loops. */
  method ExpandComponentList(specs: seq<Spec>, files: map<string, string>) returns (r: Result<seq<Spec>>)
    ensures r == Expand(specs, files)
  {
    var expanded := [];
    ghost var parts := [];
    for i := 0 to |specs|
      invariant Traverse(Expander(files), specs[..i]) == Ok(parts) && expanded == Flatten(parts)
    {
      var spec := specs[i];
      ghost var part := ExpandOne(spec, files);
      assert Expander(files)(spec) == part;
      TraverseStep(Expander(files), specs, i);
      assert part.Ok? ==> Flatten(parts + [part.value]) == Flatten(parts) + part.value by {
        if part.Ok? {
          assert (parts + [part.value])[..|parts|] == parts;
        }
      }
      parts := if part.Ok? then parts + [part.value] else parts;
      if spec.kind != ComponentListType {
        expanded := expanded + [spec];
        continue;
      }
      var entries := ReadEntries(spec, files);
      if entries.Err? {
        return Err(entries.error);
      }
      if Nameless(spec.name) {
        return Err(NameRequired);
      }
      if spec.plugin.None? {
        return Err(MissingPlugin);
      }
      var made := MakeInstances(spec, spec.plugin.value, entries.value);
      if made.Err? {
        return made;
      }
      expanded := expanded + made.value;
    }
    assert specs[..|specs|] == specs;
    r := Ok(expanded);
  }

  method CollectEntries(lines: seq<string>) returns (list: seq<string>)
    ensures list == FileEntries(lines)
  {
    list := [];
    for i := 0 to |lines|
      invariant list == Relevant(TrimAll(lines[..i]))
    {
      assert TrimAll(lines[..i + 1])[..i] == TrimAll(lines[..i]);
      var line := Trim(lines[i]);
      if line == "" || line[0] == '#' {
        continue;
      }
      list := list + [line];
    }
    assert lines[..|lines|] == lines;
  }

  method ReadEntries(spec: Spec, files: map<string, string>) returns (r: Result<seq<string>>)
    ensures r == EntriesOf(spec, files)
  {
    var list := spec.list;
    if spec.listFile != "" {
      if list != [] {
        return Err(ListAndFile);
      }
      if spec.listFile !in files {
        return Err(Unreadable);
      }
      list := CollectEntries(Split(files[spec.listFile], '\n'));
      if list == [] {
        return Err(EmptyFile);
      }
    }
    if list == [] {
      return Err(EmptyList);
    }
    r := Ok(list);
  }

  method MakeInstances(spec: Spec, plugin: Plugin, entries: seq<string>) returns (r: Result<seq<Spec>>)
    ensures r == Traverse(Maker(spec, plugin), entries)
  {
    var made := [];
    for i := 0 to |entries|
      invariant Traverse(Maker(spec, plugin), entries[..i]) == Ok(made)
    {
      TraverseStep(Maker(spec, plugin), entries, i);
      var parsed := ParseComponentListEntry(entries[i]);
      assert Maker(spec, plugin)(entries[i]) == InstanceOf(spec, plugin, entries[i]);
      if !parsed.Parsed? {
        return Err(EntryError(parsed));
      }
      made := made + [Instance(spec, plugin, parsed.entry)];
    }
    assert entries[..|entries|] == entries;
    r := Ok(made);
  }

  // ---- validation ----

  const MAX_NAME := 128
  const MINUTE := 60_000_000_000

  /** `decodes` says which scripts decode under their content type. */
  function CheckStep(step: Step, decodes: Script -> bool): Option<Error> {
    if step.name == "" then Some(StepNameRequired)
    else
      match step.script
      case None => Some(MissingStep)
      case Some(s) => if s.script == "" then Some(ScriptRequired) else if !decodes(s) then Some(Undecodable) else None
  }

  function CheckSteps(steps: seq<Step>, decodes: Script -> bool): Option<Error> {
    if steps == [] then None
    else
      var first := CheckStep(steps[0], decodes);
      if first.Some? then first else CheckSteps(steps[1..], decodes)
  }

  /** What is wrong with a spec, its timeout aside. */
  function Defect(kind: PluginType, name: string, plugin: Option<Plugin>, interval: int,
                  decodes: Script -> bool): Option<Error> {
    if kind != Init && kind != Component then Some(InvalidType)
    else if |name| > MAX_NAME then Some(NameTooLong)
    else if Nameless(name) then Some(NameRequired)
    else if plugin.None? then Some(MissingPlugin)
    else
      var bad := CheckSteps(plugin.value.steps, decodes);
      if bad.Some? then bad else if 0 < interval < MINUTE then Some(IntervalTooShort) else None
  }

  /** Spec.Validate: the spec with its timeout filled in, or an error; a duration is in nanoseconds. */
  function Validate(spec: Spec, decodes: Script -> bool): Result<Spec> {
    var defect := Defect(spec.kind, spec.name, spec.plugin, spec.interval, decodes);
    if defect.Some? then Err(defect.value) else Ok(if spec.timeout == 0 then spec.(timeout := MINUTE) else spec)
  }

  function Validator(decodes: Script -> bool): Spec -> Result<Spec> {
    spec => Validate(spec, decodes)
  }

  function ExpandedValidate(specs: seq<Spec>, files: map<string, string>, decodes: Script -> bool): Result<seq<Spec>> {
    var expanded := Expand(specs, files);
    if expanded.Err? then expanded else Traverse(Validator(decodes), expanded.value)
  }

  /** The loop of ExpandedValidate, which writes the timeouts of the specs it goes over. */
  method ValidateExpanded(specs: seq<Spec>, files: map<string, string>, decodes: Script -> bool)
    returns (r: Result<seq<Spec>>)
    ensures r == ExpandedValidate(specs, files, decodes)
  {
    var expanded := ExpandComponentList(specs, files);
    if expanded.Err? {
      return expanded;
    }
    var valid := [];
    for i := 0 to |expanded.value|
      invariant Traverse(Validator(decodes), expanded.value[..i]) == Ok(valid)
    {
      TraverseStep(Validator(decodes), expanded.value, i);
      var checked := Validate(expanded.value[i], decodes);
      assert Validator(decodes)(expanded.value[i]) == checked;
      if checked.Err? {
        return Err(checked.error);
      }
      valid := valid + [checked.value];
    }
    assert expanded.value[..|expanded.value|] == expanded.value;
    r := Ok(valid);
  }

  /** A valid spec changes only its timeout, and validates to itself from then on. */
  lemma ValidateSettles(spec: Spec, decodes: Script -> bool)
    requires Validate(spec, decodes).Ok?
    ensures var v := Validate(spec, decodes).value;
      && v == spec.(timeout := v.timeout) && v.timeout != 0 && v.kind != ComponentListType
      && Validate(v, decodes) == Ok(v)
  {
    ValidExactly(spec, decodes);
    ValidExactly(Validate(spec, decodes).value, decodes);
  }

  /** Expanding and validating the result of an expansion and validation changes nothing and cannot fail. */
  lemma ExpandedValidateIsIdempotent(specs: seq<Spec>, files: map<string, string>, later: map<string, string>,
                                     decodes: Script -> bool)
    requires ExpandedValidate(specs, files, decodes).Ok?
    ensures ExpandedValidate(ExpandedValidate(specs, files, decodes).value, later, decodes) ==
            ExpandedValidate(specs, files, decodes)
  {
    var f, expanded := Validator(decodes), Expand(specs, files).value;
    var r := Traverse(f, expanded).value;
    TraverseIsPointwise(f, expanded);
    forall k | 0 <= k < |r| ensures f(r[k]) == Ok(r[k]) && r[k].kind != ComponentListType {
      assert f(expanded[k]) == Validate(expanded[k], decodes);
      ValidateSettles(expanded[k], decodes);
    }
    NothingToExpand(r, later);
    TraverseOfOk(f, r, r);
  }

  // ---- what an instance is ----

  /** A script as text with places for the name and the parameter. */
  datatype Piece = Plain(text: string) | NamePlace | ParamPlace

  function Render(pieces: seq<Piece>, name: string, param: string): string {
    if pieces == [] then ""
    else
      (match pieces[0]
       case Plain(text) => text
       case NamePlace => name
       case ParamPlace => param) + Render(pieces[1..], name, param)
  }

  const NAME := "${NAME}"
  const PAR := "${PAR}"

  /** Text without '$' is copied. */
  lemma {:induction false} ReplaceCopies(text: string, rest: string, pattern: string, value: string)
    requires pattern != "" && pattern[0] == '$' && '$' !in text
    ensures ReplaceAll(text + rest, pattern, value) == text + ReplaceAll(rest, pattern, value)
  {
    if text == "" {
      assert text + rest == rest;
    } else {
      ReplaceCopies(text[1..], rest, pattern, value);
      var s := text + rest;
      assert s[1..] == text[1..] + rest && s[0] == text[0] && text == [text[0]] + text[1..];
      if |s| >= |pattern| {
        assert s[..|pattern|][0] == text[0];
      } else {
        ShortIsCopied(text[1..] + rest, pattern, value);
        ShortIsCopied(rest, pattern, value);
      }
    }
  }

  lemma ShortIsCopied(s: string, pattern: string, value: string)
    requires pattern != "" && |s| < |pattern|
    ensures ReplaceAll(s, pattern, value) == s
  {}

  lemma ReplaceHere(rest: string, pattern: string, value: string)
    requires pattern != ""
    ensures ReplaceAll(pattern + rest, pattern, value) == value + ReplaceAll(rest, pattern, value)
  {
    assert (pattern + rest)[..|pattern|] == pattern && (pattern + rest)[|pattern|..] == rest;
  }

  /** Replacing the name passes over a place for the parameter. */
  lemma ReplacePasses(rest: string, value: string)
    ensures ReplaceAll(PAR + rest, NAME, value) == PAR + ReplaceAll(rest, NAME, value)
  {
    var s, tail := PAR + rest, "{PAR}";
    assert s[1..] == tail + rest && PAR == [s[0]] + tail;
    ReplaceCopies(tail, rest, NAME, value);
    if |s| < |NAME| {
      ShortIsCopied(rest, NAME, value);
    } else {
      assert s[..|NAME|][2] == 'P' && NAME[2] == 'N';
    }
  }

  ghost predicate Simple(pieces: seq<Piece>) {
    forall i :: 0 <= i < |pieces| && pieces[i].Plain? ==> '$' !in pieces[i].text
  }

  lemma {:induction false} NamesAreFilled(pieces: seq<Piece>, name: string)
    requires Simple(pieces)
    ensures ReplaceAll(Render(pieces, NAME, PAR), NAME, name) == Render(pieces, name, PAR)
  {
    if pieces != [] {
      var rest := Render(pieces[1..], NAME, PAR);
      NamesAreFilled(pieces[1..], name);
      match pieces[0]
      case Plain(text) => ReplaceCopies(text, rest, NAME, name);
      case NamePlace => ReplaceHere(rest, NAME, name);
      case ParamPlace => ReplacePasses(rest, name);
    }
  }

  lemma {:induction false} ParamsAreFilled(pieces: seq<Piece>, name: string, param: string)
    requires Simple(pieces) && '$' !in name
    ensures ReplaceAll(Render(pieces, name, PAR), PAR, param) == Render(pieces, name, param)
  {
    if pieces != [] {
      var rest := Render(pieces[1..], name, PAR);
      ParamsAreFilled(pieces[1..], name, param);
      match pieces[0]
      case Plain(text) => ReplaceCopies(text, rest, PAR, param);
      case NamePlace => ReplaceCopies(name, rest, PAR, param);
      case ParamPlace => ReplaceHere(rest, PAR, param);
    }
  }

  /** Substitution fills the places of a script with the entry's name and parameter, and keeps all else of the step. */
  lemma ScriptsAreFilled(step: string, contentType: string, pieces: seq<Piece>, name: string, param: string)
    requires Simple(pieces) && '$' !in name
    ensures Substitute(Step(step, Some(Script(contentType, Render(pieces, NAME, PAR)))), name, param) ==
            Step(step, Some(Script(contentType, Render(pieces, name, param))))
  {
    NamesAreFilled(pieces, name);
    ParamsAreFilled(pieces, name, param);
  }

  /** An instance is a component of the entry's name; run mode and tags are the entry's own or else the list's. */
  lemma InstanceOfEntry(spec: Spec, plugin: Plugin, e: Entry)
    ensures var r := Instance(spec, plugin, e);
      && r.name == e.name && r.kind == Component && r.list == [] && r.listFile == ""
      && (e.runMode != "" ==> r.runMode == e.runMode) && (e.runMode == "" ==> r.runMode == spec.runMode)
      && (e.tags.Some? ==> r.tags == e.tags) && (e.tags.None? ==> r.tags == spec.tags)
      && r.timeout == spec.timeout && r.interval == spec.interval
      && r.plugin.Some? && r.plugin.value.parser == plugin.parser && |r.plugin.value.steps| == |plugin.steps|
      && (forall k :: 0 <= k < |plugin.steps| ==>
            r.plugin.value.steps[k] == Substitute(plugin.steps[k], e.name, e.param))
  {}

  // ---- when expansion and validation fail ----

  /** The first entry that does not parse decides the error. */
  lemma {:induction false} FirstErrorDecides<A, B>(f: A -> Result<B>, xs: seq<A>) returns (k: nat)
    requires Traverse(f, xs).Err?
    ensures k < |xs| && f(xs[k]) == Err(Traverse(f, xs).error) && forall i :: 0 <= i < k ==> f(xs[i]).Ok?
  {
    var n := |xs| - 1;
    if Traverse(f, xs[..n]).Err? {
      k := FirstErrorDecides(f, xs[..n]);
      assert forall i :: 0 <= i < n ==> xs[..n][i] == xs[i];
    } else {
      k := n;
      TraverseIsPointwise(f, xs[..n]);
      assert forall i :: 0 <= i < n ==> xs[..n][i] == xs[i];
    }
  }

  /** An entry that does not parse fails under its own error. */
  lemma EntryErrors(spec: Spec, plugin: Plugin, entry: string)
    ensures InstanceOf(spec, plugin, entry) == Err(EntryNameEmpty) <==> ParseEntry(entry) == EmptyName
    ensures InstanceOf(spec, plugin, entry) == Err(EntryBadTags) <==> ParseEntry(entry) == BadTags
    ensures InstanceOf(spec, plugin, entry) == Err(EntryPanicked) <==> ParseEntry(entry) == Panicked
  {}

  /** Which error a component list without entries gives. */
  lemma EntriesErrors(spec: Spec, files: map<string, string>)
    ensures EntriesOf(spec, files) == Err(EmptyList) <==> spec.listFile == "" && spec.list == []
    ensures EntriesOf(spec, files) == Err(ListAndFile) <==> spec.listFile != "" && spec.list != []
    ensures EntriesOf(spec, files) == Err(Unreadable) <==>
            spec.listFile != "" && spec.list == [] && spec.listFile !in files
    ensures EntriesOf(spec, files) == Err(EmptyFile) <==>
            && spec.listFile != "" && spec.list == [] && spec.listFile in files
            && FileEntries(Split(files[spec.listFile], '\n')) == []
  {}

  /** Which error an invalid spec gives: the first of these that applies. */
  lemma ValidationErrors(spec: Spec, decodes: Script -> bool)
    ensures var known, named := spec.kind == Init || spec.kind == Component, Trim(spec.name) != "";
            var r := Validate(spec, decodes);
      && (!known ==> r == Err(InvalidType))
      && (known && |spec.name| > 128 ==> r == Err(NameTooLong))
      && (known && |spec.name| <= 128 && !named ==> r == Err(NameRequired))
      && (known && |spec.name| <= 128 && named && spec.plugin.None? ==> r == Err(MissingPlugin))
      && (known && |spec.name| <= 128 && named && spec.plugin.Some? ==>
            var bad := CheckSteps(spec.plugin.value.steps, decodes);
            && (bad.Some? ==> r == Err(bad.value))
            && (bad.None? && 0 < spec.interval < 60_000_000_000 ==> r == Err(IntervalTooShort)))
  {}

  /** The first bad step decides: it lacks a name, a script, the script's text, or does not decode, in this order. */
  lemma {:induction false} FirstBadStep(steps: seq<Step>, decodes: Script -> bool) returns (k: nat)
    requires CheckSteps(steps, decodes).Some?
    ensures k < |steps| && forall i :: 0 <= i < k ==> StepOk(steps[i], decodes)
    ensures var error := CheckSteps(steps, decodes).value;
      && (steps[k].name == "" ==> error == StepNameRequired)
      && (steps[k].name != "" && steps[k].script.None? ==> error == MissingStep)
      && (steps[k].name != "" && steps[k].script.Some? && steps[k].script.value.script == "" ==>
            error == ScriptRequired)
      && (steps[k].name != "" && steps[k].script.Some? && steps[k].script.value.script != "" ==>
            error == Undecodable && !decodes(steps[k].script.value))
  {
    if CheckStep(steps[0], decodes).Some? {
      k := 0;
    } else {
      var rest := FirstBadStep(steps[1..], decodes);
      k := rest + 1;
      forall i | 0 <= i < k ensures StepOk(steps[i], decodes) {
        assert i > 0 ==> steps[i] == steps[1..][i - 1];
      }
    }
  }

  ghost predicate StepOk(step: Step, decodes: Script -> bool) {
    step.name != "" && step.script.Some? && step.script.value.script != "" && decodes(step.script.value)
  }

  lemma {:induction false} StepsOkExactly(steps: seq<Step>, decodes: Script -> bool)
    ensures CheckSteps(steps, decodes).None? <==> forall k :: 0 <= k < |steps| ==> StepOk(steps[k], decodes)
  {
    if steps != [] {
      StepsOkExactly(steps[1..], decodes);
      assert steps == [steps[0]] + steps[1..];
      if forall k :: 0 <= k < |steps| ==> StepOk(steps[k], decodes) {
        assert StepOk(steps[0], decodes);
        forall k | 0 <= k < |steps[1..]| ensures StepOk(steps[1..][k], decodes) {
          assert StepOk(steps[k + 1], decodes);
        }
      } else {
        var k :| 0 <= k < |steps| && !StepOk(steps[k], decodes);
        assert k > 0 ==> !StepOk(steps[1..][k - 1], decodes);
      }
    }
  }

  /** A spec is valid exactly if all of this holds, and then only its timeout may be filled in, with a minute. */
  lemma ValidExactly(spec: Spec, decodes: Script -> bool)
    ensures Validate(spec, decodes).Ok? <==>
            && (spec.kind == Init || spec.kind == Component)
            && |spec.name| <= 128 && Trim(spec.name) != "" && spec.plugin.Some?
            && (forall k :: 0 <= k < |spec.plugin.value.steps| ==> StepOk(spec.plugin.value.steps[k], decodes))
            && !(0 < spec.interval < 60_000_000_000)
    ensures Validate(spec, decodes).Ok? ==>
            Validate(spec, decodes).value == if spec.timeout == 0 then spec.(timeout := 60_000_000_000) else spec
  {
    if spec.plugin.Some? {
      StepsOkExactly(spec.plugin.value.steps, decodes);
    }
  }

  /** The entries come from the list or from the file, not both, and there is at least one. */
  lemma EntriesExactly(spec: Spec, files: map<string, string>)
    ensures EntriesOf(spec, files).Ok? <==>
            || (spec.listFile == "" && spec.list != [])
            || (&& spec.listFile != "" && spec.list == [] && spec.listFile in files
                && FileEntries(Split(files[spec.listFile], '\n')) != [])
    ensures EntriesOf(spec, files).Ok? ==>
            EntriesOf(spec, files).value ==
            if spec.listFile == "" then spec.list else FileEntries(Split(files[spec.listFile], '\n'))
  {}

  /** The entries of a file are its trimmed lines that are neither empty nor comments. */
  lemma {:induction false} RelevantExactly(lines: seq<string>, x: string)
    ensures x in Relevant(lines) <==> x in lines && x != "" && x[0] != '#'
  {
    if lines != [] {
      RelevantExactly(lines[..|lines| - 1], x);
      assert lines == lines[..|lines| - 1] + [lines[|lines| - 1]];
    }
  }

  /** A component list expands exactly if it has entries, a name and a plugin, and every entry parses. */
  lemma ExpandsExactly(spec: Spec, files: map<string, string>)
    ensures ExpandOne(spec, files).Ok? <==>
            || spec.kind != ComponentListType
            || (&& EntriesOf(spec, files).Ok? && Trim(spec.name) != "" && spec.plugin.Some?
                && forall k :: 0 <= k < |EntriesOf(spec, files).value| ==>
                  ParseEntry(EntriesOf(spec, files).value[k]).Parsed?)
  {
    if spec.kind == ComponentListType {
      ListExpands(spec, EntriesOf(spec, files), Nameless(spec.name));
    }
  }

  lemma ListExpands(spec: Spec, entries: Result<seq<string>>, nameless: bool)
    ensures ExpandList(spec, entries, nameless).Ok? <==>
            && entries.Ok? && !nameless && spec.plugin.Some?
            && forall k :: 0 <= k < |entries.value| ==> ParseEntry(entries.value[k]).Parsed?
  {
    if entries.Ok? && spec.plugin.Some? {
      InstancesExactly(spec, spec.plugin.value, entries.value);
    }
  }

  lemma InstancesExactly(spec: Spec, plugin: Plugin, entries: seq<string>)
    ensures Traverse(Maker(spec, plugin), entries).Ok? <==>
            forall k :: 0 <= k < |entries| ==> ParseEntry(entries[k]).Parsed?
  {
    var f := Maker(spec, plugin);
    forall k | 0 <= k < |entries| ensures f(entries[k]).Ok? <==> ParseEntry(entries[k]).Parsed? {
      assert f(entries[k]) == InstanceOf(spec, plugin, entries[k]);
    }
    TraverseIsPointwise(f, entries);
  }
}
