/** Kernel log lines: parseLine and the readers (pkg/kmsg/watcher.go) and the deduper (pkg/kmsg/deduper.go). */
module Kmsg {
  import opened Text
  import opened EventStore

  datatype Message = Message(timestamp: int, priority: int, sequence: int, text: string)

  datatype ParseError = NoSemicolon | TooFewFields | BadPriority | BadSequence | BadTimestamp

  datatype ParseResult = Ok(message: Message) | Err(error: ParseError)

  function ParseFields(boot: int, fields: seq<string>, text: string): (r: ParseResult) {
    if |fields| < 3 then Err(TooFewFields) else
    var priority, sequence, timestamp := ParseInt64(fields[0]), ParseInt64(fields[1]), ParseInt64(fields[2]);
    if priority.None? then Err(BadPriority)
    else if sequence.None? then Err(BadSequence)
    else if timestamp.None? then Err(BadTimestamp)
    else Ok(Message(boot + Wrap64(timestamp.value * 1000), priority.value, sequence.value, text))
  }

  /** parseLine; times are nanoseconds, the line's timestamp is in microseconds since boot. */
  function ParseLine(boot: int, line: string): (r: ParseResult) {
    match Cut(line, ';')
    case None => Err(NoSemicolon)
    case Some((metadata, text)) => ParseFields(boot, Split(metadata, ','), text)
  }

  /** PRIORITY,SEQUENCE_NUM,TIMESTAMP[,FIELD...];MESSAGE */
  function PrintLine(priority: int, sequence: int, microseconds: int, extra: seq<string>, text: string): string {
    Join([Decimal(priority), Decimal(sequence), Decimal(microseconds)] + extra, ',') + [';'] + text
  }

  lemma DecimalIsPlain(n: int)
    ensures ',' !in Decimal(n) && ';' !in Decimal(n)
  {
    var d := Digits(if n < 0 then -n else n);
    assert forall i :: 0 <= i < |d| ==> IsDigit(d[i]);
  }

  lemma ParseFieldsOfDecimals(boot: int, priority: int, sequence: int, microseconds: int, fields: seq<string>,
                              text: string)
    requires FitsInt64(priority) && FitsInt64(sequence) && FitsInt64(microseconds)
    requires |fields| >= 3 && fields[0] == Decimal(priority) && fields[1] == Decimal(sequence)
        && fields[2] == Decimal(microseconds)
    ensures ParseFields(boot, fields, text) == Ok(Message(boot + Wrap64(microseconds * 1000), priority, sequence, text))
  {
    ParseInt64OfDecimal(priority);
    ParseInt64OfDecimal(sequence);
    ParseInt64OfDecimal(microseconds);
  }

  lemma FieldsOfPrint(priority: int, sequence: int, microseconds: int, extra: seq<string>, text: string)
    returns (parts: seq<string>)
    requires forall i :: 0 <= i < |extra| ==> ',' !in extra[i] && ';' !in extra[i]
    ensures parts == [Decimal(priority), Decimal(sequence), Decimal(microseconds)] + extra
    ensures Cut(PrintLine(priority, sequence, microseconds, extra, text), ';') == Some((Join(parts, ','), text))
    ensures Split(Join(parts, ','), ',') == parts
  {
    parts := [Decimal(priority), Decimal(sequence), Decimal(microseconds)] + extra;
    DecimalIsPlain(priority);
    DecimalIsPlain(sequence);
    DecimalIsPlain(microseconds);
    JoinAvoids(parts, ',', ';');
    CutOf(Join(parts, ','), ';', text);
    SplitOfJoin(parts, ',');
  }

  /**
    Parsing recovers what was printed, whatever the message text holds. The timestamp is boot time plus the
    printed offset exactly when the offset in nanoseconds fits 64 bits.
   */
  lemma ParseInvertsPrint(boot: int, priority: int, sequence: int, microseconds: int, extra: seq<string>, text: string)
    requires FitsInt64(priority) && FitsInt64(sequence) && FitsInt64(microseconds)
    requires forall i :: 0 <= i < |extra| ==> ',' !in extra[i] && ';' !in extra[i]
    ensures var r := ParseLine(boot, PrintLine(priority, sequence, microseconds, extra, text));
            && r == Ok(Message(boot + Wrap64(microseconds * 1000), priority, sequence, text))
            && (r.message.timestamp == boot + microseconds * 1000 <==> FitsInt64(microseconds * 1000))
  {
    var parts := FieldsOfPrint(priority, sequence, microseconds, extra, text);
    ParseFieldsOfDecimals(boot, priority, sequence, microseconds, parts, text);
  }

  lemma {:induction false} SplitCounts(s: string, c: char)
    ensures |Split(s, c)| == multiset(s)[c] + 1
    decreases |s|
  {
    match Cut(s, c)
    case None =>
    case Some((head, tail)) =>
      SplitCounts(tail, c);
      assert multiset(s) == multiset(head) + multiset{c} + multiset(tail);
  }

  /** A line is rejected for its shape exactly when it has no semicolon, or fewer than two commas before the first. */
  lemma RejectsMalformed(boot: int, metadata: string, text: string)
    requires ';' !in metadata
    ensures ParseLine(boot, metadata) == Err(NoSemicolon)
    ensures ParseLine(boot, metadata + [';'] + text) == Err(TooFewFields) <==> multiset(metadata)[','] < 2
    ensures ParseLine(boot, metadata + [';'] + text) != Err(NoSemicolon)
  {
    CutOf(metadata, ';', text);
    SplitCounts(metadata, ',');
  }

  // ---- the deduper ----

  function CacheKey(m: Message): string {
    Decimal(Unix(m.timestamp)) + "-" + m.text
  }

  function Signed(negative: bool, digits: string): string {
    if negative then "-" + digits else digits
  }

  lemma UnsignedKey(negative: bool, digits: string, x: string)
    ensures var key := Signed(negative, digits) + ['-'] + x;
      |key| > 0 && (if negative then key[1..] else key) == digits + ['-'] + x
  {
  }

  lemma SignedKeyInjective(n: bool, s: string, x: string, m: bool, t: string, y: string)
    requires s != [] && t != [] && AllDigits(s) && AllDigits(t)
    requires Signed(n, s) + ['-'] + x == Signed(m, t) + ['-'] + y
    ensures n == m && s == t && x == y
  {
    var u := Signed(n, s) + ['-'] + x;
    assert IsDigit(s[0]) && IsDigit(t[0]);
    assert (u[0] == '-' <==> n) && (u[0] == '-' <==> m);
    assert '-' !in s && '-' !in t;
    UnsignedKey(n, s, x);
    UnsignedKey(n, t, y);
    CutIsUnique(s, t, '-', x, y);
  }

  lemma KeyInjective(a: int, b: int, x: string, y: string)
    requires Decimal(a) + "-" + x == Decimal(b) + "-" + y
    ensures a == b && x == y
  {
    var s, t := Digits(if a < 0 then -a else a), Digits(if b < 0 then -b else b);
    assert Decimal(a) == Signed(a < 0, s) && Decimal(b) == Signed(b < 0, t);
    SignedKeyInjective(a < 0, s, x, b < 0, t, y);
    assert DigitsValue(s) == DigitsValue(t);
  }

  /** The cache key separates messages: it is equal exactly for the same second and the same text. */
  lemma CacheKeyInjective(a: Message, b: Message)
    ensures CacheKey(a) == CacheKey(b) <==> SameSecondAndText(a, b)
  {
    if CacheKey(a) == CacheKey(b) {
      KeyInjective(Unix(a.timestamp), Unix(b.timestamp), a.text, b.text);
    }
  }

  /** One call of addCache: the key it looked up and the clock, in nanoseconds. */
  datatype Call = Call(key: string, now: nat)

  /** A cached count; 0 means it never expires. */
  datatype Entry = Entry(frequency: nat, expires: int)

  /** The cache forgets a key whose last lookup is longer ago than a positive expiration. */
  predicate Quiet(expiration: int, earlier: nat, now: nat) {
    expiration > 0 && now - earlier > expiration
  }

  /** The last call with the key. */
  function Last(calls: seq<Call>, key: string): (r: Option<nat>)
    ensures r.Some? ==> r.value < |calls| && calls[r.value].key == key
    ensures r.Some? ==> forall i :: r.value < i < |calls| ==> calls[i].key != key
    ensures r.None? ==> forall i :: 0 <= i < |calls| ==> calls[i].key != key
  {
    if calls == [] then None
    else if calls[|calls| - 1].key == key then Some(|calls| - 1)
    else Last(calls[..|calls| - 1], key)
  }

  /** What addCache returns for the last call. */
  function Frequency(calls: seq<Call>, expiration: int): (f: nat)
    requires calls != []
    ensures f >= 1
    decreases |calls|
  {
    var n := |calls| - 1;
    match Last(calls[..n], calls[n].key)
    case None => 1
    case Some(p) => if Quiet(expiration, calls[p].now, calls[n].now) then 1
        else Frequency(calls[..p + 1], expiration) + 1
  }

  /** The entry that a lookup at `now` leaves. */
  function Renewed(frequency: nat, expiration: int, now: nat): Entry {
    Entry(frequency, if expiration > 0 then now + expiration else 0)
  }

  /** What the cache holds for a key after the calls, expired or not. */
  function EntryFor(calls: seq<Call>, expiration: int, key: string): Option<Entry> {
    match Last(calls, key)
    case None => None
    case Some(p) => Some(Renewed(Frequency(calls[..p + 1], expiration), expiration, calls[p].now))
  }

  lemma EntryAfterCall(calls: seq<Call>, expiration: int, c: Call, key: string)
    ensures EntryFor(calls + [c], expiration, key) ==
            if key != c.key then EntryFor(calls, expiration, key)
            else Some(Renewed(Frequency(calls + [c], expiration), expiration, c.now))
  {
    var after := calls + [c];
    assert after[..|after| - 1] == calls && after[..|after|] == after;
    if key != c.key && Last(calls, key).Some? {
      var p := Last(calls, key).value;
      assert after[..p + 1] == calls[..p + 1];
    }
  }

  lemma FrequencyFromEntry(calls: seq<Call>, expiration: int, c: Call)
    ensures Frequency(calls + [c], expiration) ==
            match EntryFor(calls, expiration, c.key)
            case None => 1
            case Some(e) => if e.expires == 0 || c.now <= e.expires then e.frequency + 1 else 1
  {
    var after := calls + [c];
    assert after[..|after| - 1] == calls;
    if Last(calls, c.key).Some? {
      var p := Last(calls, c.key).value;
      assert after[..p + 1] == calls[..p + 1];
    }
  }

  /** The cache holds for the key what the calls leave. */
  ghost predicate CachesKey(cache: map<string, Entry>, calls: seq<Call>, expiration: int, k: string) {
    EntryFor(calls, expiration, k) == if k in cache then Some(cache[k]) else None
  }

  ghost predicate Caches(cache: map<string, Entry>, calls: seq<Call>, expiration: int) {
    forall k :: CachesKey(cache, calls, expiration, k)
  }

  lemma CachesAfterCall(cache: map<string, Entry>, calls: seq<Call>, expiration: int, c: Call)
    requires Caches(cache, calls, expiration)
    ensures Caches(cache[c.key := Renewed(Frequency(calls + [c], expiration), expiration, c.now)],
                   calls + [c], expiration)
  {
    var after := cache[c.key := Renewed(Frequency(calls + [c], expiration), expiration, c.now)];
    forall key ensures CachesKey(after, calls + [c], expiration, key) {
      assert CachesKey(cache, calls, expiration, key);
      EntryAfterCall(calls, expiration, c, key);
    }
  }

  lemma HitOrMiss(cache: map<string, Entry>, calls: seq<Call>, expiration: int, c: Call)
    requires Caches(cache, calls, expiration)
    ensures Frequency(calls + [c], expiration) ==
            if c.key in cache && (cache[c.key].expires == 0 || c.now <= cache[c.key].expires)
            then cache[c.key].frequency + 1 else 1
  {
    assert CachesKey(cache, calls, expiration, c.key);
    FrequencyFromEntry(calls, expiration, c);
  }

  /** What a lookup of the key returns. */
  function Hit(cache: map<string, Entry>, k: string, now: nat): nat {
    if k in cache && (cache[k].expires == 0 || now <= cache[k].expires) then cache[k].frequency + 1 else 1
  }

  /** The cache after the calls. */
  function CacheOf(calls: seq<Call>, expiration: int): map<string, Entry> {
    if calls == [] then map[] else After(CacheOf(calls[..|calls| - 1], expiration), expiration, calls[|calls| - 1])
  }

  function After(cache: map<string, Entry>, expiration: int, c: Call): map<string, Entry> {
    cache[c.key := Renewed(Hit(cache, c.key, c.now), expiration, c.now)]
  }

  lemma CacheOfAppend(calls: seq<Call>, expiration: int, c: Call)
    ensures CacheOf(calls + [c], expiration) == After(CacheOf(calls, expiration), expiration, c)
  {
    assert (calls + [c])[..|calls|] == calls;
  }

  lemma CachesStep(cache: map<string, Entry>, calls: seq<Call>, expiration: int, c: Call)
    requires Caches(cache, calls, expiration)
    ensures Caches(After(cache, expiration, c), calls + [c], expiration)
  {
    HitOrMiss(cache, calls, expiration, c);
    CachesAfterCall(cache, calls, expiration, c);
  }

  lemma {:induction false} CacheOfIsExact(calls: seq<Call>, expiration: int)
    ensures Caches(CacheOf(calls, expiration), calls, expiration)
  {
    if calls != [] {
      var n := |calls| - 1;
      CacheOfIsExact(calls[..n], expiration);
      CachesStep(CacheOf(calls[..n], expiration), calls[..n], expiration, calls[n]);
      assert calls == calls[..n] + [calls[n]];
    }
  }

  lemma HitIsFrequency(calls: seq<Call>, expiration: int, k: string, now: nat)
    ensures Hit(CacheOf(calls, expiration), k, now) == Frequency(calls + [Call(k, now)], expiration)
  {
    CacheOfIsExact(calls, expiration);
    HitOrMiss(CacheOf(calls, expiration), calls, expiration, Call(k, now));
  }

  class Deduper {
    const expiration: int
    var cache: map<string, Entry>
    ghost var calls: seq<Call>

    ghost predicate Valid()
      reads this
    {
      cache == CacheOf(calls, expiration)
    }

    constructor (expiration: int)
      ensures Valid() && calls == [] && this.expiration == expiration
    {
      this.expiration := expiration;
      cache := map[];
      calls := [];
    }

    method AddCache(m: Message, now: nat) returns (frequency: nat)
      requires Valid()
      modifies this
      ensures Valid() && calls == old(calls) + [Call(CacheKey(m), now)]
      ensures frequency == Frequency(calls, expiration)
    {
      frequency := Renew(CacheKey(m), now);
    }

    /** Looks up a key and renews its entry. */
    method Renew(k: string, now: nat) returns (frequency: nat)
      requires Valid()
      modifies this
      ensures Valid() && calls == old(calls) + [Call(k, now)]
      ensures frequency == Frequency(calls, expiration)
    {
      HitIsFrequency(calls, expiration, k, now);
      CacheOfAppend(calls, expiration, Call(k, now));
      if k in cache && (cache[k].expires == 0 || now <= cache[k].expires) {
        frequency := cache[k].frequency + 1;
      } else {
        frequency := 1;
      }
      cache := cache[k := Renewed(frequency, expiration, now)];
      calls := calls + [Call(k, now)];
    }
  }

  // ---- what a frequency means ----

  /** Calls a < b look up the same key and no call between them does. */
  ghost predicate Adjacent(calls: seq<Call>, a: nat, b: nat) {
    && a < b < |calls|
    && calls[a].key == calls[b].key
    && forall c :: a < c < b ==> calls[c].key != calls[b].key
  }

  /** From call j to call i the key was never left alone for longer than the expiration. */
  ghost predicate Unbroken(calls: seq<Call>, expiration: int, j: nat, i: nat)
    requires i < |calls|
  {
    forall a, b :: j <= a < b <= i && Adjacent(calls, a, b) && calls[b].key == calls[i].key ==>
      !Quiet(expiration, calls[a].now, calls[b].now)
  }

  ghost function Streak(calls: seq<Call>, expiration: int, i: nat): set<nat>
    requires i < |calls|
  {
    set j: nat | j < i && calls[j].key == calls[i].key && Unbroken(calls, expiration, j, i)
  }

  lemma StreakStep(calls: seq<Call>, expiration: int, i: nat, p: nat)
    requires Adjacent(calls, p, i)
    ensures Streak(calls, expiration, i) ==
            if Quiet(expiration, calls[p].now, calls[i].now) then {} else Streak(calls, expiration, p) + {p}
  {
    if Quiet(expiration, calls[p].now, calls[i].now) {
      forall j: nat | j < i && calls[j].key == calls[i].key ensures !Unbroken(calls, expiration, j, i) {
        assert j <= p;
        assert Adjacent(calls, p, i);
      }
    } else {
      forall j: nat | j < i && calls[j].key == calls[i].key
        ensures Unbroken(calls, expiration, j, i) <==> j == p || (j < p && Unbroken(calls, expiration, j, p))
      {
        assert j <= p;
        if Unbroken(calls, expiration, j, i) && j < p {
          forall a, b | j <= a < b <= p && Adjacent(calls, a, b) && calls[b].key == calls[p].key
            ensures !Quiet(expiration, calls[a].now, calls[b].now)
          {
            assert b <= i;
          }
        }
        if j == p || (j < p && Unbroken(calls, expiration, j, p)) {
          forall a, b | j <= a < b <= i && Adjacent(calls, a, b) && calls[b].key == calls[i].key
            ensures !Quiet(expiration, calls[a].now, calls[b].now)
          {
            assert b <= p || b == i;
            assert b == i ==> a == p;
          }
        }
      }
    }
  }

  lemma NoStreak(calls: seq<Call>, expiration: int, i: nat)
    requires i < |calls| && forall j :: 0 <= j < i ==> calls[j].key != calls[i].key
    ensures Streak(calls, expiration, i) == {}
  {
  }

  lemma StreakGrows(calls: seq<Call>, expiration: int, i: nat, p: nat)
    requires Adjacent(calls, p, i)
    ensures |Streak(calls, expiration, i)| ==
            if Quiet(expiration, calls[p].now, calls[i].now) then 0 else |Streak(calls, expiration, p)| + 1
  {
    StreakStep(calls, expiration, i, p);
    assert p !in Streak(calls, expiration, p);
  }

  lemma FrequencyStep(calls: seq<Call>, expiration: int, i: nat)
    requires i < |calls|
    ensures match Last(calls[..i], calls[i].key)
            case None =>
              && Frequency(calls[..i + 1], expiration) == 1
              && forall j :: 0 <= j < i ==> calls[j].key != calls[i].key
            case Some(p) =>
              && Adjacent(calls, p, i)
              && Frequency(calls[..i + 1], expiration) ==
                 if Quiet(expiration, calls[p].now, calls[i].now) then 1 else Frequency(calls[..p + 1], expiration) + 1
  {
    var prefix := calls[..i + 1];
    assert prefix[..i] == calls[..i];
    match Last(calls[..i], calls[i].key)
    case None => assert forall j :: 0 <= j < i ==> calls[..i][j] == calls[j];
    case Some(p) =>
      assert prefix[..p + 1] == calls[..p + 1];
      assert forall j :: 0 <= j < i ==> calls[..i][j] == calls[j];
  }

  /** How many earlier lookups of the key the last unbroken series holds. */
  function StreakSize(calls: seq<Call>, expiration: int, i: nat): nat
    requires i < |calls|
  {
    match Last(calls[..i], calls[i].key)
    case None => 0
    case Some(p) => if Quiet(expiration, calls[p].now, calls[i].now) then 0 else StreakSize(calls, expiration, p) + 1
  }

  lemma {:induction false} FrequencyIsSize(calls: seq<Call>, expiration: int, i: nat)
    requires i < |calls|
    ensures Frequency(calls[..i + 1], expiration) == 1 + StreakSize(calls, expiration, i)
  {
    FrequencyStep(calls, expiration, i);
    if Last(calls[..i], calls[i].key).Some? {
      FrequencyIsSize(calls, expiration, Last(calls[..i], calls[i].key).value);
    }
  }

  lemma {:induction false} SizeOfStreak(calls: seq<Call>, expiration: int, i: nat)
    requires i < |calls|
    ensures StreakSize(calls, expiration, i) == |Streak(calls, expiration, i)|
  {
    FrequencyStep(calls, expiration, i);
    match Last(calls[..i], calls[i].key)
    case None => NoStreak(calls, expiration, i);
    case Some(p) =>
      SizeOfStreak(calls, expiration, p);
      StreakGrows(calls, expiration, i, p);
  }

  /**
    addCache returns one plus the number of earlier lookups of the key since its last quiet gap longer
    than the expiration; each hit renews the entry, so only gaps between neighbours count.
   */
  lemma {:induction false} FrequencyCountsStreak(calls: seq<Call>, expiration: int, i: nat)
    requires i < |calls|
    ensures Frequency(calls[..i + 1], expiration) == 1 + |Streak(calls, expiration, i)|
  {
    FrequencyIsSize(calls, expiration, i);
    SizeOfStreak(calls, expiration, i);
  }

  /** A message passes the deduper exactly if its key is new or was left alone for longer than the expiration. */
  lemma PassesAfterQuiet(calls: seq<Call>, expiration: int)
    requires calls != []
    ensures var n := |calls| - 1;
            Frequency(calls, expiration) == 1 <==>
              forall p :: 0 <= p < n && Adjacent(calls, p, n) ==> Quiet(expiration, calls[p].now, calls[n].now)
  {
    var n := |calls| - 1;
    match Last(calls[..n], calls[n].key)
    case None =>
    case Some(p) =>
      assert Adjacent(calls, p, n);
      forall q | 0 <= q < n && Adjacent(calls, q, n) ensures q == p {
        assert calls[..n][q].key == calls[n].key;
        assert q <= p;
      }
  }

  // ---- the readers ----

  /** The outcome of one read of the kernel log. */
  datatype Read = Line(text: string, now: nat) | Interrupted | Failure

  datatype Stamped = Stamped(message: Message, now: nat)

  datatype Parsed = Parsed(messages: seq<Stamped>, clean: bool)

  function ParseRead(before: Parsed, last: Read, boot: int): Parsed {
    if !before.clean || IsSkipped(last) then before
    else
      var r := ParseOne(last, boot);
      if r.Err? then before.(clean := false) else Parsed(before.messages + [Stamped(r.message, last.now)], true)
  }

  /** A read that the loop continues after. */
  predicate IsSkipped(r: Read) {
    r.Interrupted? || (r.Line? && r.text == "")
  }

  /** What comes of another read; a failed one counts as a line that does not parse. */
  function ParseOne(r: Read, boot: int): (result: ParseResult)
    ensures result.Ok? ==> r.Line?
  {
    if r.Line? then ParseLine(boot, r.text) else Err(NoSemicolon)
  }

  lemma ReadStep(input: seq<Read>, boot: int, i: nat, parsed: seq<Stamped>)
    requires i < |input| && ParseReads(input[..i], boot) == Parsed(parsed, true)
    ensures IsSkipped(input[i]) ==> ParseReads(input[..i + 1], boot) == Parsed(parsed, true)
    ensures !IsSkipped(input[i]) ==>
              var r := ParseOne(input[i], boot);
              && (r.Err? ==> ParseReads(input, boot) == Parsed(parsed, false))
              && (r.Ok? ==>
                    ParseReads(input[..i + 1], boot) == Parsed(parsed + [Stamped(r.message, input[i].now)], true))
  {
    assert input[..i + 1][..i] == input[..i];
    if !IsSkipped(input[i]) && ParseOne(input[i], boot).Err? {
      StopsAtError(input, boot, i + 1);
    }
  }

  /** The messages up to the first failed read or malformed line, and whether there was none. */
  function ParseReads(input: seq<Read>, boot: int): Parsed {
    if input == [] then Parsed([], true)
    else ParseRead(ParseReads(input[..|input| - 1], boot), input[|input| - 1], boot)
  }

  function Calls(ms: seq<Stamped>): (calls: seq<Call>) {
    seq(|ms|, i requires 0 <= i < |ms| => Call(CacheKey(ms[i].message), ms[i].now))
  }

  function All(ms: seq<Stamped>): seq<Message> {
    if ms == [] then [] else All(ms[..|ms| - 1]) + [ms[|ms| - 1].message]
  }

  /** The messages that pass a deduper, in order. */
  function Passing(ms: seq<Stamped>, expiration: int): seq<Message> {
    if ms == [] then []
    else
      Passing(ms[..|ms| - 1], expiration) +
      if Frequency(Calls(ms), expiration) == 1 then [ms[|ms| - 1].message] else []
  }

  function Expected(ms: seq<Stamped>, dedup: Option<int>): seq<Message> {
    match dedup
    case None => All(ms)
    case Some(d) => Passing(ms, d)
  }

  lemma ExpectedAppend(ms: seq<Stamped>, last: Stamped, dedup: Option<int>)
    ensures Calls(ms + [last]) == Calls(ms) + [Call(CacheKey(last.message), last.now)]
    ensures Expected(ms + [last], dedup) == Expected(ms, dedup) +
            if dedup.None? || Frequency(Calls(ms + [last]), dedup.value) == 1 then [last.message] else []
  {
    assert (ms + [last])[..|ms|] == ms;
  }

  /**
    The loop of readFollow, which readAll shares: read, parse, deduplicate, hand on; a nil deduper passes everything.
   */
  method ReadFollow(input: seq<Read>, boot: int, dedup: Deduper?) returns (sent: seq<Message>, clean: bool)
    requires dedup != null ==> dedup.Valid() && dedup.calls == []
    modifies dedup
    ensures sent == Expected(ParseReads(input, boot).messages, if dedup == null then None else Some(dedup.expiration))
    ensures clean == ParseReads(input, boot).clean
  {
    sent := [];
    ghost var parsed: seq<Stamped> := [];
    for i := 0 to |input|
      invariant ParseReads(input[..i], boot) == Parsed(parsed, true)
      invariant dedup != null ==> dedup.Valid() && dedup.calls == Calls(parsed)
      invariant sent == Expected(parsed, if dedup == null then None else Some(dedup.expiration))
    {
      ReadStep(input, boot, i, parsed);
      if IsSkipped(input[i]) {
        continue;
      }
      var result := ParseOne(input[i], boot);
      if result.Err? {
        return sent, false;
      }
      ghost var last := Stamped(result.message, input[i].now);
      ExpectedAppend(parsed, last, if dedup == null then None else Some(dedup.expiration));
      parsed := parsed + [last];
      if dedup != null {
        var occurrences := dedup.AddCache(result.message, input[i].now);
        if occurrences > 1 {
          continue;
        }
      }
      sent := sent + [result.message];
    }
    assert input[..|input|] == input;
    return sent, true;
  }

  lemma UncleanStays(input: seq<Read>, boot: int, k: nat)
    requires k < |input| && !ParseReads(input[..k], boot).clean
    ensures ParseReads(input[..k + 1], boot) == ParseReads(input[..k], boot)
  {
    assert input[..k + 1][..k] == input[..k];
  }

  lemma {:induction false} StopsAtError(input: seq<Read>, boot: int, k: nat)
    requires k <= |input| && !ParseReads(input[..k], boot).clean
    ensures ParseReads(input, boot) == ParseReads(input[..k], boot)
    decreases |input| - k
  {
    if k == |input| {
      assert input[..k] == input;
    } else {
      UncleanStays(input, boot, k);
      StopsAtError(input, boot, k + 1);
    }
  }

  /** readAll: the same messages, but nothing at all once a read or a line was bad. */
  method ReadAll(input: seq<Read>, boot: int, dedup: Deduper?) returns (r: Option<seq<Message>>)
    requires dedup != null ==> dedup.Valid() && dedup.calls == []
    modifies dedup
    ensures var p := ParseReads(input, boot);
            var expiration := if dedup == null then None else Some(dedup.expiration);
            r == if p.clean then Some(Expected(p.messages, expiration)) else None
  {
    var msgs, clean := ReadFollow(input, boot, dedup);
    return if clean then Some(msgs) else None;
  }

  predicate SameSecondAndText(a: Message, b: Message) {
    Unix(a.timestamp) == Unix(b.timestamp) && a.text == b.text
  }

  /** The last message has the second and the text of an earlier one. */
  predicate Repeats(ms: seq<Stamped>)
    requires ms != []
  {
    var n := |ms| - 1;
    exists i :: 0 <= i < n && SameSecondAndText(ms[i].message, ms[n].message)
  }

  /** The messages that repeat no earlier one. */
  function FirstOccurrences(ms: seq<Stamped>): seq<Message> {
    if ms == [] then []
    else FirstOccurrences(ms[..|ms| - 1]) + if Repeats(ms) then [] else [ms[|ms| - 1].message]
  }

  ghost predicate NeverQuiet(calls: seq<Call>, expiration: int) {
    forall a, b :: 0 <= a < b < |calls| && Adjacent(calls, a, b) ==> !Quiet(expiration, calls[a].now, calls[b].now)
  }

  lemma NeverQuietPrefix(calls: seq<Call>, expiration: int, n: nat)
    requires n <= |calls| && NeverQuiet(calls, expiration)
    ensures NeverQuiet(calls[..n], expiration)
  {
    forall a, b | 0 <= a < b < n && Adjacent(calls[..n], a, b)
      ensures !Quiet(expiration, calls[..n][a].now, calls[..n][b].now)
    {
      assert forall c :: a < c < b ==> calls[..n][c].key == calls[c].key;
      assert Adjacent(calls, a, b);
    }
  }

  lemma LastIffSeen(calls: seq<Call>, n: nat)
    requires n < |calls|
    ensures Last(calls[..n], calls[n].key).Some? <==> exists i :: 0 <= i < n && calls[i].key == calls[n].key
  {
    var last := Last(calls[..n], calls[n].key);
    if last.Some? {
      assert calls[last.value].key == calls[n].key;
    } else {
      assert forall i :: 0 <= i < n ==> calls[..n][i] == calls[i];
    }
  }

  lemma KeyOfCall(ms: seq<Stamped>, i: nat, j: nat)
    requires i < |ms| && j < |ms|
    ensures Calls(ms)[i].key == Calls(ms)[j].key <==> SameSecondAndText(ms[i].message, ms[j].message)
  {
    CacheKeyInjective(ms[i].message, ms[j].message);
  }

  lemma RepeatsIffKeySeen(ms: seq<Stamped>)
    requires ms != []
    ensures var n := |ms| - 1; Repeats(ms) <==> Last(Calls(ms)[..n], Calls(ms)[n].key).Some?
  {
    var n := |ms| - 1;
    var calls := Calls(ms);
    LastIffSeen(calls, n);
    if Repeats(ms) {
      var i :| 0 <= i < n && SameSecondAndText(ms[i].message, ms[n].message);
      KeyOfCall(ms, i, n);
    }
    if i :| 0 <= i < n && calls[i].key == calls[n].key {
      KeyOfCall(ms, i, n);
    }
  }

  lemma PassesIfNew(calls: seq<Call>, expiration: int)
    requires calls != [] && NeverQuiet(calls, expiration)
    ensures var n := |calls| - 1;
            Frequency(calls, expiration) == 1 <==> Last(calls[..n], calls[n].key).None?
  {
    var n := |calls| - 1;
    match Last(calls[..n], calls[n].key)
    case None =>
    case Some(p) =>
      assert Adjacent(calls, p, n);
  }

  /** With no quiet gap, exactly the first occurrences are read, in order. */
  lemma {:induction false} PassingIsFirstOccurrences(ms: seq<Stamped>, expiration: int)
    requires NeverQuiet(Calls(ms), expiration)
    ensures Passing(ms, expiration) == FirstOccurrences(ms)
  {
    if ms != [] {
      var n := |ms| - 1;
      assert Calls(ms[..n]) == Calls(ms)[..n];
      NeverQuietPrefix(Calls(ms), expiration, n);
      PassingIsFirstOccurrences(ms[..n], expiration);
      PassesIfNew(Calls(ms), expiration);
      RepeatsIffKeySeen(ms);
    }
  }

  // ---- reading printed records ----

  /** One read: a printed record at a clock reading, or nothing. */
  datatype Source =
    | Gap
    | Record(priority: int, sequence: int, microseconds: int, extra: seq<string>, text: string, now: nat)

  /** The numbers fit, in nanoseconds too, and the extra fields hold no separator. */
  ghost predicate Printable(x: Source) {
    x.Record? ==>
      && FitsInt64(x.priority) && FitsInt64(x.sequence) && FitsInt64(x.microseconds) && FitsInt64(x.microseconds * 1000)
      && forall i :: 0 <= i < |x.extra| ==> ',' !in x.extra[i] && ';' !in x.extra[i]
  }

  /** What a read yields: nothing, or a message at a clock reading. */
  ghost predicate Yields(r: Read, m: Option<Stamped>, boot: int) {
    if m.None? then IsSkipped(r)
    else !IsSkipped(r) && r.Line? && r.now == m.value.now && ParseOne(r, boot) == Ok(m.value.message)
  }

  function Present(ms: seq<Option<Stamped>>): seq<Stamped> {
    if ms == [] then []
    else
      var before, m := Present(ms[..|ms| - 1]), ms[|ms| - 1];
      if m.Some? then before + [m.value] else before
  }

  lemma YieldStep(before: Parsed, r: Read, m: Option<Stamped>, boot: int)
    requires before.clean && Yields(r, m, boot)
    ensures ParseRead(before, r, boot) == if m.Some? then Parsed(before.messages + [m.value], true) else before
  {}

  lemma {:induction false} ReadsYield(input: seq<Read>, ms: seq<Option<Stamped>>, boot: int)
    requires |input| == |ms| && forall i :: 0 <= i < |input| ==> Yields(input[i], ms[i], boot)
    ensures ParseReads(input, boot) == Parsed(Present(ms), true)
  {
    if input != [] {
      var n := |input| - 1;
      ReadsYield(input[..n], ms[..n], boot);
      YieldStep(ParseReads(input[..n], boot), input[n], ms[n], boot);
    }
  }

  /** The read is of the printed record. */
  ghost predicate Prints(r: Read, x: Source) {
    if x.Gap? then r == Interrupted
    else r == Line(PrintLine(x.priority, x.sequence, x.microseconds, x.extra, x.text), x.now)
  }

  /** The record's message, at boot time plus its offset. */
  function MessageOf(x: Source, boot: int): Option<Stamped> {
    if x.Gap? then None
    else Some(Stamped(Message(boot + x.microseconds * 1000, x.priority, x.sequence, x.text), x.now))
  }

  lemma PrintedHasSemicolon(priority: int, sequence: int, microseconds: int, extra: seq<string>, text: string)
    ensures PrintLine(priority, sequence, microseconds, extra, text) != ""
  {}

  lemma PrintedYields(r: Read, x: Source, boot: int)
    requires Printable(x) && Prints(r, x)
    ensures Yields(r, MessageOf(x, boot), boot)
  {
    if x.Record? {
      PrintedHasSemicolon(x.priority, x.sequence, x.microseconds, x.extra, x.text);
      ParseInvertsPrint(boot, x.priority, x.sequence, x.microseconds, x.extra, x.text);
    }
  }

  function MessagesOf(xs: seq<Source>, boot: int): (ms: seq<Option<Stamped>>)
    ensures |ms| == |xs| && forall i :: 0 <= i < |ms| ==> ms[i] == MessageOf(xs[i], boot)
  {
    seq(|xs|, i requires 0 <= i < |xs| => MessageOf(xs[i], boot))
  }

  /** Reading printed records gives their messages in order, whatever reads are interrupted in between. */
  lemma ReadingInvertsPrinting(input: seq<Read>, xs: seq<Source>, boot: int)
    requires |input| == |xs| && forall i :: 0 <= i < |xs| ==> Printable(xs[i]) && Prints(input[i], xs[i])
    ensures ParseReads(input, boot) == Parsed(Present(MessagesOf(xs, boot)), true)
  {
    forall i | 0 <= i < |xs| ensures Yields(input[i], MessagesOf(xs, boot)[i], boot) {
      PrintedYields(input[i], xs[i], boot);
    }
    ReadsYield(input, MessagesOf(xs, boot), boot);
  }
}
