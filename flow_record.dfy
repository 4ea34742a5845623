/** The VPC Flow Logs version 2 record: parsing a log line into a `FlowRecord`, writing a
    record back as a line, and the slot-wise equality and hash. */
module FlowRecords {
  import opened Results
  import opened Text
  import opened Civil

  /** The largest signed 32-bit value; larger timestamps are milliseconds. */
  const Epoch32Max: int := 2147483647
  /** Whole seconds of the earliest `datetime`, 0001-01-01T00:00:00Z. */
  const MinEpochSeconds: int := -62135596800

  const NoData: string := "NODATA"
  const SkipData: string := "SKIPDATA"

  /** The fourteen slots of a record, in their fixed order. Instants are microseconds since
      the epoch; the traffic fields are `None` for `NODATA` and `SKIPDATA` lines. */
  datatype FlowRecord = FlowRecord(
    version: int,
    accountId: string,
    interfaceId: string,
    srcAddr: Option<string>,
    dstAddr: Option<string>,
    srcPort: Option<int>,
    dstPort: Option<int>,
    protocol: Option<int>,
    packets: Option<int>,
    bytes: Option<int>,
    start: Instant,
    end: Instant,
    action: Option<string>,
    logStatus: string)

  /** Why a line does not parse, with the token index involved: `MissingField` is the
      `IndexError` of a line that is too short, `NotAnInteger` the `ValueError` of `int()`,
      `TimestampOutOfRange` the error of `utcfromtimestamp` outside the years 1 to 9999. */
  datatype ParseError =
    | MissingField(index: nat)
    | NotAnInteger(index: nat)
    | TimestampOutOfRange(index: nat)

  /** The statuses for which the traffic fields are not read. */
  predicate IsSentinel(status: string) {
    status == NoData || status == SkipData
  }

  // ---------------------------------------------------------------------------
  // Parsing
  // ---------------------------------------------------------------------------

  function TextField(fields: seq<string>, i: nat): Result<string, ParseError> {
    if i < |fields| then Success(fields[i]) else Failure(MissingField(i))
  }

  function IntField(fields: seq<string>, i: nat): Result<int, ParseError> {
    if i >= |fields| then Failure(MissingField(i))
    else match ParseInt(fields[i])
      case Some(n) => Success(n)
      case None => Failure(NotAnInteger(i))
  }

  /** The instant a start or end token denotes: seconds up to `Epoch32Max`, milliseconds
      above it. */
  function TimestampMicros(n: int): int {
    if n > Epoch32Max then n * 1000 else n * MicrosPerSecond
  }

  /** `utcfromtimestamp` of the token's value, for the token at index `i`. */
  function ToInstant(n: int, i: nat): Result<Instant, ParseError> {
    var t := TimestampMicros(n);
    if MinInstant <= t < MaxInstant then Success(t) else Failure(TimestampOutOfRange(i))
  }

  /** `FlowRecord.__init__` on the tokens of a line, failing at the first token that the
      constructor cannot read, in the order it reads them. */
  function ParseFields(f: seq<string>): Result<FlowRecord, ParseError> {
    var version :- IntField(f, 0);
    var accountId :- TextField(f, 1);
    var interfaceId :- TextField(f, 2);
    var startValue :- IntField(f, 10);
    var endValue :- IntField(f, 11);
    var start :- ToInstant(startValue, 10);
    var end :- ToInstant(endValue, 11);
    var logStatus :- TextField(f, 13);
    if IsSentinel(logStatus) then
      Success(FlowRecord(version, accountId, interfaceId, None, None, None, None, None,
                         None, None, start, end, None, logStatus))
    else
      var srcAddr :- TextField(f, 3);
      var dstAddr :- TextField(f, 4);
      var srcPort :- IntField(f, 5);
      var dstPort :- IntField(f, 6);
      var protocol :- IntField(f, 7);
      var packets :- IntField(f, 8);
      var bytes :- IntField(f, 9);
      var action :- TextField(f, 12);
      Success(FlowRecord(version, accountId, interfaceId, Some(srcAddr), Some(dstAddr),
                         Some(srcPort), Some(dstPort), Some(protocol), Some(packets),
                         Some(bytes), start, end, Some(action), logStatus))
  }

  /** `FlowRecord.from_message(message)`. */
  function FromMessage(message: string): Result<FlowRecord, ParseError> {
    ParseFields(Split(message))
  }

  /** A token list the constructor accepts, stated field by field. */
  predicate Parsable(f: seq<string>) {
    && |f| >= 14
    && ParseInt(f[0]).Some?
    && ParseInt(f[10]).Some? && ParseInt(f[11]).Some?
    && MinInstant <= TimestampMicros(ParseInt(f[10]).value) < MaxInstant
    && MinInstant <= TimestampMicros(ParseInt(f[11]).value) < MaxInstant
    && (IsSentinel(f[13]) || forall i | 5 <= i <= 9 :: ParseInt(f[i]).Some?)
  }

  /** A line parses exactly when it has at least fourteen tokens, tokens 0, 10 and 11 are
      integers whose instants are representable, and, unless the status is a sentinel,
      tokens 5 to 9 are integers. */
  lemma ParseSucceedsIff(f: seq<string>)
    ensures ParseFields(f).Success? <==> Parsable(f)
  {
    if Parsable(f) && !IsSentinel(f[13]) {
      assert ParseInt(f[5]).Some? && ParseInt(f[6]).Some? && ParseInt(f[7]).Some?;
      assert ParseInt(f[8]).Some? && ParseInt(f[9]).Some?;
    }
  }

  /** What a parsed record holds: tokens 0 to 2 and 13 as read, the instants of tokens 10
      and 11, and for a non-sentinel status the traffic tokens 3 to 9 and 12; for a
      sentinel status every traffic field is `None`. */
  lemma ParsedFields(f: seq<string>)
    requires ParseFields(f).Success?
    ensures var r := ParseFields(f).value;
      && |f| >= 14
      && Some(r.version) == ParseInt(f[0])
      && r.accountId == f[1] && r.interfaceId == f[2] && r.logStatus == f[13]
      && r.start == TimestampMicros(ParseInt(f[10]).value)
      && r.end == TimestampMicros(ParseInt(f[11]).value)
      && (IsSentinel(f[13]) ==>
            && r.srcAddr.None? && r.dstAddr.None? && r.srcPort.None? && r.dstPort.None?
            && r.protocol.None? && r.packets.None? && r.bytes.None? && r.action.None?)
      && (!IsSentinel(f[13]) ==>
            && r.srcAddr == Some(f[3]) && r.dstAddr == Some(f[4])
            && r.srcPort == ParseInt(f[5]) && r.dstPort == ParseInt(f[6])
            && r.protocol == ParseInt(f[7]) && r.packets == ParseInt(f[8])
            && r.bytes == ParseInt(f[9]) && r.action == Some(f[12]))
  {
  }

  /** For a sentinel status the traffic tokens are never read: lines that agree on tokens
      0, 1, 2, 10, 11 and 13 parse alike, whatever their other tokens say. */
  lemma SentinelIgnoresTraffic(f: seq<string>, g: seq<string>)
    requires |f| >= 14 && |g| >= 14 && IsSentinel(f[13])
    requires f[0] == g[0] && f[1] == g[1] && f[2] == g[2]
    requires f[10] == g[10] && f[11] == g[11] && f[13] == g[13]
    ensures ParseFields(f) == ParseFields(g)
  {
  }

  /** Tokens after the fourteenth are ignored. */
  lemma ExtraTokensIgnored(f: seq<string>)
    requires |f| >= 14
    ensures ParseFields(f) == ParseFields(f[..14])
  {
    var g := f[..14];
    assert g[0] == f[0] && g[1] == f[1] && g[2] == f[2] && g[3] == f[3] && g[4] == f[4];
    assert g[5] == f[5] && g[6] == f[6] && g[7] == f[7] && g[8] == f[8] && g[9] == f[9];
    assert g[10] == f[10] && g[11] == f[11] && g[12] == f[12] && g[13] == f[13];
  }

  /** The millisecond token of the sample SKIPDATA line is 2017-12-06T12:40:58Z, and the
      threshold is strict: 2147483647 is read as seconds (2038-01-19T03:14:07Z) while
      2147483648 is read as milliseconds (1970-01-25T20:31:23.648Z). */
  lemma TimestampRuleExamples()
    ensures ToInstant(1512564058000, 10) == Success(InstantOf(Date(2017, 12, 6), 12, 40, 58))
    ensures ToInstant(1512564059000, 11) == Success(InstantOf(Date(2017, 12, 6), 12, 40, 59))
    ensures ToInstant(2147483647, 10) == Success(InstantOf(Date(2038, 1, 19), 3, 14, 7))
    ensures ToInstant(2147483648, 10) == Success(InstantOf(Date(1970, 1, 25), 20, 31, 23) + 648000)
  {
  }

  // ---------------------------------------------------------------------------
  // Serialisation
  // ---------------------------------------------------------------------------

  /** `str(x) if x else '-'` for an integer slot: `None` and `0` both become `-`. */
  function IntText(x: Option<int>): (t: string)
    ensures IsWord(t)
  {
    assert IsWord("-");
    match x
    case Some(n) => if n == 0 then "-" else IntToString(n)
    case None => "-"
  }

  /** `str(x) if x else '-'` for a text slot: `None` and the empty string become `-`. */
  function StrText(x: Option<string>): (t: string)
    ensures (x.Some? ==> IsWord(x.value)) ==> IsWord(t)
  {
    assert IsWord("-");
    match x
    case Some(s) => if s == "" then "-" else s
    case None => "-"
  }

  /** `str(timegm(dt.utctimetuple()))`: whole seconds, never milliseconds. */
  function InstantText(t: Instant): string {
    IntToString(EpochSeconds(t))
  }

  /** The fourteen tokens `to_message` writes, in slot order. */
  function Tokens(r: FlowRecord): seq<string> {
    [ IntText(Some(r.version)), StrText(Some(r.accountId)), StrText(Some(r.interfaceId)),
      StrText(r.srcAddr), StrText(r.dstAddr), IntText(r.srcPort), IntText(r.dstPort),
      IntText(r.protocol), IntText(r.packets), IntText(r.bytes),
      InstantText(r.start), InstantText(r.end), StrText(r.action), StrText(Some(r.logStatus)) ]
  }

  /** `FlowRecord.to_message()`. */
  function ToMessage(r: FlowRecord): string {
    Join(Tokens(r))
  }

  /** The text `to_message` writes for slot `i`: the `D_transform` entry for `start` and
      `end`, the falsy rule for every other slot. */
  function SlotText(r: FlowRecord, i: nat): string
    requires i < 14
  {
    match i
    case 0 => IntText(Some(r.version))
    case 1 => StrText(Some(r.accountId))
    case 2 => StrText(Some(r.interfaceId))
    case 3 => StrText(r.srcAddr)
    case 4 => StrText(r.dstAddr)
    case 5 => IntText(r.srcPort)
    case 6 => IntText(r.dstPort)
    case 7 => IntText(r.protocol)
    case 8 => IntText(r.packets)
    case 9 => IntText(r.bytes)
    case 10 => InstantText(r.start)
    case 11 => InstantText(r.end)
    case 12 => StrText(r.action)
    case _ => StrText(Some(r.logStatus))
  }

  /** `to_message`'s loop over the slots, appending each slot's text, then the join. */
  method WriteMessage(r: FlowRecord) returns (message: string)
    ensures message == ToMessage(r)
  {
    var ret: seq<string> := [];
    for i := 0 to 14
      invariant ret == Tokens(r)[..i]
    {
      ret := ret + [SlotText(r, i)];
    }
    assert ret == Tokens(r);
    message := Join(ret);
  }

  /** Text slots that survive a write and a re-read: non-empty and whitespace-free. */
  predicate WordSlots(r: FlowRecord) {
    && IsWord(r.accountId) && IsWord(r.interfaceId) && IsWord(r.logStatus)
    && (r.srcAddr.Some? ==> IsWord(r.srcAddr.value))
    && (r.dstAddr.Some? ==> IsWord(r.dstAddr.value))
    && (r.action.Some? ==> IsWord(r.action.value))
  }

  /** The output is fourteen whitespace-free tokens, separated by single spaces; the
      start and end tokens are the whole epoch seconds of the instants. */
  lemma ToMessageShape(r: FlowRecord)
    requires WordSlots(r)
    ensures Split(ToMessage(r)) == Tokens(r) && |Tokens(r)| == 14
    ensures ParseInt(Tokens(r)[10]) == Some(EpochSeconds(r.start))
    ensures ParseInt(Tokens(r)[11]) == Some(EpochSeconds(r.end))
  {
    TokensAreWords(r);
    SplitJoin(Tokens(r));
    ParseIntToString(EpochSeconds(r.start));
    ParseIntToString(EpochSeconds(r.end));
  }

  lemma TokensAreWords(r: FlowRecord)
    requires WordSlots(r)
    ensures forall i | 0 <= i < |Tokens(r)| :: IsWord(Tokens(r)[i])
  {
    var t := Tokens(r);
    assert IsWord(t[3]) && IsWord(t[4]) && IsWord(t[12]);
  }

  /** Records `to_message` writes without losing information, apart from the instants:
      version and present integer traffic fields non-zero, word-shaped text, and traffic
      fields present exactly when the status is not a sentinel. */
  predicate Writable(r: FlowRecord) {
    && WordSlots(r)
    && r.version != 0
    && if IsSentinel(r.logStatus) then
         && r.srcAddr.None? && r.dstAddr.None? && r.srcPort.None? && r.dstPort.None?
         && r.protocol.None? && r.packets.None? && r.bytes.None? && r.action.None?
       else
         && r.srcAddr.Some? && r.dstAddr.Some? && r.action.Some?
         && r.srcPort.Some? && r.srcPort.value != 0 && r.dstPort.Some? && r.dstPort.value != 0
         && r.protocol.Some? && r.protocol.value != 0 && r.packets.Some? && r.packets.value != 0
         && r.bytes.Some? && r.bytes.value != 0
  }

  /** The instant a written start or end token reads back as. */
  function Reread(t: Instant): Instant {
    var s := EpochSeconds(t);
    if s > Epoch32Max then s * 1000 else s * MicrosPerSecond
  }

  lemma IntTextRoundTrip(x: Option<int>)
    requires x.Some? && x.value != 0
    ensures ParseInt(IntText(x)) == x
  {
    ParseIntToString(x.value);
  }

  /** `str(x) if x else '-'` on an integer slot, as a property of the token: `-` exactly
      for a missing or zero value, and otherwise text that `int()` reads back as the value. */
  predicate IntSlotWritten(token: string, x: Option<int>) {
    && (token == "-" <==> x.None? || x.value == 0)
    && (x.Some? && x.value != 0 ==> ParseInt(token) == x)
  }

  /** `str(x) if x else '-'` on a text slot: the text itself unless it is missing or
      empty, and then `-`. */
  predicate TextSlotWritten(token: string, x: Option<string>) {
    && (token == "-" <==> x.None? || x.value == "" || x.value == "-")
    && (x.Some? && x.value != "" ==> token == x.value)
  }

  lemma IntTextWritten(x: Option<int>)
    ensures IntSlotWritten(IntText(x), x)
  {
    if x.Some? && x.value != 0 {
      IntTextRoundTrip(x);
    }
  }

  lemma StrTextWritten(x: Option<string>)
    ensures TextSlotWritten(StrText(x), x)
  {
  }

  /** `to_message`'s fourteen tokens in slot order: the falsy rule on every slot but the
      instants, and the whole epoch seconds on those two. */
  lemma TokensFalsyRule(r: FlowRecord)
    ensures |Tokens(r)| == 14
    ensures IntSlotWritten(Tokens(r)[0], Some(r.version))
    ensures TextSlotWritten(Tokens(r)[1], Some(r.accountId))
    ensures TextSlotWritten(Tokens(r)[2], Some(r.interfaceId))
    ensures TextSlotWritten(Tokens(r)[3], r.srcAddr) && TextSlotWritten(Tokens(r)[4], r.dstAddr)
    ensures IntSlotWritten(Tokens(r)[5], r.srcPort) && IntSlotWritten(Tokens(r)[6], r.dstPort)
    ensures IntSlotWritten(Tokens(r)[7], r.protocol) && IntSlotWritten(Tokens(r)[8], r.packets)
    ensures IntSlotWritten(Tokens(r)[9], r.bytes)
    ensures ParseInt(Tokens(r)[10]) == Some(EpochSeconds(r.start))
    ensures ParseInt(Tokens(r)[11]) == Some(EpochSeconds(r.end))
    ensures TextSlotWritten(Tokens(r)[12], r.action)
    ensures TextSlotWritten(Tokens(r)[13], Some(r.logStatus))
  {
    TokensAt(r);
    IntTextWritten(Some(r.version));
    IntTextWritten(r.srcPort);
    IntTextWritten(r.dstPort);
    IntTextWritten(r.protocol);
    IntTextWritten(r.packets);
    IntTextWritten(r.bytes);
    StrTextWritten(Some(r.accountId));
    StrTextWritten(Some(r.interfaceId));
    StrTextWritten(r.srcAddr);
    StrTextWritten(r.dstAddr);
    StrTextWritten(r.action);
    StrTextWritten(Some(r.logStatus));
    ParseIntToString(EpochSeconds(r.start));
    ParseIntToString(EpochSeconds(r.end));
  }

  /** The written tokens, one by one. */
  lemma TokensAt(r: FlowRecord)
    ensures var f := Tokens(r);
      && |f| == 14
      && f[0] == IntText(Some(r.version)) && f[1] == StrText(Some(r.accountId))
      && f[2] == StrText(Some(r.interfaceId)) && f[3] == StrText(r.srcAddr)
      && f[4] == StrText(r.dstAddr) && f[5] == IntText(r.srcPort) && f[6] == IntText(r.dstPort)
      && f[7] == IntText(r.protocol) && f[8] == IntText(r.packets) && f[9] == IntText(r.bytes)
      && f[10] == InstantText(r.start) && f[11] == InstantText(r.end)
      && f[12] == StrText(r.action) && f[13] == StrText(Some(r.logStatus))
  {
  }

  /** The constructor on a token list that holds, slot by slot, what `r` was written as. */
  lemma ParseWritten(f: seq<string>, r: FlowRecord)
    requires Writable(r) && |f| == 14
    requires ParseInt(f[0]) == Some(r.version) && f[1] == r.accountId && f[2] == r.interfaceId
    requires ParseInt(f[10]) == Some(EpochSeconds(r.start))
    requires ParseInt(f[11]) == Some(EpochSeconds(r.end))
    requires f[13] == r.logStatus
    requires !IsSentinel(r.logStatus) ==>
      && Some(f[3]) == r.srcAddr && Some(f[4]) == r.dstAddr
      && ParseInt(f[5]) == r.srcPort && ParseInt(f[6]) == r.dstPort
      && ParseInt(f[7]) == r.protocol && ParseInt(f[8]) == r.packets
      && ParseInt(f[9]) == r.bytes && Some(f[12]) == r.action
    ensures ParseFields(f) == Success(r.(start := Reread(r.start), end := Reread(r.end)))
  {
  }

  /** The constructor reads the written tokens back slot by slot. */
  lemma ParseTokens(r: FlowRecord)
    requires Writable(r)
    ensures ParseFields(Tokens(r)) == Success(r.(start := Reread(r.start), end := Reread(r.end)))
  {
    TokensAt(r);
    IntTextRoundTrip(Some(r.version));
    ParseIntToString(EpochSeconds(r.start));
    ParseIntToString(EpochSeconds(r.end));
    if !IsSentinel(r.logStatus) {
      IntTextRoundTrip(r.srcPort);
      IntTextRoundTrip(r.dstPort);
      IntTextRoundTrip(r.protocol);
      IntTextRoundTrip(r.packets);
      IntTextRoundTrip(r.bytes);
    }
    ParseWritten(Tokens(r), r);
  }

  /** Writing a record and parsing the line back gives every slot back, except that start
      and end come back as whole seconds, and as a thousandth of the seconds value when
      that exceeds `Epoch32Max` (instants after 2038-01-19T03:14:07Z). */
  lemma ReparseToMessage(r: FlowRecord)
    requires Writable(r)
    ensures FromMessage(ToMessage(r)) == Success(r.(start := Reread(r.start), end := Reread(r.end)))
  {
    ToMessageShape(r);
    ParseTokens(r);
  }

  /** Records whose instants are whole seconds up to `Epoch32Max`. */
  predicate Canonical(r: FlowRecord) {
    && Writable(r)
    && r.start % MicrosPerSecond == 0 && EpochSeconds(r.start) <= Epoch32Max
    && r.end % MicrosPerSecond == 0 && EpochSeconds(r.end) <= Epoch32Max
  }

  /** A whole number of seconds up to `Epoch32Max` is read back as itself. */
  lemma RereadWholeSeconds(t: Instant)
    requires t % MicrosPerSecond == 0 && EpochSeconds(t) <= Epoch32Max
    ensures Reread(t) == t
  {
  }

  /** Round trip on records: a canonical record is parsed back from its own line. */
  lemma ParseToMessage(r: FlowRecord)
    requires Canonical(r)
    ensures FromMessage(ToMessage(r)) == Success(r)
  {
    ReparseToMessage(r);
    RereadWholeSeconds(r.start);
    RereadWholeSeconds(r.end);
  }

  /** A serialised OK record with a zero port cannot be parsed back: the `0` was written
      as `-`. */
  lemma ZeroPortNotReparsable(r: FlowRecord)
    requires WordSlots(r) && r.version != 0 && !IsSentinel(r.logStatus)
    requires r.srcPort == Some(0)
    ensures FromMessage(ToMessage(r)) == Failure(NotAnInteger(5))
  {
    ToMessageShape(r);
    TokensAt(r);
    IntTextRoundTrip(Some(r.version));
    assert Reread(r.start) == TimestampMicros(EpochSeconds(r.start));
    assert Reread(r.end) == TimestampMicros(EpochSeconds(r.end));
    SourcePortFailure(Tokens(r));
  }

  /** A line whose leading and timestamp tokens read, with a non-sentinel status and a
      source-port token that is not an integer, fails at the source port. */
  lemma SourcePortFailure(f: seq<string>)
    requires |f| >= 14 && ParseInt(f[0]).Some? && !IsSentinel(f[13])
    requires ParseInt(f[10]).Some? && ParseInt(f[11]).Some?
    requires MinInstant <= TimestampMicros(ParseInt(f[10]).value) < MaxInstant
    requires MinInstant <= TimestampMicros(ParseInt(f[11]).value) < MaxInstant
    requires f[5] == "-"
    ensures ParseFields(f) == Failure(NotAnInteger(5))
  {
    assert ParseInt(f[5]) == None;
  }

  // ---------------------------------------------------------------------------
  // Canonical lines
  // ---------------------------------------------------------------------------

  /** A start or end token in whole seconds that is read back unchanged. */
  predicate SecondsToken(token: string) {
    IsCanonicalInt(token) && MinEpochSeconds <= ParseInt(token).value <= Epoch32Max
  }

  predicate NonZeroIntToken(token: string) {
    IsCanonicalInt(token) && ParseInt(token).value != 0
  }

  /** Tokens `to_message` reproduces: exactly fourteen, the timestamps in seconds,
      non-zero integers in canonical form, and for a sentinel status every traffic token
      `-`. */
  predicate CanonicalTokens(f: seq<string>) {
    && |f| == 14
    && IsWord(f[1]) && IsWord(f[2]) && IsWord(f[13])
    && NonZeroIntToken(f[0]) && SecondsToken(f[10]) && SecondsToken(f[11])
    && if IsSentinel(f[13]) then
         forall i | 3 <= i <= 12 && i != 10 && i != 11 :: f[i] == "-"
       else
         && IsWord(f[3]) && IsWord(f[4]) && IsWord(f[12])
         && forall i | 5 <= i <= 9 :: NonZeroIntToken(f[i])
  }

  /** A line `to_message` reproduces: canonical tokens joined by single spaces. */
  predicate CanonicalLine(m: string) {
    CanonicalTokens(Split(m)) && m == Join(Split(m))
  }

  lemma SecondsTokenInstant(token: string)
    requires SecondsToken(token)
    ensures var t := TimestampMicros(ParseInt(token).value);
      && MinInstant <= t < MaxInstant && t % MicrosPerSecond == 0
      && InstantText(t) == token && EpochSeconds(t) <= Epoch32Max
  {
    var s := ParseInt(token).value;
    var t := s * MicrosPerSecond;
    assert EpochSeconds(t) == s;
  }

  /** A non-zero canonical integer token is written back as itself. */
  lemma NonZeroIntTokenText(token: string)
    requires NonZeroIntToken(token)
    ensures IntText(ParseInt(token)) == token
  {
  }

  /** A record is written as the tokens `f` when each slot renders as its token. */
  lemma TokensOfSlots(f: seq<string>, r: FlowRecord)
    requires |f| == 14
    requires f[0] == IntText(Some(r.version)) && f[1] == StrText(Some(r.accountId))
    requires f[2] == StrText(Some(r.interfaceId)) && f[3] == StrText(r.srcAddr)
    requires f[4] == StrText(r.dstAddr) && f[5] == IntText(r.srcPort)
    requires f[6] == IntText(r.dstPort) && f[7] == IntText(r.protocol)
    requires f[8] == IntText(r.packets) && f[9] == IntText(r.bytes)
    requires f[10] == InstantText(r.start) && f[11] == InstantText(r.end)
    requires f[12] == StrText(r.action) && f[13] == StrText(Some(r.logStatus))
    ensures Tokens(r) == f
  {
    TokensAt(r);
  }

  /** The record parsed from canonical tokens with a sentinel status. */
  lemma CanonicalSentinelParse(f: seq<string>)
    requires CanonicalTokens(f) && IsSentinel(f[13])
    ensures ParseFields(f).Success?
    ensures Tokens(ParseFields(f).value) == f && Canonical(ParseFields(f).value)
  {
    SecondsTokenInstant(f[10]);
    SecondsTokenInstant(f[11]);
    NonZeroIntTokenText(f[0]);
    ParseSucceedsIff(f);
    ParsedFields(f);
    var r := ParseFields(f).value;
    assert f[3] == "-" && f[4] == "-" && f[5] == "-" && f[6] == "-" && f[7] == "-";
    assert f[8] == "-" && f[9] == "-" && f[12] == "-";
    TokensOfSlots(f, r);
  }

  /** The record parsed from canonical tokens with any other status. */
  lemma CanonicalTrafficParse(f: seq<string>)
    requires CanonicalTokens(f) && !IsSentinel(f[13])
    ensures ParseFields(f).Success?
    ensures Tokens(ParseFields(f).value) == f && Canonical(ParseFields(f).value)
  {
    SecondsTokenInstant(f[10]);
    SecondsTokenInstant(f[11]);
    NonZeroIntTokenText(f[0]);
    NonZeroIntTokenText(f[5]);
    NonZeroIntTokenText(f[6]);
    NonZeroIntTokenText(f[7]);
    NonZeroIntTokenText(f[8]);
    NonZeroIntTokenText(f[9]);
    ParseSucceedsIff(f);
    ParsedFields(f);
    var r := ParseFields(f).value;
    TokensOfSlots(f, r);
  }

  /** Canonical tokens parse, to a canonical record that is written back as the same
      tokens. */
  lemma CanonicalTokensParse(f: seq<string>)
    requires CanonicalTokens(f)
    ensures ParseFields(f).Success?
    ensures Tokens(ParseFields(f).value) == f && Canonical(ParseFields(f).value)
  {
    if IsSentinel(f[13]) {
      CanonicalSentinelParse(f);
    } else {
      CanonicalTrafficParse(f);
    }
  }

  /** Round trip on lines: a canonical line parses, and writing the record reproduces the
      line character for character. */
  lemma ToMessageFromMessage(m: string)
    requires CanonicalLine(m)
    ensures FromMessage(m).Success? && ToMessage(FromMessage(m).value) == m
    ensures Canonical(FromMessage(m).value)
  {
    CanonicalTokensParse(Split(m));
  }

  /** Distinct canonical lines parse to records that do not compare equal. */
  lemma CanonicalParseInjective(m1: string, m2: string)
    requires CanonicalLine(m1) && CanonicalLine(m2) && m1 != m2
    ensures FromMessage(m1).Success? && FromMessage(m2).Success?
    ensures !Equal(FromMessage(m1).value, FromMessage(m2).value)
  {
    ToMessageFromMessage(m1);
    ToMessageFromMessage(m2);
    EqualIffSame(FromMessage(m1).value, FromMessage(m2).value);
  }

  // ---------------------------------------------------------------------------
  // Equality and hash
  // ---------------------------------------------------------------------------

  /** The value of one slot, as `getattr` returns it. */
  datatype Slot = IntSlot(n: int) | TextSlot(s: string) | TimeSlot(t: int) | NoneSlot

  function IntSlotOf(x: Option<int>): Slot {
    match x
    case Some(n) => IntSlot(n)
    case None => NoneSlot
  }

  function TextSlotOf(x: Option<string>): Slot {
    match x
    case Some(s) => TextSlot(s)
    case None => NoneSlot
  }

  /** `tuple(getattr(self, x) for x in self.__slots__)`. */
  function Slots(r: FlowRecord): (t: seq<Slot>)
    ensures |t| == 14
  {
    [ IntSlot(r.version), TextSlot(r.accountId), TextSlot(r.interfaceId),
      TextSlotOf(r.srcAddr), TextSlotOf(r.dstAddr), IntSlotOf(r.srcPort), IntSlotOf(r.dstPort),
      IntSlotOf(r.protocol), IntSlotOf(r.packets), IntSlotOf(r.bytes),
      TimeSlot(r.start), TimeSlot(r.end), TextSlotOf(r.action), TextSlot(r.logStatus) ]
  }

  /** `FlowRecord.__eq__`: every slot compares equal. */
  predicate Equal(a: FlowRecord, b: FlowRecord) {
    forall i | 0 <= i < 14 :: Slots(a)[i] == Slots(b)[i]
  }

  /** `FlowRecord.__hash__`: the hash of the slot tuple, under the interpreter's tuple hash. */
  function Hash(tupleHash: seq<Slot> -> int, r: FlowRecord): int {
    tupleHash(Slots(r))
  }

  /** Slot-wise equality is record identity. */
  lemma EqualIffSame(a: FlowRecord, b: FlowRecord)
    ensures Equal(a, b) <==> a == b
  {
    if Equal(a, b) {
      assert Slots(a) == Slots(b);
      assert Slots(a)[3] == Slots(b)[3] && Slots(a)[4] == Slots(b)[4];
      assert Slots(a)[5] == Slots(b)[5] && Slots(a)[6] == Slots(b)[6];
      assert Slots(a)[7] == Slots(b)[7] && Slots(a)[8] == Slots(b)[8];
      assert Slots(a)[9] == Slots(b)[9] && Slots(a)[12] == Slots(b)[12];
    }
  }

  /** Records that compare equal hash alike, whatever the tuple hash. */
  lemma EqualHashAlike(tupleHash: seq<Slot> -> int, a: FlowRecord, b: FlowRecord)
    requires Equal(a, b)
    ensures Hash(tupleHash, a) == Hash(tupleHash, b)
  {
    EqualIffSame(a, b);
  }

  /** A set built from records that compare equal two by two has one element per
      distinct record: six records, three values each twice, make a set of three. */
  lemma DuplicatesCollapse(a: FlowRecord, b: FlowRecord, c: FlowRecord)
    requires !Equal(a, b) && !Equal(b, c) && !Equal(a, c)
    ensures |{a, a, b, b, c, c}| == 3
  {
    EqualIffSame(a, b);
    EqualIffSame(b, c);
    EqualIffSame(a, c);
    assert {a, a, b, b, c, c} == {a} + {b} + {c};
  }
}
