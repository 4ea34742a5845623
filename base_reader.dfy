/** `BaseReader._reader`: every event the reader's source yields becomes a `FlowRecord`, in
    order. A message that does not parse raises out of the iteration, and so does an
    exception of the source. */
module BaseReader {
  import opened Results
  import opened Runs
  import opened FlowRecords

  /** Why iteration over a reader stopped early. */
  datatype ReaderFault<F> =
    | SourceFault(fault: F)
    | BadMessage(message: string, error: ParseError)

  function LiftFault<F>(fault: Option<F>): (r: Option<ReaderFault<F>>)
    ensures r.None? <==> fault.None?
    ensures fault.Some? ==> r.value.SourceFault? && r.value.fault == fault.value
  {
    match fault
    case None => None
    case Some(f) => Some(SourceFault(f))
  }

  /** `FlowRecord(event)` for one event's message, as a run of at most one record. */
  function ParseStep<F>(): string -> Run<FlowRecord, ReaderFault<F>> {
    m => match FromMessage(m)
         case Success(r) => Run([r], None)
         case Failure(e) => Run([], Some(BadMessage(m, e)))
  }

  /** What draining `_reader` produces for the given run of event messages. */
  function Records<F>(events: Run<string, F>): Run<FlowRecord, ReaderFault<F>> {
    Then(Bind(events.items, ParseStep()), Run([], LiftFault(events.fault)))
  }

  /** The records of messages that all parse, in message order. */
  function ParseAll(ms: seq<string>): (rs: seq<FlowRecord>)
    requires forall i | 0 <= i < |ms| :: FromMessage(ms[i]).Success?
    ensures |rs| == |ms|
    ensures forall i | 0 <= i < |ms| :: FromMessage(ms[i]) == Success(rs[i])
  {
    if ms == [] then [] else [FromMessage(ms[0]).value] + ParseAll(ms[1..])
  }

  lemma {:induction false} FlatItemsParseStep<F>(ms: seq<string>)
    requires forall i | 0 <= i < |ms| :: FromMessage(ms[i]).Success?
    ensures FlatItems(ms, ParseStep<F>()) == ParseAll(ms)
    decreases |ms|
  {
    if ms != [] {
      FlatItemsParseStep<F>(ms[1..]);
    }
  }

  /** When every message parses, the reader yields one record per event, each the parse of
      its message, and ends the way the source ended. */
  lemma RecordsAllParse<F>(events: Run<string, F>)
    requires forall i | 0 <= i < |events.items| :: FromMessage(events.items[i]).Success?
    ensures Records(events) == Run(ParseAll(events.items), LiftFault(events.fault))
  {
    var ms := events.items;
    assert forall i | 0 <= i < |ms| :: ParseStep<F>()(ms[i]).fault.None?;
    BindCompleted(ms, ParseStep<F>());
    FlatItemsParseStep<F>(ms);
  }

  /** The first message that does not parse ends the iteration with its parse error, after
      the records of the messages before it; the source's own exception is never reached. */
  lemma RecordsStopAtBadMessage<F>(events: Run<string, F>, k: nat)
    requires k < |events.items| && FromMessage(events.items[k]).Failure?
    requires forall i | 0 <= i < k :: FromMessage(events.items[i]).Success?
    ensures var ms := events.items;
      Records(events) ==
        Run(ParseAll(ms[..k]), Some(BadMessage(ms[k], FromMessage(ms[k]).error)))
  {
    var ms := events.items;
    var prefix := ms[..k];
    assert forall i | 0 <= i < k :: ParseStep<F>()(ms[i]).fault.None?;
    BindFirstFault(ms, ParseStep<F>(), k);
    assert forall i | 0 <= i < |prefix| :: prefix[i] == ms[i];
    FlatItemsParseStep<F>(prefix);
    assert ParseAll(prefix) + [] == ParseAll(prefix);
  }

  /** The stream's own exception is re-raised after every record, and only when no message
      failed to parse. */
  lemma RecordsOfItems<F>(events: Run<string, F>)
    ensures var parsed := Bind(events.items, ParseStep<F>());
      Records(events) == if parsed.fault.Some? then parsed else Run(parsed.items, LiftFault(events.fault))
  {
    var parsed := Bind(events.items, ParseStep<F>());
    assert parsed.items + [] == parsed.items;
  }

  /** The iteration loop of `_reader`: parse each event in turn, stopping at the first
      exception. */
  method ReadRecords<F>(events: Run<string, F>) returns (records: seq<FlowRecord>, fault: Option<ReaderFault<F>>)
    ensures Run(records, fault) == Records(events)
  {
    var ms := events.items;
    records, fault := [], None;
    var i := 0;
    while i < |ms| && fault.None?
      invariant 0 <= i <= |ms|
      invariant Run(records, fault) == Bind(ms[..i], ParseStep<F>())
    {
      TakeSnoc(ms, i);
      BindSnoc(ms[..i], ms[i], ParseStep<F>());
      // `FlowRecord(event)`: one record, or the exception that ends the generator
      var parsed := ParseStep<F>()(ms[i]);
      records, fault := records + parsed.items, parsed.fault;
      i := i + 1;
    }
    if fault.Some? {
      BindStopped(ms, i, ParseStep<F>());
    } else {
      assert ms[..i] == ms;
    }
    RecordsOfItems(events);
    if fault.None? {
      fault := LiftFault(events.fault);
    }
  }
}
