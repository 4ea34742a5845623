/** `FlowLogsReader`: reads flow log events from a CloudWatch Logs group through the paginated
    `filter_log_events` call. The pages are an input here: the events of each page, in order,
    and the exception, if any, that the paginator raised after them. */
module CloudWatchReader {
  import opened Results
  import opened Runs
  import opened Civil

  /** The start of the paginator's message when it sees the same continuation token twice. */
  const DuplicateNextTokenMessage: string := "The same next token was received twice"

  /** The filter pattern used when the caller does not pass one. */
  const DefaultFilterPattern: string :=
    "[version=\"2\", account_id, interface_id, srcaddr, dstaddr, srcport, dstport, protocol, "
    + "packets, bytes, start, end, action, log_status]"

  /** What the paginator can raise while pages are fetched. */
  datatype Fault =
    | PaginationError(message: string)
    | OtherFault(name: string)

  /** A reader's settings once constructed; `filterPattern` is `None` when the caller passed
      `filter_pattern=None`. */
  datatype FlowLogsReader = FlowLogsReader(
    logGroupName: string,
    filterPattern: Option<string>,
    startTime: Instant,
    endTime: Instant)

  /** The arguments of the `filter_log_events` pagination. */
  datatype FilterRequest = FilterRequest(
    logGroupName: string,
    startTime: int,
    endTime: int,
    interleaved: bool,
    filterPattern: Option<string>)

  /** `timegm(t.utctimetuple()) * 1000`: the instant in milliseconds, rounded down to a
      whole second. */
  function EpochMillis(t: Instant): (ms: int)
    ensures ms % 1000 == 0 && ms / 1000 == EpochSeconds(t)
    ensures ms <= t / 1000 < ms + 1000
  {
    var s := EpochSeconds(t);
    assert s * 1000 * 1000 <= t < (s * 1000 + 1000) * 1000;
    MillisOfMicros(t, s * 1000);
    s * 1000
  }

  /** Division by 1000 of a value between two multiples of 1000. */
  lemma MillisOfMicros(t: int, ms: int)
    requires ms * 1000 <= t < (ms + 1000) * 1000
    ensures ms <= t / 1000 < ms + 1000
  {
  }

  /** Later instants never give an earlier millisecond bound. */
  lemma EpochMillisMonotone(a: Instant, b: Instant)
    requires a <= b
    ensures EpochMillis(a) <= EpochMillis(b)
  {
    var sa, sb := EpochSeconds(a), EpochSeconds(b);
    assert sa * MicrosPerSecond <= a <= b < (sb + 1) * MicrosPerSecond;
  }

  /** `FlowLogsReader(log_group_name, filter_pattern=DEFAULT_FILTER_PATTERN, ...)` with the
      window already fixed; `filterPattern := None` is the caller passing `None`. */
  function NewFlowLogsReader(logGroupName: string, startTime: Instant, endTime: Instant,
                             filterPattern: Option<string> := Some(DefaultFilterPattern))
    : (r: FlowLogsReader)
    ensures r.logGroupName == logGroupName && r.filterPattern == filterPattern
    ensures r.startTime == startTime && r.endTime == endTime
  {
    FlowLogsReader(logGroupName, filterPattern, startTime, endTime)
  }

  /** The pagination arguments `__init__` prepares: the log group, interleaving on, a filter
      pattern only when one was given, and the window as whole seconds in milliseconds,
      each bound the multiple of 1000 just at or below the instant's millisecond, so that
      the order of the bounds is kept. */
  function Request(r: FlowLogsReader): (q: FilterRequest)
    ensures q.logGroupName == r.logGroupName && q.interleaved
    ensures q.filterPattern.Some? <==> r.filterPattern.Some?
    ensures q.filterPattern.Some? ==> q.filterPattern == r.filterPattern
    ensures q.startTime % 1000 == 0 && q.startTime <= r.startTime / 1000 < q.startTime + 1000
    ensures q.endTime % 1000 == 0 && q.endTime <= r.endTime / 1000 < q.endTime + 1000
    ensures r.startTime <= r.endTime ==> q.startTime <= q.endTime
  {
    assert r.startTime <= r.endTime ==> EpochMillis(r.startTime) <= EpochMillis(r.endTime) by {
      if r.startTime <= r.endTime {
        EpochMillisMonotone(r.startTime, r.endTime);
      }
    }
    FilterRequest(r.logGroupName, EpochMillis(r.startTime), EpochMillis(r.endTime), true,
                  r.filterPattern)
  }

  /** A reader built without a filter pattern asks for `DEFAULT_FILTER_PATTERN`; one built
      with `filter_pattern=None` sends no pattern at all. */
  lemma RequestFilterPattern(logGroupName: string, startTime: Instant, endTime: Instant)
    ensures Request(NewFlowLogsReader(logGroupName, startTime, endTime)).filterPattern ==
      Some(DefaultFilterPattern)
    ensures Request(NewFlowLogsReader(logGroupName, startTime, endTime, None)).filterPattern.None?
  {
  }

  /** Whether `_read_streams` swallows the exception: only a `PaginationError` whose message
      starts with `DuplicateNextTokenMessage`. */
  predicate Swallowed(fault: Fault) {
    fault.PaginationError? && DuplicateNextTokenMessage <= fault.message
  }

  /** How the iteration ends, given how the pagination ended. */
  function Outcome(fault: Option<Fault>): (r: Option<Fault>)
    ensures r.None? <==> fault.None? || Swallowed(fault.value)
    ensures r.Some? ==> r == fault
  {
    if fault.Some? && Swallowed(fault.value) then None else fault
  }

  /** What draining `_read_streams` produces: every event of every page in page-then-event
      order, then the paginator's exception unless it is swallowed. */
  function Events<T>(pages: Run<seq<T>, Fault>): Run<T, Fault> {
    Run(Flatten(pages.items), Outcome(pages.fault))
  }

  /** The three ways a stream read ends: normally after all events; normally, keeping the
      events so far, on a duplicate-token `PaginationError`; or with any other exception
      re-raised after those events. */
  lemma EventsOutcomes<T>(pages: Run<seq<T>, Fault>)
    ensures Events(pages).items == Flatten(pages.items)
    ensures pages.fault.None? ==> Events(pages).fault.None?
    ensures pages.fault.Some? && Swallowed(pages.fault.value) ==> Events(pages).fault.None?
    ensures pages.fault.Some? && !Swallowed(pages.fault.value) ==> Events(pages).fault == pages.fault
  {
  }

  /** The cases exercised against the reader: three pages read in full; a duplicate-token
      error after one page ends the read normally; a different `PaginationError` is
      raised. */
  lemma EventsExamples()
    ensures Events(Run([[0], [1, 2], [3, 4, 5]], None)) == Run([0, 1, 2, 3, 4, 5], None)
    ensures Events(Run([["e0", "e1"]], Some(PaginationError(DuplicateNextTokenMessage + ": token"))))
            == Run(["e0", "e1"], None)
    ensures Events(Run([["e0"]], Some(PaginationError("other error"))))
            == Run(["e0"], Some(PaginationError("other error")))
  {
    assert Flatten([[0], [1, 2], [3, 4, 5]]) == [0] + Flatten([[1, 2], [3, 4, 5]]);
    assert Flatten([[1, 2], [3, 4, 5]]) == [1, 2] + Flatten([[3, 4, 5]]);
    assert Flatten([["e0", "e1"]]) == ["e0", "e1"] + Flatten<string>([]);
    assert Flatten([["e0"]]) == ["e0"] + Flatten<string>([]);
    assert DuplicateNextTokenMessage <= DuplicateNextTokenMessage + ": token";
    assert !(DuplicateNextTokenMessage <= "other error") by {
      assert "other error"[0] != DuplicateNextTokenMessage[0];
    }
  }

  /** `_read_streams`: the loop over pages and, within each, over its events, with the
      `except PaginationError` clause at the end. */
  method ReadStreams<T>(pages: Run<seq<T>, Fault>) returns (events: seq<T>, fault: Option<Fault>)
    ensures Run(events, fault) == Events(pages)
  {
    var ps := pages.items;
    events := [];
    var i := 0;
    while i < |ps|
      invariant 0 <= i <= |ps|
      invariant events == Flatten(ps[..i])
    {
      var page := ps[i];
      var j := 0;
      while j < |page|
        invariant 0 <= j <= |page|
        invariant events == Flatten(ps[..i]) + page[..j]
      {
        events := events + [page[j]];
        assert page[..j + 1] == page[..j] + [page[j]];
        j := j + 1;
      }
      assert page[..j] == page;
      assert ps[..i + 1] == ps[..i] + [page];
      FlattenSnoc(ps[..i], page);
      i := i + 1;
    }
    assert ps[..i] == ps;
    match pages.fault {
      case None =>
        fault := None;
      case Some(e) =>
        if e.PaginationError? && DuplicateNextTokenMessage <= e.message {
          fault := None;
        } else {
          fault := Some(e);
        }
    }
  }
}
