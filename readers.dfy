/** Iterating over a reader: `BaseReader._reader` applied to each reader's `_read_streams`,
    which is what `__next__` draws from. */
module Readers {
  import opened Results
  import opened Runs
  import opened FlowRecords
  import opened BaseReader
  import CloudWatchReader
  import S3Reader
  import Civil

  /** The records a `FlowLogsReader` yields for the given pagination of its log group. */
  function CloudWatchRecords(pages: Run<seq<string>, CloudWatchReader.Fault>)
    : Run<FlowRecord, ReaderFault<CloudWatchReader.Fault>>
  {
    Records(CloudWatchReader.Events(pages))
  }

  /** The records an `S3FlowLogsReader` yields for the given bucket. */
  function S3Records(r: S3Reader.S3FlowLogsReader, b: S3Reader.Bucket)
    : Run<FlowRecord, ReaderFault<S3Reader.Fault>>
  {
    Records(S3Reader.Messages(r, b))
  }

  /** When every event's message parses, a `FlowLogsReader` yields one record per event in
      page order; it ends normally when the pagination does or raised the duplicate-token
      error, and re-raises any other pagination exception. */
  lemma CloudWatchRecordsAllParse(pages: Run<seq<string>, CloudWatchReader.Fault>)
    requires var ms := Flatten(pages.items);
      forall i | 0 <= i < |ms| :: FromMessage(ms[i]).Success?
    ensures CloudWatchRecords(pages).items == ParseAll(Flatten(pages.items))
    ensures CloudWatchRecords(pages).fault.None? <==>
      pages.fault.None? || CloudWatchReader.Swallowed(pages.fault.value)
    ensures CloudWatchRecords(pages).fault.Some? ==>
      CloudWatchRecords(pages).fault == Some(SourceFault(pages.fault.value))
  {
    var events := CloudWatchReader.Events(pages);
    CloudWatchReader.EventsOutcomes(pages);
    assert forall i | 0 <= i < |events.items| :: FromMessage(events.items[i]).Success?;
    RecordsAllParse(events);
  }

  /** An S3 reader whose window ends on an earlier day than it starts yields no record. */
  lemma S3RecordsOfEmptyWindow(r: S3Reader.S3FlowLogsReader, b: S3Reader.Bucket)
    requires Civil.DayOf(r.endTime) < Civil.DayOf(r.startTime)
    ensures S3Records(r, b).items == []
  {
    S3Reader.MessagesOfEmptyWindow(r, b);
  }

  /** When the whole bucket walk reads without an error and every line parses, an S3 reader
      yields one record per line after each file's header, in walk order, and ends
      normally. */
  lemma S3RecordsReadable(r: S3Reader.S3FlowLogsReader, b: S3Reader.Bucket)
    requires S3Reader.WalkReadable(r, b)
    requires var lines := S3Reader.WalkLines(r, b);
      forall i | 0 <= i < |lines| :: FromMessage(lines[i]).Success?
    ensures S3Records(r, b) == Run(ParseAll(S3Reader.WalkLines(r, b)), None)
  {
    S3Reader.MessagesReadable(r, b);
    RecordsAllParse(S3Reader.Messages(r, b));
  }

  /** Iterating a `FlowLogsReader` to the end: the stream read, then `_reader`. */
  method IterateCloudWatch(pages: Run<seq<string>, CloudWatchReader.Fault>)
    returns (records: seq<FlowRecord>, fault: Option<ReaderFault<CloudWatchReader.Fault>>)
    ensures Run(records, fault) == CloudWatchRecords(pages)
  {
    var events, f := CloudWatchReader.ReadStreams(pages);
    records, fault := ReadRecords(Run(events, f));
  }

  /** Iterating an `S3FlowLogsReader` to the end: the stream read, then `_reader`. */
  method IterateS3(r: S3Reader.S3FlowLogsReader, b: S3Reader.Bucket)
    returns (records: seq<FlowRecord>, fault: Option<ReaderFault<S3Reader.Fault>>)
    ensures Run(records, fault) == S3Records(r, b)
  {
    var lines, f := S3Reader.ReadStreams(r, b);
    records, fault := ReadRecords(Run(lines, f));
  }

  // ---------------------------------------------------------------------------
  // The reader as an iterator
  // ---------------------------------------------------------------------------

  /** What one `next(reader)` gives: a record, the exception that ends the iteration, or
      `StopIteration` once the generator is finished. */
  datatype Step<F> = Yielded(record: FlowRecord) | Raised(fault: ReaderFault<F>) | Stopped

  /** A reader's `self.iterator`, the `_reader()` generator that `__init__` creates and
      `__next__` advances. `run` is everything the generator would yield and how it would
      end; `position` counts the records handed out so far, and `finished` is set once the
      generator has raised or run out. */
  class RecordIterator<F> {
    const run: Run<FlowRecord, ReaderFault<F>>
    var position: nat
    var finished: bool

    ghost predicate Valid()
      reads this
    {
      position <= |run.items| && (finished ==> position == |run.items|)
    }

    /** `self.iterator = self._reader()`: nothing has been drawn yet. */
    constructor (run: Run<FlowRecord, ReaderFault<F>>)
      ensures Valid() && this.run == run && position == 0 && !finished
    {
      this.run := run;
      position := 0;
      finished := false;
    }

    /** `__next__`: the next record in order; after the last one, the generator's exception
      if it had one, otherwise `StopIteration`; and `StopIteration` ever after. */
    method Next() returns (step: Step<F>)
      requires Valid()
      modifies this
      ensures Valid()
      ensures old(position) < |run.items| ==>
        step == Yielded(run.items[old(position)]) && position == old(position) + 1 && !finished
      ensures old(position) == |run.items| && !old(finished) ==>
        finished && position == old(position) &&
        step == (if run.fault.Some? then Raised(run.fault.value) else Stopped)
      ensures old(finished) ==> step == Stopped && finished && position == old(position)
    {
      if position < |run.items| {
        step := Yielded(run.items[position]);
        position := position + 1;
      } else if finished {
        step := Stopped;
      } else {
        finished := true;
        step := if run.fault.Some? then Raised(run.fault.value) else Stopped;
      }
    }
  }

  /** `list(reader)` on a fresh reader: calling `__next__` until it stops hands out every
      record in order and ends the way the generator ends. */
  method Collect<F>(it: RecordIterator<F>) returns (records: seq<FlowRecord>, fault: Option<ReaderFault<F>>)
    requires it.Valid() && it.position == 0 && !it.finished
    modifies it
    ensures Run(records, fault) == it.run
  {
    records, fault := [], None;
    var going := true;
    while going
      invariant it.Valid()
      invariant going ==> !it.finished && fault.None? && records == it.run.items[..it.position]
      invariant !going ==> Run(records, fault) == it.run
      decreases |it.run.items| - it.position, going
    {
      var step := it.Next();
      match step {
        case Yielded(record) =>
          records := records + [record];
        case Raised(f) =>
          assert it.run.items[..it.position] == it.run.items;
          fault, going := Some(f), false;
        case Stopped =>
          assert it.run.items[..it.position] == it.run.items;
          going := false;
      }
    }
  }
}
