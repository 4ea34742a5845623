# flowlogs-reader in Dafny

A model of the core of `flowlogs_reader`, the Python library that reads AWS VPC Flow Logs
(version 2 records). There are two sources:

- A CloudWatch Logs group, read through the paginated `filter_log_events` call.
- An S3 bucket, holding gzipped log files under
  `<prefix>/AWSLogs/<account>/vpcflowlogs/<region>/<YYYY>/<MM>/<DD>/<file>`.

The model covers three things:

- The `FlowRecord` codec: parsing a log line, writing it back, and equality and hash.
- The termination rule of the CloudWatch stream read.
- Every step of the S3 archive walk: the location split, the account and region
  allow-lists, the daily date prefixes, key selection by the time stamp in the file name,
  and the header skip. The walk composes these as account, then region, then day, then
  key, then line.

Finally, `BaseReader._reader` turns what either source yields into records. The reader's
iterator state is modelled as a class.

Files and modules:

- `results.dfy` (`Results`): `Option` and `Result`.
- `text.dfy` (`Text`): the string operations the code relies on.
  - Whitespace `split`, `' '.join` and `int()` on decimal text.
  - `rstrip`, `lstrip`, `strip`, `split('/', 1)`, `rsplit(sep, 2)[1]` and `basename`.
- `civil.dfy` (`Civil`): the proleptic Gregorian calendar of `datetime`.
  - Instants are whole microseconds since the epoch, years 1 to 9999.
  - Also day numbers, the next day, start of day, `timegm`, and zero-padded `%Y`, `%m`, `%d`.
- `runs.dfy` (`Runs`): what draining a generator gives, the items and then the exception
  that ended it, if any.
  - Nested `for … yield` loops become `Bind`.
  - A `for` with an `if … yield` becomes `Filter`.
- `flow_record.dfy` (`FlowRecords`): `FlowRecord.__init__`, `from_message`, `to_message`,
  `__eq__` and `__hash__`.
- `cloudwatch_reader.dfy` (`CloudWatchReader`): `FlowLogsReader`'s constructor, with its
  default filter pattern, its pagination arguments and `_read_streams`.
- `s3_reader.dfy` (`S3Reader`): `S3FlowLogsReader`, from its constructor's location split
  to the whole walk, which is also given without errors as a plain nested concatenation
  (`WalkLines`).
  - The bucket is an input: its delimiter listings, its key pages and its already
    decompressed files as lists of lines.
- `base_reader.dfy` (`BaseReader`): `_reader`.
- `readers.dfy` (`Readers`): each reader's `_reader` over its `_read_streams`, and the
  `self.iterator` / `__next__` state.

The loops of the source are methods proved against the specification functions:

- `to_message`'s append loop.
- The page and event loops of both `_read_streams`.
- The allow-list loops.
- The `rrule` loop.
- The key-page loops.
- The `_read_file` loop.
- The `_reader` loop.
- `list(reader)` over `__next__`.

## Model

| member | source | states |
|---|---|---|
| FlowRecords.ParseSucceedsIff | flowlogs_reader/flowlogs_reader.py:64-102 | a token list parses iff it has at least 14 tokens, tokens 0, 10 and 11 are integers whose instants are in `datetime`'s range, and tokens 5-9 are integers unless the status is NODATA/SKIPDATA (both directions) |
| FlowRecords.ParsedFields | flowlogs_reader/flowlogs_reader.py:64-102 | a parsed record holds tokens 0-2 and 13 as read and the instants of tokens 10 and 11; for NODATA/SKIPDATA every traffic field is None, otherwise they are tokens 3-9 and 12 |
| FlowRecords.SentinelIgnoresTraffic | flowlogs_reader/flowlogs_reader.py:84-93 | for NODATA/SKIPDATA, lines that agree on tokens 0, 1, 2, 10, 11 and 13 parse identically, whatever the traffic tokens say |
| FlowRecords.ExtraTokensIgnored | flowlogs_reader/flowlogs_reader.py:65-102 | tokens after the fourteenth do not change the result |
| FlowRecords.SourcePortFailure | flowlogs_reader/flowlogs_reader.py:94-97 | for a non-sentinel status, a `-` source port fails with the `ValueError` of token 5 |
| FlowRecords.TimestampRuleExamples | flowlogs_reader/flowlogs_reader.py:73-82 | 1512564058000 is read as milliseconds, giving 2017-12-06 12:40:58; the 2147483647 threshold is strict |
| FlowRecords.WriteMessage | flowlogs_reader/flowlogs_reader.py:122-133 | the append loop over the slots, then the join, produces `ToMessage(r)` |
| FlowRecords.ToMessageShape | flowlogs_reader/flowlogs_reader.py:122-133 | the output splits back into exactly the 14 slot tokens, each non-empty and space-free; start and end are written as whole epoch seconds |
| FlowRecords.IntTextWritten | flowlogs_reader/flowlogs_reader.py:130 | an integer slot is written as `-` exactly when it is missing or zero, and otherwise as text `int()` reads back as the value |
| FlowRecords.StrTextWritten | flowlogs_reader/flowlogs_reader.py:130 | a text slot is written as itself unless it is missing or empty, and is `-` exactly when it is missing, empty or itself `-` |
| FlowRecords.TokensFalsyRule | flowlogs_reader/flowlogs_reader.py:122-133 | the fourteen tokens in slot order: the falsy rule on every slot except start and end, which read back as their whole epoch seconds |
| FlowRecords.IntTextRoundTrip | flowlogs_reader/flowlogs_reader.py:130 | a present non-zero integer is written as text that `int()` reads back |
| FlowRecords.ReparseToMessage | flowlogs_reader/flowlogs_reader.py:122-137 | a writable record parses back from its own line with every slot equal, except that start and end are reduced to whole seconds (read as milliseconds past 2038-01-19) |
| FlowRecords.ParseToMessage | flowlogs_reader/flowlogs_reader.py:122-137 | round trip on records: `from_message(to_message(r)) == r` for canonical records |
| FlowRecords.ToMessageFromMessage | flowlogs_reader/flowlogs_reader.py:122-137 | round trip on lines: a canonical line (single spaces, seconds timestamps, non-zero canonical integers, `-` traffic tokens under NODATA/SKIPDATA) parses, and `to_message` reproduces it exactly |
| FlowRecords.CanonicalTokensParse | flowlogs_reader/flowlogs_reader.py:64-133 | canonical tokens parse to a canonical record that is written back as the same tokens |
| FlowRecords.ZeroPortNotReparsable | flowlogs_reader/flowlogs_reader.py:122-137 | an OK record with source port 0 is written with `-` there, and the line fails to parse at token 5 |
| FlowRecords.CanonicalParseInjective | flowlogs_reader/flowlogs_reader.py:104-137 | distinct canonical lines give records that do not compare equal |
| FlowRecords.Slots | flowlogs_reader/flowlogs_reader.py:112-113 | the tuple of the 14 slots that `__eq__` and `__hash__` range over |
| FlowRecords.EqualIffSame | flowlogs_reader/flowlogs_reader.py:104-109 | `__eq__` (all 14 slots equal) holds iff the records are the same value |
| FlowRecords.EqualHashAlike | flowlogs_reader/flowlogs_reader.py:104-113 | records that compare equal have equal hashes, for any tuple hash |
| FlowRecords.DuplicatesCollapse | flowlogs_reader/flowlogs_reader.py:104-113 | six records holding three pairwise unequal values, each twice, form a set of three |
| CloudWatchReader.EpochMillis | flowlogs_reader/flowlogs_reader.py:234-235 | a multiple of 1000 equal to whole epoch seconds × 1000, and within one second below the instant |
| CloudWatchReader.EpochMillisMonotone | flowlogs_reader/flowlogs_reader.py:234-235 | a later instant never gives a smaller millisecond bound |
| CloudWatchReader.NewFlowLogsReader | flowlogs_reader/flowlogs_reader.py:223-227 | the reader keeps its log group, its window and the filter pattern, which is `DEFAULT_FILTER_PATTERN` unless the caller passes one |
| CloudWatchReader.Request | flowlogs_reader/flowlogs_reader.py:229-245 | the pagination arguments: log group, interleaving on, a filter pattern exactly when one was given, and each window bound the whole-second multiple of 1000 at or just below the instant in milliseconds, with the bounds' order kept |
| CloudWatchReader.RequestFilterPattern | flowlogs_reader/flowlogs_reader.py:223-232 | by default the request carries `DEFAULT_FILTER_PATTERN`; with `filter_pattern=None` it carries no pattern |
| CloudWatchReader.Outcome | flowlogs_reader/flowlogs_reader.py:251-255 | the read ends normally iff pagination ended normally or raised a PaginationError whose message starts with the duplicate-token text; otherwise the same exception is re-raised |
| CloudWatchReader.EventsOutcomes | flowlogs_reader/flowlogs_reader.py:247-255 | every event of every page in page-then-event order, with the three ways the read can end |
| CloudWatchReader.EventsExamples | flowlogs_reader/flowlogs_reader.py:247-255 | three pages read in full; a duplicate-token error ends the read normally, keeping the events so far; another PaginationError is raised |
| CloudWatchReader.ReadStreams | flowlogs_reader/flowlogs_reader.py:237-255 | the page and event loops, and the `except` clause, produce `Events(pages)` |
| BaseReader.RecordsAllParse | flowlogs_reader/flowlogs_reader.py:199-203 | when every message parses, one record per event, in order, ending the way the source ended |
| BaseReader.RecordsStopAtBadMessage | flowlogs_reader/flowlogs_reader.py:199-203 | the first message that does not parse ends the iteration with its error, after the records before it |
| BaseReader.ReadRecords | flowlogs_reader/flowlogs_reader.py:199-203 | the `_reader` loop produces `Records(events)` |
| BaseReader.RecordsOfItems | flowlogs_reader/flowlogs_reader.py:199-203 | a stream exception surfaces after every record, and only when no message failed to parse first |
| S3Reader.SplitLocation | flowlogs_reader/flowlogs_reader.py:268-269 | the bucket has no `/`, and bucket + `/` + prefix is the location with its trailing slashes replaced by one |
| S3Reader.SplitLocationBucketOnly | flowlogs_reader/flowlogs_reader.py:268-269 | a bare bucket name gives the empty prefix |
| S3Reader.SplitLocationWithPrefix | flowlogs_reader/flowlogs_reader.py:268-269 | `bucket/path` gives `(bucket, path + '/')` |
| S3Reader.AccountListingPrefix | flowlogs_reader/flowlogs_reader.py:343-344 | the stripped prefix followed by `/AWSLogs/`, or just `AWSLogs/` when the prefix is empty |
| S3Reader.AccountListingPrefixOfBucket | flowlogs_reader/flowlogs_reader.py:343-344 | a bucket-only location lists accounts under `AWSLogs/` |
| S3Reader.AccountListingPrefixOfPath | flowlogs_reader/flowlogs_reader.py:343-344 | a prefix `path/` lists accounts under `path/AWSLogs/` |
| S3Reader.NewS3Reader | flowlogs_reader/flowlogs_reader.py:259-276 | the bucket holds no `/` and, joined to the prefix by a `/`, gives the location with its trailing slashes replaced by one; the allow-lists hold exactly the given names; the window is kept |
| S3Reader.NewS3ReaderOfBucket | flowlogs_reader/flowlogs_reader.py:268-269 | a reader on a bare bucket reads that bucket and lists accounts under `AWSLogs/` |
| S3Reader.NewS3ReaderOfPath | flowlogs_reader/flowlogs_reader.py:268-269 | a reader on `bucket/path` reads that bucket and lists accounts under `path/AWSLogs/` |
| S3Reader.FilteredKeeps | flowlogs_reader/flowlogs_reader.py:348-355 | with no allow-list, or when every prefix has a `/`, the yielded prefixes are the listed ones whose `rsplit('/', 2)[1]` is allowed, in listing order and once per listing (`Filter` of the listing); with no allow-list, the whole listing |
| S3Reader.FilteredFault | flowlogs_reader/flowlogs_reader.py:350-351 | under an allow-list, the first listed prefix without a `/` raises IndexError |
| S3Reader.FilteredExample | flowlogs_reader/flowlogs_reader.py:348-355 | of two account prefixes under the allow-list `{a}`, only `…/a/` is yielded |
| S3Reader.FilterPrefixes | flowlogs_reader/flowlogs_reader.py:331-338 | the loop over the listed prefixes with the allow-list test produces `Filtered(prefixes, allow)` |
| S3Reader.GetAccountPrefixes | flowlogs_reader/flowlogs_reader.py:340-355 | listing under the account listing prefix and applying the account allow-list produces `AccountPrefixes(r, b)` |
| S3Reader.GetRegionPrefixes | flowlogs_reader/flowlogs_reader.py:323-338 | listing under `account_prefix + 'vpcflowlogs/'` and applying the region allow-list produces `RegionPrefixes` |
| S3Reader.LStripJoined | flowlogs_reader/flowlogs_reader.py:343-344 | the `lstrip('/')` removes only the joining slash, and only when the stripped prefix is empty |
| S3Reader.StartDate | flowlogs_reader/flowlogs_reader.py:314-319 | the valid date whose day number is the instant's day |
| S3Reader.DailyEnds | flowlogs_reader/flowlogs_reader.py:320 | the dates begin at `dtstart` and end at `until`; there are none iff `dtstart` is after `until` |
| S3Reader.DailyLength | flowlogs_reader/flowlogs_reader.py:320 | one date per day from `dtstart` to `until` inclusive |
| S3Reader.DailyConsecutive | flowlogs_reader/flowlogs_reader.py:320 | each date is the calendar day after the previous one |
| S3Reader.DailyIncreasing | flowlogs_reader/flowlogs_reader.py:320 | the dates are strictly increasing |
| S3Reader.DailyStep | flowlogs_reader/flowlogs_reader.py:320-321 | before `until`, the fragments are `dtstart`'s fragment followed by those from the next day |
| S3Reader.DatePrefixesSpan | flowlogs_reader/flowlogs_reader.py:309-321 | one `YYYY/MM/DD/` fragment per day from the start's date to the end's date inclusive, consecutive; empty when the end's date precedes the start's |
| S3Reader.DatePrefixesDistinct | flowlogs_reader/flowlogs_reader.py:309-321 | no fragment is listed twice |
| S3Reader.DailyFragments | flowlogs_reader/flowlogs_reader.py:320-321 | the `rrule` loop produces `Fragments(Daily(d, until))` |
| S3Reader.DailyLoop | flowlogs_reader/flowlogs_reader.py:320-321 | each date up to `until` contributes its fragment, the loop ends at `until`, and a date past `until` contributes nothing |
| S3Reader.GetDatePrefixes | flowlogs_reader/flowlogs_reader.py:309-321 | the method produces `DatePrefixes(start, end)` |
| S3Reader.StampText | flowlogs_reader/flowlogs_reader.py:300-302 | the `%Y%m%dT%H%MZ` text of a date and time is 14 characters |
| S3Reader.StampFields | flowlogs_reader/flowlogs_reader.py:300-302 | an accepted stamp reads as a valid date, an hour below 24 and a minute below 60 |
| S3Reader.ParseStamp | flowlogs_reader/flowlogs_reader.py:300-303 | `strptime` succeeds exactly when the stamp's fields are accepted |
| S3Reader.StampFieldsOfText | flowlogs_reader/flowlogs_reader.py:300-302 | a written stamp reads back as its date and time (round trip) |
| S3Reader.StampFieldsCanonical | flowlogs_reader/flowlogs_reader.py:300-302 | an accepted stamp is exactly the text of what it reads as (inverse direction) |
| S3Reader.KeyTimeOfDelivered | flowlogs_reader/flowlogs_reader.py:297-302 | a key `dir/head_STAMP_tail` has the stamp's time |
| S3Reader.KeysMembers | flowlogs_reader/flowlogs_reader.py:289-307 | a key is yielded iff it is listed, its stamp parses, and `start_time <= dt < end_time` |
| S3Reader.KeySelectionTooEarly | flowlogs_reader/flowlogs_reader.py:306 | in the 12:00-13:00 window of 2015-08-12, a `…_20150812T1155Z_…` key is not yielded |
| S3Reader.KeySelectionOnTime | flowlogs_reader/flowlogs_reader.py:306 | in the same window, a `…_20150812T1200Z_…` key is yielded |
| S3Reader.KeySelectionNoStamp | flowlogs_reader/flowlogs_reader.py:299-304 | a file name with a single `_` and no 14-character stamp after it, such as `test_file.log.gz`, is skipped in every window |
| S3Reader.InWindow | flowlogs_reader/flowlogs_reader.py:297-306 | the inner-loop test is true iff the key is selected |
| S3Reader.NextKey | flowlogs_reader/flowlogs_reader.py:296-307 | one item of the inner loop extends the selected keys exactly as `Filter` does |
| S3Reader.PageKeys | flowlogs_reader/flowlogs_reader.py:296-307 | the inner loop over one page yields exactly that page's selected keys, in order |
| S3Reader.GetKeys | flowlogs_reader/flowlogs_reader.py:289-307 | the page and item loops yield the selected keys of all pages in listing order |
| S3Reader.FileLinesHeader | flowlogs_reader/flowlogs_reader.py:278-287 | the header line followed by the yielded lines is the whole file; only a missing or empty object raises, and it yields nothing (the empty object as under Python 3.7 and later) |
| S3Reader.ReadFile | flowlogs_reader/flowlogs_reader.py:278-287 | the header skip and line loop produce `FileLines(b, key)` |
| S3Reader.DayRunCompleted | flowlogs_reader/flowlogs_reader.py:361-364 | when every selected key is a file with a header, a day yields the lines after each header, key by key, and ends normally |
| S3Reader.DayRunFileFault | flowlogs_reader/flowlogs_reader.py:362-364 | the first missing or empty selected file ends the read with its error, after the lines of the keys before it |
| S3Reader.RegionRunOfEmptyWindow | flowlogs_reader/flowlogs_reader.py:360-364 | when the end's date precedes the start's, a region yields nothing and ends normally |
| S3Reader.AccountRunOfEmptyWindow | flowlogs_reader/flowlogs_reader.py:359-364 | in that case an account yields nothing |
| S3Reader.MessagesOfEmptyWindow | flowlogs_reader/flowlogs_reader.py:357-364 | in that case the whole read yields nothing |
| S3Reader.DayRunReadable | flowlogs_reader/flowlogs_reader.py:361-364 | a day whose selected keys are all files with a header yields their bodies, key by key, and ends normally |
| S3Reader.RegionRunReadable | flowlogs_reader/flowlogs_reader.py:360-364 | a readable region yields its days' lines in date order and ends normally |
| S3Reader.AccountRunReadable | flowlogs_reader/flowlogs_reader.py:359-364 | an account whose region listing meets the allow-list without an IndexError, and whose regions are readable, yields their lines in listing order and ends normally |
| S3Reader.MessagesReadable | flowlogs_reader/flowlogs_reader.py:357-364 | without allow-list IndexErrors and with every selected key a file with a header, the walk yields every line after each header, account by account, region by region, day by day and key by key (`WalkLines`, which takes the allowed prefixes of each listing in listing order), and ends normally |
| S3Reader.ReadDay | flowlogs_reader/flowlogs_reader.py:361-364 | the key and line loops of one day produce `DayRun` |
| S3Reader.ReadRegion | flowlogs_reader/flowlogs_reader.py:360-364 | the day loop produces `RegionRun` |
| S3Reader.ReadAccount | flowlogs_reader/flowlogs_reader.py:359-364 | the region loop produces `AccountRun`; the region generator's IndexError comes after the regions before it |
| S3Reader.ReadStreams | flowlogs_reader/flowlogs_reader.py:357-364 | the account loop produces `Messages(r, b)`: account, region, day, key, line |
| Readers.CloudWatchRecordsAllParse | flowlogs_reader/flowlogs_reader.py:199-203 | when all messages parse, a CloudWatch reader yields one record per event in page order; it ends normally iff pagination ended or raised the duplicate-token error, and otherwise re-raises |
| Readers.S3RecordsReadable | flowlogs_reader/flowlogs_reader.py:199-203 | when the walk reads without an error and every line parses, an S3 reader yields one record per line of `WalkLines`, in order, and ends normally |
| Readers.S3RecordsOfEmptyWindow | flowlogs_reader/flowlogs_reader.py:199-203 | an S3 reader whose end's date precedes its start's yields no record |
| Readers.IterateCloudWatch | flowlogs_reader/flowlogs_reader.py:199-203 | `_reader` over the CloudWatch `_read_streams` produces `CloudWatchRecords(pages)` |
| Readers.IterateS3 | flowlogs_reader/flowlogs_reader.py:199-203 | `_reader` over the S3 `_read_streams` produces `S3Records(r, b)` |
| Readers.RecordIterator.constructor | flowlogs_reader/flowlogs_reader.py:164-165 | a fresh iterator has handed out nothing |
| Readers.RecordIterator.Next | flowlogs_reader/flowlogs_reader.py:192-193 | the next record in order; after the last one, the generator's exception or StopIteration; StopIteration ever after |
| Readers.Collect | flowlogs_reader/flowlogs_reader.py:189-193 | `list(reader)` on a fresh reader hands out every record in order and ends as the generator ends |
| Text.SplitJoin | flowlogs_reader/flowlogs_reader.py:65 | `' '.join` of non-empty, space-free tokens splits back into those tokens |
| Text.ParseIntToString | flowlogs_reader/flowlogs_reader.py:66 | `int(str(n)) == n` |
| Text.RSplitSecond | flowlogs_reader/flowlogs_reader.py:334 | `rsplit(sep, 2)[1]` raises IndexError iff `sep` does not occur; the part it returns has no `sep` |
| Text.RSplitSecondOfTwo | flowlogs_reader/flowlogs_reader.py:351 | with two or more separators, it is the part between the last two |
| Text.RSplitSecondOfOne | flowlogs_reader/flowlogs_reader.py:301 | with exactly one separator, it is the part after it |
| Text.BaseNameOf | flowlogs_reader/flowlogs_reader.py:298 | `basename(dir + '/' + name) == name` for a name without `/` |
| Civil.InstantOfBefore | flowlogs_reader/flowlogs_reader.py:306 | on one day, an earlier time of day is an earlier instant |
| Civil.DateOfNextDay | flowlogs_reader/flowlogs_reader.py:320 | the date of the next day number is the calendar's next day |
| Civil.DayFragmentInjective | flowlogs_reader/flowlogs_reader.py:321 | `%Y/%m/%d/` determines the date |

## Left out

- boto3 session and client setup, and the region and profile fallbacks: transport plumbing.
- The S3 and CloudWatch calls are inputs.
  - The delimiter listings and key pages are maps in `Bucket`.
  - The log events are pages of messages followed by the paginator's exception, if any.
  - Faults of the listing calls themselves are not modelled.
- CloudWatch events are reduced to their `message`. `_reader` reads nothing else from them.
- gzip decompression, `BytesIO` and UTF-8 decoding: a file is given as its list of decoded lines.
  - How a file is split into lines is not modelled.
  - A file without even a header line is modelled as the `EmptyFile` error.
- S3Reader.FileLines: follows Python 3.7 and later for an object with no lines.
  - There, the `StopIteration` of `next(gz_f)` inside the generator becomes a `RuntimeError` that ends the whole read (the `EmptyFile` error).
  - Under Python 2 and Python 3.5-3.6, which the code also supports, the same `StopIteration` only ends `_read_file`: that object yields nothing and the walk continues with the next key.
  - That older behaviour is not modelled.
- The default window, the last hour before `datetime.utcnow()`: the clock is not modelled, so start and end are parameters.
- Float division of millisecond timestamps: instants are exact integer microseconds.
  - A millisecond token becomes exactly `n * 1000` microseconds.
  - `utcfromtimestamp`'s float rounding is not modelled.
- `int()` is modelled on ASCII decimal text with an optional sign, with a single `_` allowed between two digits.
  - Surrounding whitespace and non-ASCII digits are not modelled.
  - Tokens never carry whitespace after `split()`.
- S3Reader.StampFields: models the strict 14-character `%Y%m%dT%H%MZ` form only, so some stamps that `strptime` accepts, and whose keys `_get_keys` therefore yields, are rejected here:
  - fields without zero padding, such as `2015812T1200Z`;
  - a space-padded field, such as the day in `201508 2T1200Z` (`%d` also matches a space followed by a digit);
  - a lower-case `t` or `z` (`strptime` matches its pattern ignoring case), such as `20150812t1200z`;
  - digits outside ASCII, which `strptime`'s `\d` also matches.
- Civil.Pad4: renders `%Y` as four zero-padded digits. For years below 1000 what `strftime` writes depends on the platform and the Python version; only the padded form is modelled.
- The years `%Y` and `strftime` render are limited to 1..9999, as with `datetime`. `rrule`'s behaviour past 9999-12-31 does not arise.
- The `EPOCH_32_MAX` keyword argument of `FlowRecord.__init__` is fixed at its default 2147483647, the only value `_reader` ever passes.
- FlowRecords.Hash: takes the interpreter's tuple hash as a parameter. The concrete hash values are not modelled.
- `__eq__` against an object that is not a `FlowRecord` (the `AttributeError` branch) is not modelled, because every comparison here is between records.
- `__str__` and `to_dict`: `datetime` string formatting, with nothing to verify.
- Laziness of the generators. Each generator is drained to its items and its ending exception.
  - What the model does not capture is when each listing or download happens relative to the records consumed.
  - `Readers.RecordIterator` holds the drained run of `_reader`.
- `aggregated_records` and the command-line entry point: not part of this model.
