/** `S3FlowLogsReader`: reads flow logs archived in an S3 bucket under
    `<prefix>/AWSLogs/<account>/vpcflowlogs/<region>/<YYYY>/<MM>/<DD>/<file>`. The bucket is
    an input: what its delimiter listings, its paginated key listings and its decompressed
    files return. */
module S3Reader {
  import opened Results
  import opened Text
  import opened Civil
  import opened Runs

  /** The exceptions the S3 pipeline can raise. */
  datatype Fault =
    | NoSuchKey(key: string)      // `get_object` of a key the bucket does not hold
    | EmptyFile(key: string)      // `next(gz_f)` on a file without even a header line
    | MissingSlash(prefix: string) // the `IndexError` of `rsplit('/', 2)[1]`

  /** What the bucket's listings and objects return. A prefix missing from a listing map
      lists nothing, as `resp.get('CommonPrefixes', [])` and `page.get('Contents', [])`
      read a response without entries. */
  datatype Bucket = Bucket(
    commonPrefixes: map<string, seq<string>>,
    keyPages: map<string, seq<seq<string>>>,
    files: map<string, seq<string>>)

  /** A reader's settings once constructed. */
  datatype S3FlowLogsReader = S3FlowLogsReader(
    bucket: string,
    prefix: string,
    includeAccounts: Option<set<string>>,
    includeRegions: Option<set<string>>,
    startTime: Instant,
    endTime: Instant)

  /** `list_objects_v2(Delimiter='/', Prefix=prefix)['CommonPrefixes']`. */
  function Listing(b: Bucket, prefix: string): seq<string> {
    if prefix in b.commonPrefixes then b.commonPrefixes[prefix] else []
  }

  /** The `Key`s of the pages of `list_objects_v2(Prefix=prefix)`. */
  function KeyPages(b: Bucket, prefix: string): seq<seq<string>> {
    if prefix in b.keyPages then b.keyPages[prefix] else []
  }

  // ---------------------------------------------------------------------------
  // Location and listing prefixes
  // ---------------------------------------------------------------------------

  /** `(location.rstrip('/') + '/').split('/', 1)`: the bucket name and the key prefix. */
  function SplitLocation(location: string): (parts: (string, string))
    ensures '/' !in parts.0
    ensures parts.0 + "/" + parts.1 == RStrip(location, '/') + "/"
  {
    SplitOnce(RStrip(location, '/') + "/", '/')
  }

  /** A location naming only a bucket has the empty prefix. */
  lemma SplitLocationBucketOnly(location: string)
    requires '/' !in location
    ensures SplitLocation(location) == (location, "")
  {
    RStripNone(location, '/');
    assert location + "/" == location + ['/'] + "";
    SplitOnceAt(location, "", '/');
  }

  /** The bucket is the text before the first `/`, the prefix everything after it with the
      trailing slashes replaced by one. */
  lemma SplitLocationWithPrefix(bucket: string, path: string)
    requires '/' !in bucket && path != [] && path[|path| - 1] != '/'
    ensures SplitLocation(bucket + "/" + path) == (bucket, path + "/")
  {
    var location := bucket + "/" + path;
    RStripNone(location, '/');
    assert location + "/" == bucket + ['/'] + (path + "/");
    SplitOnceAt(bucket, path + "/", '/');
  }

  /** `(prefix.strip('/') + '/AWSLogs/').lstrip('/')`: the listing prefix for accounts. */
  function AccountListingPrefix(prefix: string): (p: string)
    ensures var core := Strip(prefix, '/');
      p == (if core == [] then "" else core + "/") + "AWSLogs/"
  {
    var core := Strip(prefix, '/');
    LStripJoined(core, "AWSLogs/");
    LStrip(core + "/" + "AWSLogs/", '/')
  }

  /** Left-stripping `core/tail` when neither part starts with a `/` removes only the joining
      slash, and only when `core` is empty. */
  lemma LStripJoined(core: string, tail: string)
    requires core == [] || core[0] != '/'
    requires tail == [] || tail[0] != '/'
    ensures LStrip(core + "/" + tail, '/') == (if core == [] then "" else core + "/") + tail
  {
    var s := core + "/" + tail;
    if core == [] {
      assert s[0] == '/' && s[1..] == tail;
      LStripNone(tail, '/');
      assert LStrip(s, '/') == LStrip(s[1..], '/');
      assert "" + tail == tail;
    } else {
      assert s[0] == core[0];
      LStripNone(s, '/');
      assert s == core + "/" + tail;
    }
  }

  /** A location naming only a bucket lists accounts under `AWSLogs/`. */
  lemma AccountListingPrefixOfBucket()
    ensures AccountListingPrefix("") == "AWSLogs/"
  {
  }

  /** A location `bucket/some/dir` lists accounts under `some/dir/AWSLogs/`. */
  lemma AccountListingPrefixOfPath(path: string)
    requires path != [] && path[0] != '/' && path[|path| - 1] != '/'
    ensures AccountListingPrefix(path + "/") == path + "/AWSLogs/"
  {
    assert (path + "/")[..|path|] == path;
    RStripNone(path, '/');
    assert RStrip(path + "/", '/') == path;
  }

  /** `S3FlowLogsReader(location, include_accounts=None, include_regions=None, ...)` with the
      window already fixed: the bucket and prefix come from splitting the location, and the
      allow-lists become sets. */
  function NewS3Reader(location: string, startTime: Instant, endTime: Instant,
                       includeAccounts: Option<seq<string>> := None,
                       includeRegions: Option<seq<string>> := None): (r: S3FlowLogsReader)
    ensures '/' !in r.bucket && r.bucket + "/" + r.prefix == RStrip(location, '/') + "/"
    ensures r.includeAccounts.Some? <==> includeAccounts.Some?
    ensures includeAccounts.Some? ==>
      forall a :: a in r.includeAccounts.value <==> a in includeAccounts.value
    ensures r.includeRegions.Some? <==> includeRegions.Some?
    ensures includeRegions.Some? ==>
      forall g :: g in r.includeRegions.value <==> g in includeRegions.value
    ensures r.startTime == startTime && r.endTime == endTime
  {
    var (bucket, prefix) := SplitLocation(location);
    S3FlowLogsReader(bucket, prefix,
      if includeAccounts.None? then None else Some(set a | a in includeAccounts.value),
      if includeRegions.None? then None else Some(set g | g in includeRegions.value),
      startTime, endTime)
  }

  /** A reader on a bare bucket reads that bucket and lists accounts under `AWSLogs/`. */
  lemma NewS3ReaderOfBucket(bucket: string, startTime: Instant, endTime: Instant)
    requires '/' !in bucket
    ensures NewS3Reader(bucket, startTime, endTime).bucket == bucket
    ensures AccountListingPrefix(NewS3Reader(bucket, startTime, endTime).prefix) == "AWSLogs/"
  {
    SplitLocationBucketOnly(bucket);
    AccountListingPrefixOfBucket();
  }

  /** A reader on `bucket/path` reads that bucket and lists accounts under
      `path/AWSLogs/`. */
  lemma NewS3ReaderOfPath(bucket: string, path: string, startTime: Instant, endTime: Instant)
    requires '/' !in bucket && path != [] && path[0] != '/' && path[|path| - 1] != '/'
    ensures NewS3Reader(bucket + "/" + path, startTime, endTime).bucket == bucket
    ensures AccountListingPrefix(NewS3Reader(bucket + "/" + path, startTime, endTime).prefix) ==
      path + "/AWSLogs/"
  {
    SplitLocationWithPrefix(bucket, path);
    AccountListingPrefixOfPath(path);
  }

  // ---------------------------------------------------------------------------
  // Allow-lists
  // ---------------------------------------------------------------------------

  /** Whether a listed prefix passes the allow-list, when it has a `/` to split on. */
  predicate Allowed(prefix: string, allow: Option<set<string>>) {
    allow.None? || (RSplitSecond(prefix, '/').Some? && RSplitSecond(prefix, '/').value in allow.value)
  }

  /** One listed prefix under an allow-list: kept, dropped, or the `IndexError`. */
  function KeepStep(allow: Option<set<string>>): string -> Run<string, Fault> {
    p => if allow.None? then Run([p], None)
         else match RSplitSecond(p, '/')
           case None => Run([], Some(MissingSlash(p)))
           case Some(name) => if name in allow.value then Run([p], None) else Run([], None)
  }

  /** The prefixes the account or region generator yields from a listing. */
  function Filtered(prefixes: seq<string>, allow: Option<set<string>>): Run<string, Fault> {
    Bind(prefixes, KeepStep(allow))
  }

  lemma {:induction false} FlatItemsKeepStep(prefixes: seq<string>, allow: Option<set<string>>)
    requires allow.None? || forall i | 0 <= i < |prefixes| :: '/' in prefixes[i]
    ensures forall p :: p in FlatItems(prefixes, KeepStep(allow)) <==> p in prefixes && Allowed(p, allow)
    decreases |prefixes|
  {
    if prefixes != [] {
      FlatItemsKeepStep(prefixes[1..], allow);
      assert prefixes == [prefixes[0]] + prefixes[1..];
    }
  }

  /** `Allowed` as the test of a `for ... if` filter. */
  function AllowedBy(allow: Option<set<string>>): string -> bool {
    p => Allowed(p, allow)
  }

  lemma {:induction false} FlatItemsKeepOrder(prefixes: seq<string>, allow: Option<set<string>>)
    requires allow.None? || forall i | 0 <= i < |prefixes| :: '/' in prefixes[i]
    ensures FlatItems(prefixes, KeepStep(allow)) == Filter(prefixes, AllowedBy(allow))
    decreases |prefixes|
  {
    if prefixes != [] {
      var init, x := prefixes[..|prefixes| - 1], prefixes[|prefixes| - 1];
      assert forall i | 0 <= i < |init| :: init[i] == prefixes[i];
      FlatItemsKeepOrder(init, allow);
      assert prefixes == init + [x];
      FlatItemsSnoc(init, x, KeepStep(allow));
    }
  }

  /** When every listed prefix has a `/` (or there is no allow-list) the generator ends
      normally, yielding the allowed prefixes in listing order, each as often as it is
      listed; without an allow-list it yields the whole listing. */
  lemma FilteredKeeps(prefixes: seq<string>, allow: Option<set<string>>)
    requires allow.None? || forall i | 0 <= i < |prefixes| :: '/' in prefixes[i]
    ensures Filtered(prefixes, allow).fault.None?
    ensures forall p :: p in Filtered(prefixes, allow).items <==> p in prefixes && Allowed(p, allow)
    ensures allow.None? ==> Filtered(prefixes, allow).items == prefixes
    ensures Filtered(prefixes, allow).items == Filter(prefixes, AllowedBy(allow))
  {
    assert forall i | 0 <= i < |prefixes| :: KeepStep(allow)(prefixes[i]).fault.None?;
    BindCompleted(prefixes, KeepStep(allow));
    FlatItemsKeepStep(prefixes, allow);
    FlatItemsKeepOrder(prefixes, allow);
    if allow.None? {
      FlatItemsAll(prefixes);
    }
  }

  lemma {:induction false} FlatItemsAll(prefixes: seq<string>)
    ensures FlatItems(prefixes, KeepStep(None)) == prefixes
    decreases |prefixes|
  {
    if prefixes != [] {
      FlatItemsAll(prefixes[1..]);
      assert prefixes == [prefixes[0]] + prefixes[1..];
    }
  }

  /** Under an allow-list, the first listed prefix without a `/` raises `IndexError`. */
  lemma FilteredFault(prefixes: seq<string>, allow: Option<set<string>>, k: nat)
    requires allow.Some? && k < |prefixes| && '/' !in prefixes[k]
    requires forall i | 0 <= i < k :: '/' in prefixes[i]
    ensures Filtered(prefixes, allow).fault == Some(MissingSlash(prefixes[k]))
  {
    assert forall i | 0 <= i < k :: KeepStep(allow)(prefixes[i]).fault.None?;
    BindFirstFault(prefixes, KeepStep(allow), k);
  }

  /** The listing of the reader's test, `AWSLogs/123456789010/` then `AWSLogs/123456789011/`
      under the allow-list `{'123456789010'}`, with the names left open: only the allowed
      account's prefix is yielded and the generator ends normally. */
  lemma FilteredExample(root: string, allowed: string, other: string)
    requires '/' !in allowed && '/' !in other && allowed != other
    ensures Filtered([root + "/" + allowed + "/", root + "/" + other + "/"], Some({allowed}))
            == Run([root + "/" + allowed + "/"], None)
  {
    var p0, p1 := root + "/" + allowed + "/", root + "/" + other + "/";
    assert p0 == root + ['/'] + allowed + ['/'] + "";
    assert p1 == root + ['/'] + other + ['/'] + "";
    RSplitSecondOfTwo(root, allowed, "", '/');
    RSplitSecondOfTwo(root, other, "", '/');
    var f := KeepStep(Some({allowed}));
    assert f(p0) == Run([p0], None);
    assert f(p1) == Run([], None);
    assert Bind([p0], f) == Run([p0], None) by {
      BindSnoc([], p0, f);
      assert [] + [p0] == [p0];
    }
    BindSnoc([p0], p1, f);
    assert [p0] + [p1] == [p0, p1];
    assert [p0] + [] == [p0];
  }

  /** `_get_account_prefixes` and `_get_region_prefixes` after the listing call: the loop
      over the listed prefixes with the allow-list test. */
  method FilterPrefixes(prefixes: seq<string>, allow: Option<set<string>>)
    returns (kept: seq<string>, fault: Option<Fault>)
    ensures Run(kept, fault) == Filtered(prefixes, allow)
  {
    kept, fault := [], None;
    var i := 0;
    while i < |prefixes| && fault.None?
      invariant 0 <= i <= |prefixes|
      invariant Run(kept, fault) == Bind(prefixes[..i], KeepStep(allow))
    {
      var prefix := prefixes[i];
      assert prefixes[..i + 1] == prefixes[..i] + [prefix];
      BindSnoc(prefixes[..i], prefix, KeepStep(allow));
      if allow.None? {
        kept := kept + [prefix];
      } else {
        match RSplitSecond(prefix, '/') {
          case None =>
            fault := Some(MissingSlash(prefix));
          case Some(name) =>
            if name in allow.value {
              kept := kept + [prefix];
            } else {
              assert kept + [] == kept;
            }
        }
      }
      i := i + 1;
    }
    if fault.Some? {
      BindStopped(prefixes, i, KeepStep(allow));
    } else {
      assert prefixes[..i] == prefixes;
    }
  }

  /** `_get_account_prefixes`. */
  function AccountPrefixes(r: S3FlowLogsReader, b: Bucket): Run<string, Fault> {
    Filtered(Listing(b, AccountListingPrefix(r.prefix)), r.includeAccounts)
  }

  /** `_get_region_prefixes(account_prefix)`. */
  function RegionPrefixes(r: S3FlowLogsReader, b: Bucket, accountPrefix: string): Run<string, Fault> {
    Filtered(Listing(b, accountPrefix + "vpcflowlogs/"), r.includeRegions)
  }

  // ---------------------------------------------------------------------------
  // Day fragments
  // ---------------------------------------------------------------------------

  /** On or before `until`, compared as dates: `rrule` stops at the first date past it. */
  predicate NotAfter(d: Date, until: Date) {
    d == until || Before(d, until)
  }

  /** Before a valid date there is a next day, valid and numbered one higher, that is still
      not past it. */
  lemma StepBefore(d: Date, until: Date)
    requires ValidDate(d) && ValidDate(until) && Before(d, until)
    ensures ValidDate(NextDay(d)) && DayNumber(NextDay(d)) == DayNumber(d) + 1
    ensures DayNumber(d) < DayNumber(until)
    ensures NotAfter(NextDay(d), until)
  {
    assert d != Date(9999, 12, 31);
    NextDayNumber(d);
    DayNumberMonotone(d, until);
  }

  /** `rrule(DAILY, dtstart=d, until=until)`: `d`, then each next calendar day up to and
      including `until`; nothing when `d` is past `until`. */
  function Daily(d: Date, until: Date): (ds: seq<Date>)
    requires ValidDate(d) && ValidDate(until)
    ensures forall i | 0 <= i < |ds| :: ValidDate(ds[i])
    decreases DayNumber(until) - DayNumber(d)
  {
    if !NotAfter(d, until) then []
    else if d == until then [d]
    else
      StepBefore(d, until);
      [d] + Daily(NextDay(d), until)
  }

  /** `dt.strftime('%Y/%m/%d/')` of each date. */
  function Fragments(ds: seq<Date>): (r: seq<string>)
    requires forall i | 0 <= i < |ds| :: ValidDate(ds[i])
    ensures |r| == |ds|
  {
    if ds == [] then [] else [DayFragment(ds[0])] + Fragments(ds[1..])
  }

  lemma {:induction false} FragmentsAt(ds: seq<Date>, i: nat)
    requires forall i | 0 <= i < |ds| :: ValidDate(ds[i])
    requires i < |ds|
    ensures Fragments(ds)[i] == DayFragment(ds[i])
    decreases i
  {
    if i > 0 {
      FragmentsAt(ds[1..], i - 1);
    }
  }

  /** The date of the start's midnight, `dtstart`. */
  function StartDate(start: Instant): (d: Date)
    ensures ValidDate(d) && DayNumber(d) == DayOf(start)
  {
    DateOfDay(DayOf(start))
  }

  /** `_get_date_prefixes`: one fragment per day from the start's date to the end's date. */
  function DatePrefixes(start: Instant, end: Instant): seq<string> {
    Fragments(Daily(StartDate(start), StartDate(end)))
  }

  /** The dates begin at `d` and end at `until`, and there are none exactly when `d` is
      past `until`. */
  lemma {:induction false} DailyEnds(d: Date, until: Date)
    requires ValidDate(d) && ValidDate(until)
    ensures Daily(d, until) == [] <==> !NotAfter(d, until)
    ensures Daily(d, until) != [] ==> Daily(d, until)[0] == d
    ensures Daily(d, until) != [] ==> Daily(d, until)[|Daily(d, until)| - 1] == until
    decreases DayNumber(until) - DayNumber(d)
  {
    if NotAfter(d, until) && d != until {
      StepBefore(d, until);
      DailyEnds(NextDay(d), until);
    }
  }

  /** There is one date per day number from `d`'s to `until`'s. */
  lemma {:induction false} DailyLength(d: Date, until: Date)
    requires ValidDate(d) && ValidDate(until)
    ensures |Daily(d, until)| == if NotAfter(d, until) then DayNumber(until) - DayNumber(d) + 1 else 0
    decreases DayNumber(until) - DayNumber(d)
  {
    if NotAfter(d, until) && d != until {
      StepBefore(d, until);
      DailyLength(NextDay(d), until);
    }
  }

  /** Each date is the calendar day after the one before it. */
  lemma {:induction false} DailyConsecutive(d: Date, until: Date)
    requires ValidDate(d) && ValidDate(until)
    ensures forall i, j | 0 <= i < |Daily(d, until)| && 0 <= j < |Daily(d, until)| && j == i + 1 ::
      Daily(d, until)[j] == NextDay(Daily(d, until)[i])
    decreases DayNumber(until) - DayNumber(d)
  {
    if NotAfter(d, until) && d != until {
      StepBefore(d, until);
      var rest := Daily(NextDay(d), until);
      DailyConsecutive(NextDay(d), until);
      DailyEnds(NextDay(d), until);
      var ds := Daily(d, until);
      forall i, j | 0 <= i < |ds| && 0 <= j < |ds| && j == i + 1
        ensures ds[j] == NextDay(ds[i])
      {
        if i > 0 {
          assert ds[i] == rest[i - 1] && ds[j] == rest[j - 1];
        }
      }
    }
  }

  /** Each date is later than every date before it. */
  lemma {:induction false} DailyIncreasing(d: Date, until: Date)
    requires ValidDate(d) && ValidDate(until)
    ensures forall i, j | 0 <= i < j < |Daily(d, until)| :: Before(Daily(d, until)[i], Daily(d, until)[j])
    decreases DayNumber(until) - DayNumber(d)
  {
    if NotAfter(d, until) && d != until {
      StepBefore(d, until);
      var rest := Daily(NextDay(d), until);
      DailyIncreasing(NextDay(d), until);
      DailyEnds(NextDay(d), until);
      var ds := Daily(d, until);
      forall i, j | 0 <= i < j < |ds|
        ensures Before(ds[i], ds[j])
      {
        if i == 0 {
          assert Before(d, NextDay(d));
          if j > 1 {
            assert Before(rest[0], rest[j - 1]);
          }
        } else {
          assert Before(rest[i - 1], rest[j - 1]);
        }
      }
    }
  }

  /** `_get_date_prefixes` covers the days from the start's date to the end's date, one
      fragment each, consecutive and in order; none when the end falls on an earlier day. */
  lemma DatePrefixesSpan(start: Instant, end: Instant)
    ensures var ds, r := Daily(StartDate(start), StartDate(end)), DatePrefixes(start, end);
      && |r| == (if DayOf(start) <= DayOf(end) then DayOf(end) - DayOf(start) + 1 else 0)
      && (r != [] ==> ds[0] == StartDate(start) && ds[|ds| - 1] == StartDate(end))
      && (forall i, j | 0 <= i < |ds| && 0 <= j < |ds| && j == i + 1 :: ds[j] == NextDay(ds[i]))
      && (forall i | 0 <= i < |r| :: r[i] == DayFragment(ds[i]))
  {
    var d, until := StartDate(start), StartDate(end);
    var ds := Daily(d, until);
    DailyLength(d, until);
    NotAfterNumber(d, until);
    DailyEnds(d, until);
    DailyConsecutive(d, until);
    forall i | 0 <= i < |ds|
      ensures DatePrefixes(start, end)[i] == DayFragment(ds[i])
    {
      FragmentsAt(ds, i);
    }
  }

  /** No fragment is listed twice. */
  lemma DatePrefixesDistinct(start: Instant, end: Instant)
    ensures forall i, j | 0 <= i < j < |DatePrefixes(start, end)| ::
      DatePrefixes(start, end)[i] != DatePrefixes(start, end)[j]
  {
    var d, until := StartDate(start), StartDate(end);
    assert DatePrefixes(start, end) == Fragments(Daily(d, until));
    DailyDistinct(d, until);
  }

  lemma DailyDistinct(d: Date, until: Date)
    requires ValidDate(d) && ValidDate(until)
    ensures forall i, j | 0 <= i < j < |Fragments(Daily(d, until))| ::
      Fragments(Daily(d, until))[i] != Fragments(Daily(d, until))[j]
  {
    var ds := Daily(d, until);
    DailyIncreasing(d, until);
    FragmentsDistinct(ds);
  }

  /** Dates in increasing order have pairwise distinct fragments. */
  lemma FragmentsDistinct(ds: seq<Date>)
    requires forall i | 0 <= i < |ds| :: ValidDate(ds[i])
    requires forall i, j | 0 <= i < j < |ds| :: Before(ds[i], ds[j])
    ensures forall i, j | 0 <= i < j < |Fragments(ds)| :: Fragments(ds)[i] != Fragments(ds)[j]
  {
    var r := Fragments(ds);
    forall i, j | 0 <= i < j < |r|
      ensures r[i] != r[j]
    {
      FragmentsAt(ds, i);
      FragmentsAt(ds, j);
      if r[i] == r[j] {
        DayFragmentInjective(ds[i], ds[j]);
      }
    }
  }

  lemma NotAfterNumber(d: Date, until: Date)
    requires ValidDate(d) && ValidDate(until)
    ensures NotAfter(d, until) <==> DayNumber(d) <= DayNumber(until)
  {
    if Before(d, until) {
      DayNumberMonotone(d, until);
    } else if d != until {
      assert Before(until, d);
      DayNumberMonotone(until, d);
    }
  }

  /** Before `until`, the dates from `d` are `d` followed by the dates from the next day. */
  lemma DailyStep(d: Date, until: Date)
    requires ValidDate(d) && ValidDate(until) && Before(d, until)
    ensures ValidDate(NextDay(d))
    ensures Fragments(Daily(d, until)) == [DayFragment(d)] + Fragments(Daily(NextDay(d), until))
  {
    StepBefore(d, until);
    var rest := Daily(NextDay(d), until);
    assert Daily(d, until) == [d] + rest;
    assert ([d] + rest)[1..] == rest;
  }

  /** The loop over `rrule(DAILY, dtstart=d, until=until)`: format the date, then step to
      the next day, until the date passes `until`. */
  method DailyFragments(d: Date, until: Date) returns (fragments: seq<string>)
    requires ValidDate(d) && ValidDate(until)
    ensures fragments == Fragments(Daily(d, until))
  {
    var dt := d;
    fragments := [];
    while NotAfter(dt, until)
      invariant ValidDate(dt)
      invariant fragments + Fragments(Daily(dt, until)) == Fragments(Daily(d, until))
      decreases DayNumber(until) - DayNumber(dt)
    {
      DailyLoop(fragments, dt, until);
      if dt == until {
        fragments := fragments + [DayFragment(dt)];
        return;
      }
      fragments := fragments + [DayFragment(dt)];
      dt := NextDay(dt);
    }
    DailyLoop(fragments, dt, until);
  }

  /** One turn of the loop in `DailyFragments`: the date is emitted and the loop either ends
      at `until` or moves to the next day, which is one closer to `until`; a date past
      `until` contributes nothing. */
  lemma DailyLoop(fragments: seq<string>, dt: Date, until: Date)
    requires ValidDate(dt) && ValidDate(until)
    ensures !NotAfter(dt, until) ==> fragments + Fragments(Daily(dt, until)) == fragments
    ensures dt == until ==> fragments + Fragments(Daily(dt, until)) == fragments + [DayFragment(dt)]
    ensures Before(dt, until) ==>
      ValidDate(NextDay(dt)) && DayNumber(NextDay(dt)) == DayNumber(dt) + 1 &&
      DayNumber(dt) < DayNumber(until) &&
      fragments + Fragments(Daily(dt, until)) ==
        (fragments + [DayFragment(dt)]) + Fragments(Daily(NextDay(dt), until))
  {
    if !NotAfter(dt, until) {
      assert fragments + [] == fragments;
    } else if dt == until {
      assert Daily(dt, until) == [dt];
    } else {
      DailyStep(dt, until);
      StepBefore(dt, until);
    }
  }

  /** `_get_date_prefixes`: the daily fragments from the start's midnight to the end's. */
  method GetDatePrefixes(start: Instant, end: Instant) returns (fragments: seq<string>)
    ensures fragments == DatePrefixes(start, end)
  {
    fragments := DailyFragments(StartDate(start), StartDate(end));
  }

  // ---------------------------------------------------------------------------
  // Keys in the time window
  // ---------------------------------------------------------------------------

  /** A key's time stamp as written: `YYYYMMDDTHHMMZ`. */
  function StampText(d: Date, hour: int, minute: int): (s: string)
    requires ValidDate(d) && 0 <= hour < 24 && 0 <= minute < 60
    ensures |s| == 14
  {
    Pad4(d.year) + Pad2(d.month) + Pad2(d.day) + "T" + Pad2(hour) + Pad2(minute) + "Z"
  }

  /** The date, hour and minute `strptime(s, '%Y%m%dT%H%MZ')` reads from a stamp written
      in full: four digits of year, two each of month, day, hour and minute, a `T` and a
      `Z` in their places; `None` is the `ValueError` for anything else. */
  function StampFields(s: string): (r: Option<(Date, int, int)>)
    ensures r.Some? ==> ValidDate(r.value.0) && 0 <= r.value.1 < 24 && 0 <= r.value.2 < 60
  {
    if |s| != 14 || s[8] != 'T' || s[13] != 'Z' then None
    else
      var ys, ms, ds, hs, ns := s[0..4], s[4..6], s[6..8], s[9..11], s[11..13];
      if !(AllDigits(ys) && AllDigits(ms) && AllDigits(ds) && AllDigits(hs) && AllDigits(ns)) then None
      else
        var date := Date(DecimalValue(ys), DecimalValue(ms), DecimalValue(ds));
        var hour, minute := DecimalValue(hs), DecimalValue(ns);
        if ValidDate(date) && hour < 24 && minute < 60 then Some((date, hour, minute)) else None
  }

  /** `datetime.strptime(s, '%Y%m%dT%H%MZ')`. */
  function ParseStamp(s: string): (t: Option<Instant>)
    ensures t.Some? <==> StampFields(s).Some?
  {
    match StampFields(s)
    case None => None
    case Some((d, hour, minute)) => Some(InstantOf(d, hour, minute, 0))
  }

  /** The stamp written for a date and time reads back as that date and time. */
  lemma StampFieldsOfText(d: Date, hour: int, minute: int)
    requires ValidDate(d) && 0 <= hour < 24 && 0 <= minute < 60
    ensures StampFields(StampText(d, hour, minute)) == Some((d, hour, minute))
    ensures ParseStamp(StampText(d, hour, minute)) == Some(InstantOf(d, hour, minute, 0))
  {
    var s := StampText(d, hour, minute);
    assert s[0..4] == Pad4(d.year) && s[4..6] == Pad2(d.month) && s[6..8] == Pad2(d.day);
    assert s[8] == 'T' && s[9..11] == Pad2(hour) && s[11..13] == Pad2(minute) && s[13] == 'Z';
    Pad4Value(d.year);
    Pad2Value(d.month);
    Pad2Value(d.day);
    Pad2Value(hour);
    Pad2Value(minute);
  }

  /** A stamp is accepted only as the full text of the date and time it reads as. */
  lemma StampFieldsCanonical(s: string)
    requires StampFields(s).Some?
    ensures var (d, hour, minute) := StampFields(s).value;
      ValidDate(d) && 0 <= hour < 24 && 0 <= minute < 60 && s == StampText(d, hour, minute)
  {
    Pad4OfDigits(s[0..4]);
    Pad2OfDigits(s[4..6]);
    Pad2OfDigits(s[6..8]);
    Pad2OfDigits(s[9..11]);
    Pad2OfDigits(s[11..13]);
    var (d, hour, minute) := StampFields(s).value;
    assert s == s[0..4] + s[4..6] + s[6..8] + [s[8]] + s[9..11] + s[11..13] + [s[13]];
  }

  /** The time stamp of a key's file name, `basename(key).rsplit('_', 2)[1]` read by
      `strptime`; `None` when either raises (`IndexError`, `ValueError`). */
  function KeyTime(key: string): Option<Instant> {
    match RSplitSecond(BaseName(key), '_')
    case None => None
    case Some(stamp) => ParseStamp(stamp)
  }

  /** Whether `_get_keys` yields `key`: its time stamp parses and lies in
      `[start_time, end_time)`. */
  predicate Selected(key: string, start: Instant, end: Instant) {
    KeyTime(key).Some? && start <= KeyTime(key).value < end
  }

  function KeepKey(start: Instant, end: Instant): string -> bool {
    key => Selected(key, start, end)
  }

  /** `_get_keys(prefix)`: the selected keys of every page of the listing, in listing
      order. */
  function Keys(b: Bucket, prefix: string, start: Instant, end: Instant): seq<string> {
    Filter(Flatten(KeyPages(b, prefix)), KeepKey(start, end))
  }

  /** A key is yielded exactly when it is listed and selected. */
  lemma KeysMembers(b: Bucket, prefix: string, start: Instant, end: Instant)
    ensures forall k :: k in Keys(b, prefix, start, end) <==>
      k in Flatten(KeyPages(b, prefix)) && Selected(k, start, end)
  {
    FilterMembers(Flatten(KeyPages(b, prefix)), KeepKey(start, end));
  }

  /** A key whose file name is written the way flow logs are delivered is selected exactly
      when its stamp's time lies in the window. */
  lemma KeyTimeOfDelivered(dir: string, head: string, d: Date, hour: int, minute: int, tail: string)
    requires ValidDate(d) && 0 <= hour < 24 && 0 <= minute < 60
    requires '/' !in head && '_' !in tail && '/' !in tail
    ensures KeyTime(dir + "/" + head + "_" + StampText(d, hour, minute) + "_" + tail)
            == Some(InstantOf(d, hour, minute, 0))
  {
    var stamp := StampText(d, hour, minute);
    StampTextPlain(d, hour, minute);
    KeyBaseName(dir, head, stamp, tail);
    RSplitSecondOfTwo(head, stamp, tail, '_');
    StampFieldsOfText(d, hour, minute);
  }

  /** The file name of a key `dir/head_stamp_tail`. */
  lemma KeyBaseName(dir: string, head: string, stamp: string, tail: string)
    requires '/' !in head && '/' !in stamp && '/' !in tail
    ensures BaseName(dir + "/" + head + "_" + stamp + "_" + tail) == head + "_" + stamp + "_" + tail
  {
    var name := head + "_" + stamp + "_" + tail;
    assert '/' !in name;
    BaseNameOf(dir, name);
    assert dir + "/" + head + "_" + stamp + "_" + tail == dir + "/" + name;
  }

  /** A stamp holds neither a `_` nor a `/`: only digits, a `T` and a `Z`. */
  lemma StampTextPlain(d: Date, hour: int, minute: int)
    requires ValidDate(d) && 0 <= hour < 24 && 0 <= minute < 60
    ensures '_' !in StampText(d, hour, minute) && '/' !in StampText(d, hour, minute)
  {
    var s := StampText(d, hour, minute);
    var y, mo, da, h, mi := Pad4(d.year), Pad2(d.month), Pad2(d.day), Pad2(hour), Pad2(minute);
    assert s == y + mo + da + "T" + h + mi + "Z";
    forall i | 0 <= i < |s|
      ensures s[i] != '_' && s[i] != '/'
    {
      if i < 4 {
        assert s[i] == y[i];
      } else if i < 6 {
        assert s[i] == mo[i - 4];
      } else if i < 8 {
        assert s[i] == da[i - 6];
      } else if i == 8 {
        assert s[i] == 'T';
      } else if i < 11 {
        assert s[i] == h[i - 9];
      } else if i < 13 {
        assert s[i] == mi[i - 11];
      }
    }
  }

  /** The keys of the S3 reader's test, with the window 12:00 to 13:00 on 2015-08-12 and
      the delivery directory and the parts of the file name around the stamp left open: the
      11:55 file is too early, */
  lemma KeySelectionTooEarly(dir: string, head: string, tail: string)
    requires '/' !in head && '_' !in tail && '/' !in tail
    ensures !Selected(dir + "/" + head + "_" + "20150812T1155Z" + "_" + tail,
                      InstantOf(Date(2015, 8, 12), 12, 0, 0), InstantOf(Date(2015, 8, 12), 13, 0, 0))
  {
    var d := Date(2015, 8, 12);
    StampTextExample();
    KeyTimeOfDelivered(dir, head, d, 11, 55, tail);
    InstantOfBefore(d, 11, 55, 12, 0);
  }

  /** the 12:00 file is on time, */
  lemma KeySelectionOnTime(dir: string, head: string, tail: string)
    requires '/' !in head && '_' !in tail && '/' !in tail
    ensures Selected(dir + "/" + head + "_" + "20150812T1200Z" + "_" + tail,
                     InstantOf(Date(2015, 8, 12), 12, 0, 0), InstantOf(Date(2015, 8, 12), 13, 0, 0))
  {
    var d := Date(2015, 8, 12);
    StampTextExample();
    KeyTimeOfDelivered(dir, head, d, 12, 0, tail);
    InstantOfBefore(d, 12, 0, 13, 0);
  }

  /** and a file whose name has a single `_`, such as `test_file.log.gz`, is skipped
      whatever the window unless what follows the `_` is a stamp. */
  lemma KeySelectionNoStamp(dir: string, a: string, c: string, start: Instant, end: Instant)
    requires '_' !in a && '_' !in c && '/' !in a && '/' !in c && |c| != 14
    ensures !Selected(dir + "/" + a + "_" + c, start, end)
  {
    var name := a + "_" + c;
    assert '/' !in name;
    BaseNameOf(dir, name);
    assert dir + "/" + a + "_" + c == dir + "/" + name;
    RSplitSecondOfOne(a, c, '_');
  }

  /** The two stamps of the example, written out. */
  lemma StampTextExample()
    ensures StampText(Date(2015, 8, 12), 11, 55) == "20150812T1155Z"
    ensures StampText(Date(2015, 8, 12), 12, 0) == "20150812T1200Z"
  {
    assert Pad4(2015) == "2015" && Pad2(8) == "08" && Pad2(12) == "12";
    assert Pad2(11) == "11" && Pad2(55) == "55" && Pad2(0) == "00";
  }

  /** The body of `_get_keys`'s inner loop: the file name's time stamp, with `IndexError`
      and `ValueError` meaning the key is skipped, compared with the window. */
  method InWindow(key: string, start: Instant, end: Instant) returns (yes: bool)
    ensures yes == Selected(key, start, end)
  {
    var fileName := BaseName(key);
    match RSplitSecond(fileName, '_') {
      case None =>
        yes := false;
      case Some(stamp) =>
        match ParseStamp(stamp) {
          case None =>
            yes := false;
          case Some(dt) =>
            yes := start <= dt < end;
        }
    }
  }

  /** One pass of `_get_keys`'s inner loop: yield `key` when it is in the window. */
  method NextKey(key: string, start: Instant, end: Instant, keys0: seq<string>, ghost done: seq<string>)
    returns (keys: seq<string>)
    requires keys0 == Filter(done, KeepKey(start, end))
    ensures keys == Filter(done + [key], KeepKey(start, end))
  {
    FilterSnoc(done, key, KeepKey(start, end));
    keys := keys0;
    var yes := InWindow(key, start, end);
    if yes {
      keys := keys + [key];
    }
  }

  /** The inner loop of `_get_keys` over one page: the page's keys in the window, in
      order. */
  method PageKeys(page: seq<string>, start: Instant, end: Instant) returns (keys: seq<string>)
    ensures keys == Filter(page, KeepKey(start, end))
  {
    keys := [];
    var j := 0;
    while j < |page|
      invariant 0 <= j <= |page|
      invariant keys == Filter(page[..j], KeepKey(start, end))
    {
      TakeSnoc(page, j);
      keys := NextKey(page[j], start, end, keys, page[..j]);
      j := j + 1;
    }
    assert page[..j] == page;
  }

  /** `_get_keys`: the loop over the listing's pages. */
  method GetKeys(pages: seq<seq<string>>, start: Instant, end: Instant) returns (keys: seq<string>)
    ensures keys == Filter(Flatten(pages), KeepKey(start, end))
  {
    keys := [];
    var i := 0;
    while i < |pages|
      invariant 0 <= i <= |pages|
      invariant keys == Filter(Flatten(pages[..i]), KeepKey(start, end))
    {
      var more := PageKeys(pages[i], start, end);
      FilterAppend(Flatten(pages[..i]), pages[i], KeepKey(start, end));
      TakeSnoc(pages, i);
      FlattenSnoc(pages[..i], pages[i]);
      keys := keys + more;
      i := i + 1;
    }
    assert pages[..i] == pages;
  }

  // ---------------------------------------------------------------------------
  // Files and the whole pipeline
  // ---------------------------------------------------------------------------

  /** `_read_file(key)`: the object's lines after its header line; `get_object` of a
      missing key raises, and so does `next(gz_f)` on a file without a header line. */
  function FileLines(b: Bucket, key: string): Run<string, Fault> {
    if key !in b.files then Run([], Some(NoSuchKey(key)))
    else if |b.files[key]| == 0 then Run([], Some(EmptyFile(key)))
    else Run(b.files[key][1..], None)
  }

  /** Reading a file drops exactly its header: the header followed by what is yielded is the
      whole file, and only a missing or empty object raises. */
  lemma FileLinesHeader(b: Bucket, key: string)
    ensures FileLines(b, key).fault.None? <==> key in b.files && |b.files[key]| > 0
    ensures FileLines(b, key).fault.None? ==>
      [b.files[key][0]] + FileLines(b, key).items == b.files[key]
    ensures FileLines(b, key).fault.Some? ==> FileLines(b, key).items == []
  {
    if key in b.files && |b.files[key]| > 0 {
      assert [b.files[key][0]] + b.files[key][1..] == b.files[key];
    }
  }

  /** `_read_file`: skip the header, then yield each remaining line. */
  method ReadFile(b: Bucket, key: string) returns (lines: seq<string>, fault: Option<Fault>)
    ensures Run(lines, fault) == FileLines(b, key)
  {
    lines := [];
    if key !in b.files {
      return lines, Some(NoSuchKey(key));
    }
    var file := b.files[key];
    if |file| == 0 {
      return lines, Some(EmptyFile(key));
    }
    for i := 1 to |file|
      invariant lines == file[1..i]
    {
      lines := lines + [file[i]];
    }
    fault := None;
  }

  function FileStep(b: Bucket): string -> Run<string, Fault> {
    key => FileLines(b, key)
  }

  /** The messages of one day under one region: the lines of each selected key in turn. */
  function DayRun(r: S3FlowLogsReader, b: Bucket, regionPrefix: string, day: string): Run<string, Fault> {
    Bind(Keys(b, regionPrefix + day, r.startTime, r.endTime), FileStep(b))
  }

  function DayStep(r: S3FlowLogsReader, b: Bucket, regionPrefix: string): string -> Run<string, Fault> {
    day => DayRun(r, b, regionPrefix, day)
  }

  /** The messages under one region: each day of the window in turn. */
  function RegionRun(r: S3FlowLogsReader, b: Bucket, regionPrefix: string): Run<string, Fault> {
    Bind(DatePrefixes(r.startTime, r.endTime), DayStep(r, b, regionPrefix))
  }

  function RegionStep(r: S3FlowLogsReader, b: Bucket): string -> Run<string, Fault> {
    regionPrefix => RegionRun(r, b, regionPrefix)
  }

  /** The messages under one account: each allowed region in turn. */
  function AccountRun(r: S3FlowLogsReader, b: Bucket, accountPrefix: string): Run<string, Fault> {
    BindRun(RegionPrefixes(r, b, accountPrefix), RegionStep(r, b))
  }

  function AccountStep(r: S3FlowLogsReader, b: Bucket): string -> Run<string, Fault> {
    accountPrefix => AccountRun(r, b, accountPrefix)
  }

  /** What draining `_read_streams` produces: account, then region, then day, then key, then
      line, each level in the order its generator yields. */
  function Messages(r: S3FlowLogsReader, b: Bucket): Run<string, Fault> {
    BindRun(AccountPrefixes(r, b), AccountStep(r, b))
  }

  /** When every selected key of a day is a file with a header, the day yields the lines
      after each file's header, key by key, and ends normally. */
  lemma DayRunCompleted(r: S3FlowLogsReader, b: Bucket, regionPrefix: string, day: string)
    requires var keys := Keys(b, regionPrefix + day, r.startTime, r.endTime);
      forall i | 0 <= i < |keys| :: keys[i] in b.files && |b.files[keys[i]]| > 0
    ensures DayRun(r, b, regionPrefix, day) ==
      Run(FlatItems(Keys(b, regionPrefix + day, r.startTime, r.endTime), FileStep(b)), None)
  {
    var keys := Keys(b, regionPrefix + day, r.startTime, r.endTime);
    assert forall i | 0 <= i < |keys| :: FileStep(b)(keys[i]).fault.None?;
    BindCompleted(keys, FileStep(b));
  }

  /** The first selected key that is missing or empty ends the whole read with its error,
      after the lines of the keys before it. */
  lemma DayRunFileFault(r: S3FlowLogsReader, b: Bucket, regionPrefix: string, day: string, k: nat)
    requires var keys := Keys(b, regionPrefix + day, r.startTime, r.endTime);
      && k < |keys| && (keys[k] !in b.files || |b.files[keys[k]]| == 0)
      && forall i | 0 <= i < k :: keys[i] in b.files && |b.files[keys[i]]| > 0
    ensures var keys := Keys(b, regionPrefix + day, r.startTime, r.endTime);
      DayRun(r, b, regionPrefix, day) == Run(FlatItems(keys[..k], FileStep(b)), FileLines(b, keys[k]).fault)
  {
    var keys := Keys(b, regionPrefix + day, r.startTime, r.endTime);
    assert forall i | 0 <= i < k :: FileStep(b)(keys[i]).fault.None?;
    BindFirstFault(keys, FileStep(b), k);
    assert FlatItems(keys[..k], FileStep(b)) + [] == FlatItems(keys[..k], FileStep(b));
  }

  // ---------------------------------------------------------------------------
  // The walk without errors
  // ---------------------------------------------------------------------------

  /** The lines after a file's header. */
  function Body(b: Bucket, key: string): seq<string> {
    if key in b.files && |b.files[key]| > 0 then b.files[key][1..] else []
  }

  /** The lines of one day under a region: each selected key's body in turn. */
  function DayLines(r: S3FlowLogsReader, b: Bucket, regionPrefix: string, day: string): seq<string> {
    FlatMap(Keys(b, regionPrefix + day, r.startTime, r.endTime), key => Body(b, key))
  }

  function DayLinesOf(r: S3FlowLogsReader, b: Bucket, regionPrefix: string): string -> seq<string> {
    day => DayLines(r, b, regionPrefix, day)
  }

  /** The lines under one region: each day of the window in turn. */
  function RegionLines(r: S3FlowLogsReader, b: Bucket, regionPrefix: string): seq<string> {
    FlatMap(DatePrefixes(r.startTime, r.endTime), DayLinesOf(r, b, regionPrefix))
  }

  function RegionLinesOf(r: S3FlowLogsReader, b: Bucket): string -> seq<string> {
    regionPrefix => RegionLines(r, b, regionPrefix)
  }

  /** The lines under one account: each allowed region of the listing in turn. */
  function AccountLines(r: S3FlowLogsReader, b: Bucket, accountPrefix: string): seq<string> {
    FlatMap(Filter(Listing(b, accountPrefix + "vpcflowlogs/"), AllowedBy(r.includeRegions)), RegionLinesOf(r, b))
  }

  function AccountLinesOf(r: S3FlowLogsReader, b: Bucket): string -> seq<string> {
    accountPrefix => AccountLines(r, b, accountPrefix)
  }

  /** Every line of the walk, account by account, region by region, day by day, key by key,
      headers dropped. */
  function WalkLines(r: S3FlowLogsReader, b: Bucket): seq<string> {
    FlatMap(Filter(Listing(b, AccountListingPrefix(r.prefix)), AllowedBy(r.includeAccounts)), AccountLinesOf(r, b))
  }

  /** Every selected key of the day is a file with a header. */
  predicate DayReadable(r: S3FlowLogsReader, b: Bucket, regionPrefix: string, day: string) {
    var keys := Keys(b, regionPrefix + day, r.startTime, r.endTime);
    forall i | 0 <= i < |keys| :: keys[i] in b.files && |b.files[keys[i]]| > 0
  }

  /** Every day of the window is readable under the region. */
  predicate RegionReadable(r: S3FlowLogsReader, b: Bucket, regionPrefix: string) {
    var days := DatePrefixes(r.startTime, r.endTime);
    forall i | 0 <= i < |days| :: DayReadable(r, b, regionPrefix, days[i])
  }

  /** Under a region allow-list every listed region prefix has a `/`, and every allowed
      region is readable. */
  predicate AccountReadable(r: S3FlowLogsReader, b: Bucket, accountPrefix: string) {
    var listed := Listing(b, accountPrefix + "vpcflowlogs/");
    var regions := RegionPrefixes(r, b, accountPrefix).items;
    && (r.includeRegions.None? || forall i | 0 <= i < |listed| :: '/' in listed[i])
    && forall i | 0 <= i < |regions| :: RegionReadable(r, b, regions[i])
  }

  /** Under an account allow-list every listed account prefix has a `/`, and every allowed
      account is readable. */
  predicate WalkReadable(r: S3FlowLogsReader, b: Bucket) {
    var listed := Listing(b, AccountListingPrefix(r.prefix));
    var accounts := AccountPrefixes(r, b).items;
    && (r.includeAccounts.None? || forall i | 0 <= i < |listed| :: '/' in listed[i])
    && forall i | 0 <= i < |accounts| :: AccountReadable(r, b, accounts[i])
  }

  /** A readable day yields the bodies of its selected keys and ends normally. */
  lemma DayRunReadable(r: S3FlowLogsReader, b: Bucket, regionPrefix: string, day: string)
    requires DayReadable(r, b, regionPrefix, day)
    ensures DayRun(r, b, regionPrefix, day) == Run(DayLines(r, b, regionPrefix, day), None)
  {
    var keys := Keys(b, regionPrefix + day, r.startTime, r.endTime);
    BindCompletedFlatMap(keys, FileStep(b), key => Body(b, key));
  }

  /** A readable region yields its days' lines in date order and ends normally. */
  lemma RegionRunReadable(r: S3FlowLogsReader, b: Bucket, regionPrefix: string)
    requires RegionReadable(r, b, regionPrefix)
    ensures RegionRun(r, b, regionPrefix) == Run(RegionLines(r, b, regionPrefix), None)
  {
    var days := DatePrefixes(r.startTime, r.endTime);
    forall i | 0 <= i < |days|
      ensures DayStep(r, b, regionPrefix)(days[i]) == Run(DayLinesOf(r, b, regionPrefix)(days[i]), None)
    {
      DayRunReadable(r, b, regionPrefix, days[i]);
    }
    BindCompletedFlatMap(days, DayStep(r, b, regionPrefix), DayLinesOf(r, b, regionPrefix));
  }

  /** A readable account yields its allowed regions' lines in listing order and ends
      normally. */
  lemma AccountRunReadable(r: S3FlowLogsReader, b: Bucket, accountPrefix: string)
    requires AccountReadable(r, b, accountPrefix)
    ensures AccountRun(r, b, accountPrefix) == Run(AccountLines(r, b, accountPrefix), None)
  {
    var regions := RegionPrefixes(r, b, accountPrefix);
    FilteredKeeps(Listing(b, accountPrefix + "vpcflowlogs/"), r.includeRegions);
    forall i | 0 <= i < |regions.items|
      ensures RegionStep(r, b)(regions.items[i]) == Run(RegionLinesOf(r, b)(regions.items[i]), None)
    {
      RegionRunReadable(r, b, regions.items[i]);
    }
    BindRunCompletedFlatMap(regions, RegionStep(r, b), RegionLinesOf(r, b));
  }

  /** When no allow-list meets a prefix without a `/` and every selected key is a file with
      a header, `_read_streams` yields every line after each file's header, account by
      account, region by region, day by day and key by key, and ends normally. */
  lemma MessagesReadable(r: S3FlowLogsReader, b: Bucket)
    requires WalkReadable(r, b)
    ensures Messages(r, b) == Run(WalkLines(r, b), None)
  {
    var accounts := AccountPrefixes(r, b);
    FilteredKeeps(Listing(b, AccountListingPrefix(r.prefix)), r.includeAccounts);
    forall i | 0 <= i < |accounts.items|
      ensures AccountStep(r, b)(accounts.items[i]) == Run(AccountLinesOf(r, b)(accounts.items[i]), None)
    {
      AccountRunReadable(r, b, accounts.items[i]);
    }
    BindRunCompletedFlatMap(accounts, AccountStep(r, b), AccountLinesOf(r, b));
  }

  /** A window whose end falls on an earlier day than its start lists no day, so no object
      is read and nothing is yielded. */
  lemma MessagesOfEmptyWindow(r: S3FlowLogsReader, b: Bucket)
    requires DayOf(r.endTime) < DayOf(r.startTime)
    ensures Messages(r, b).items == []
  {
    var accounts := AccountPrefixes(r, b).items;
    forall i | 0 <= i < |accounts|
      ensures AccountStep(r, b)(accounts[i]).items == []
    {
      AccountRunOfEmptyWindow(r, b, accounts[i]);
    }
    BindSilent(accounts, AccountStep(r, b));
  }

  lemma AccountRunOfEmptyWindow(r: S3FlowLogsReader, b: Bucket, accountPrefix: string)
    requires DayOf(r.endTime) < DayOf(r.startTime)
    ensures AccountRun(r, b, accountPrefix).items == []
  {
    var regions := RegionPrefixes(r, b, accountPrefix).items;
    forall i | 0 <= i < |regions|
      ensures RegionStep(r, b)(regions[i]).items == []
    {
      RegionRunOfEmptyWindow(r, b, regions[i]);
    }
    BindSilent(regions, RegionStep(r, b));
  }

  lemma RegionRunOfEmptyWindow(r: S3FlowLogsReader, b: Bucket, regionPrefix: string)
    requires DayOf(r.endTime) < DayOf(r.startTime)
    ensures RegionRun(r, b, regionPrefix) == Run([], None)
  {
    DatePrefixesSpan(r.startTime, r.endTime);
  }

  /** `_get_account_prefixes`: list under the account listing prefix, then the allow-list. */
  method GetAccountPrefixes(r: S3FlowLogsReader, b: Bucket) returns (accounts: seq<string>, fault: Option<Fault>)
    ensures Run(accounts, fault) == AccountPrefixes(r, b)
  {
    accounts, fault := FilterPrefixes(Listing(b, AccountListingPrefix(r.prefix)), r.includeAccounts);
  }

  /** `_get_region_prefixes`: list under `vpcflowlogs/`, then the allow-list. */
  method GetRegionPrefixes(r: S3FlowLogsReader, b: Bucket, accountPrefix: string)
    returns (regions: seq<string>, fault: Option<Fault>)
    ensures Run(regions, fault) == RegionPrefixes(r, b, accountPrefix)
  {
    regions, fault := FilterPrefixes(Listing(b, accountPrefix + "vpcflowlogs/"), r.includeRegions);
  }

  /** The messages of one day: `_get_keys`, then `_read_file` for each key. */
  method ReadDay(r: S3FlowLogsReader, b: Bucket, regionPrefix: string, day: string)
    returns (lines: seq<string>, fault: Option<Fault>)
    ensures Run(lines, fault) == DayRun(r, b, regionPrefix, day)
  {
    var keys := GetKeys(KeyPages(b, regionPrefix + day), r.startTime, r.endTime);
    lines, fault := [], None;
    var i := 0;
    while i < |keys| && fault.None?
      invariant 0 <= i <= |keys|
      invariant Run(lines, fault) == Bind(keys[..i], FileStep(b))
    {
      TakeSnoc(keys, i);
      BindSnoc(keys[..i], keys[i], FileStep(b));
      var more, f := ReadFile(b, keys[i]);
      lines, fault := lines + more, f;
      i := i + 1;
    }
    if fault.Some? {
      BindStopped(keys, i, FileStep(b));
    } else {
      assert keys[..i] == keys;
    }
  }

  /** The messages under one region: `_get_date_prefixes`, then each day. */
  method ReadRegion(r: S3FlowLogsReader, b: Bucket, regionPrefix: string)
    returns (lines: seq<string>, fault: Option<Fault>)
    ensures Run(lines, fault) == RegionRun(r, b, regionPrefix)
  {
    var days := GetDatePrefixes(r.startTime, r.endTime);
    lines, fault := [], None;
    var i := 0;
    while i < |days| && fault.None?
      invariant 0 <= i <= |days|
      invariant Run(lines, fault) == Bind(days[..i], DayStep(r, b, regionPrefix))
    {
      TakeSnoc(days, i);
      BindSnoc(days[..i], days[i], DayStep(r, b, regionPrefix));
      var more, f := ReadDay(r, b, regionPrefix, days[i]);
      lines, fault := lines + more, f;
      i := i + 1;
    }
    if fault.Some? {
      BindStopped(days, i, DayStep(r, b, regionPrefix));
    } else {
      assert days[..i] == days;
    }
  }

  /** The messages under one account: `_get_region_prefixes`, then each region; the
      region generator's `IndexError` comes after the regions before it. */
  method ReadAccount(r: S3FlowLogsReader, b: Bucket, accountPrefix: string)
    returns (lines: seq<string>, fault: Option<Fault>)
    ensures Run(lines, fault) == AccountRun(r, b, accountPrefix)
  {
    var regions, listFault := GetRegionPrefixes(r, b, accountPrefix);
    lines, fault := [], None;
    var i := 0;
    while i < |regions| && fault.None?
      invariant 0 <= i <= |regions|
      invariant Run(lines, fault) == Bind(regions[..i], RegionStep(r, b))
    {
      TakeSnoc(regions, i);
      BindSnoc(regions[..i], regions[i], RegionStep(r, b));
      var more, f := ReadRegion(r, b, regions[i]);
      lines, fault := lines + more, f;
      i := i + 1;
    }
    if fault.Some? {
      BindStopped(regions, i, RegionStep(r, b));
    } else {
      assert regions[..i] == regions;
    }
    BindRunOfItems(Run(regions, listFault), RegionStep(r, b));
    if fault.None? {
      fault := listFault;
    }
  }

  /** `_read_streams`: every account, then within it every region, day, key and line. */
  method ReadStreams(r: S3FlowLogsReader, b: Bucket) returns (lines: seq<string>, fault: Option<Fault>)
    ensures Run(lines, fault) == Messages(r, b)
  {
    var accounts, listFault := GetAccountPrefixes(r, b);
    lines, fault := [], None;
    var i := 0;
    while i < |accounts| && fault.None?
      invariant 0 <= i <= |accounts|
      invariant Run(lines, fault) == Bind(accounts[..i], AccountStep(r, b))
    {
      TakeSnoc(accounts, i);
      BindSnoc(accounts[..i], accounts[i], AccountStep(r, b));
      var more, f := ReadAccount(r, b, accounts[i]);
      lines, fault := lines + more, f;
      i := i + 1;
    }
    if fault.Some? {
      BindStopped(accounts, i, AccountStep(r, b));
    } else {
      assert accounts[..i] == accounts;
    }
    BindRunOfItems(Run(accounts, listFault), AccountStep(r, b));
    if fault.None? {
      fault := listFault;
    }
  }
}
