/** The few pieces of Python's `str` and `int` behaviour that the readers rely on:
    `split()` with no argument, `' '.join`, `int(token)`, `str(n)`, `rstrip`/`lstrip`/`strip`
    of one character, `rsplit(sep, 2)[1]` and `os.path.basename`. */
module Text {
  import opened Results

  // ---------------------------------------------------------------------------
  // Whitespace splitting and joining
  // ---------------------------------------------------------------------------

  /** The characters Python's `str.split()` treats as whitespace. */
  predicate IsSpace(c: char) {
    var k := c as int;
    (9 <= k <= 13) || (28 <= k <= 32) || k == 0x85 || k == 0xA0 || k == 0x1680
    || (0x2000 <= k <= 0x200A) || k == 0x2028 || k == 0x2029 || k == 0x202F
    || k == 0x205F || k == 0x3000
  }

  /** A token `split()` can produce: non-empty and free of whitespace. */
  predicate IsWord(w: string) {
    |w| > 0 && forall i | 0 <= i < |w| :: !IsSpace(w[i])
  }

  /** Length of the longest whitespace-free prefix of `s`. */
  function TokenEnd(s: string): (n: nat)
    ensures n <= |s|
    ensures forall i | 0 <= i < n :: !IsSpace(s[i])
    ensures n < |s| ==> IsSpace(s[n])
  {
    if s == [] || IsSpace(s[0]) then 0 else 1 + TokenEnd(s[1..])
  }

  /** `s.split()`: runs of whitespace separate tokens; leading and trailing whitespace
      produce no empty tokens. */
  function Split(s: string): (ws: seq<string>)
    ensures forall i | 0 <= i < |ws| :: IsWord(ws[i])
    decreases |s|
  {
    if s == [] then []
    else if IsSpace(s[0]) then Split(s[1..])
    else
      var n := TokenEnd(s);
      [s[..n]] + Split(s[n..])
  }

  /** `' '.join(ws)`. */
  function Join(ws: seq<string>): string {
    if |ws| == 0 then ""
    else if |ws| == 1 then ws[0]
    else ws[0] + " " + Join(ws[1..])
  }

  /** A word followed by whitespace (or by nothing) is split off as one token. */
  lemma SplitWordThen(w: string, rest: string)
    requires IsWord(w)
    requires rest == [] || IsSpace(rest[0])
    ensures Split(w + rest) == [w] + Split(rest)
  {
    var s := w + rest;
    var n := TokenEnd(s);
    assert forall i | 0 <= i < |w| :: s[i] == w[i];
    assert |w| < |s| ==> s[|w|] == rest[0];
    assert n == |w|;
    assert s[..n] == w;
    assert s[n..] == rest;
  }

  /** Splitting a single-space-separated line of words gives back the words. */
  lemma {:induction false} SplitJoin(ws: seq<string>)
    requires forall i | 0 <= i < |ws| :: IsWord(ws[i])
    ensures Split(Join(ws)) == ws
  {
    if |ws| == 0 {
    } else if |ws| == 1 {
      SplitWordThen(ws[0], "");
      assert ws[0] + "" == ws[0];
    } else {
      var rest := Join(ws[1..]);
      var tail := " " + rest;
      assert Join(ws) == ws[0] + tail;
      SplitWordThen(ws[0], tail);
      assert tail[1..] == rest;
      assert Split(tail) == Split(rest);
      SplitJoin(ws[1..]);
      assert ws == [ws[0]] + ws[1..];
    }
  }

  // ---------------------------------------------------------------------------
  // Decimal integers
  // ---------------------------------------------------------------------------

  predicate IsDigit(c: char) {
    '0' as int <= c as int <= '9' as int
  }

  predicate AllDigits(s: string) {
    forall i | 0 <= i < |s| :: IsDigit(s[i])
  }

  /** The body `int()` accepts after an optional sign, with its value: decimal digits,
      a single underscore allowed between two digits. `None` for anything else. */
  function DigitRun(s: string): Option<nat>
    decreases |s|
  {
    if |s| == 0 || !IsDigit(s[|s| - 1]) then None
    else if |s| == 1 then Some(DigitValue(s[0]))
    else
      var init := if s[|s| - 2] == '_' then s[..|s| - 2] else s[..|s| - 1];
      match DigitRun(init)
      case None => None
      case Some(v) => Some(v * 10 + DigitValue(s[|s| - 1]))
  }

  /** Value of a run of digits, underscores ignored. */
  function DecimalValue(s: string): nat
    requires forall i | 0 <= i < |s| :: IsDigit(s[i]) || s[i] == '_'
  {
    if s == [] then 0
    else
      var init, last := s[..|s| - 1], s[|s| - 1];
      if last == '_' then DecimalValue(init)
      else DecimalValue(init) * 10 + DigitValue(last)
  }

  /** Appending a digit shifts the value one decimal place. */
  lemma DecimalValueSnoc(s: string, c: char)
    requires forall i | 0 <= i < |s| :: IsDigit(s[i]) || s[i] == '_'
    requires IsDigit(c)
    ensures DecimalValue(s + [c]) == DecimalValue(s) * 10 + DigitValue(c)
  {
    assert (s + [c])[..|s|] == s;
  }

  /** `int(token)`: an optional `+` or `-` followed by a digit run; anything else is a
      `ValueError`, modelled as `None`. */
  function ParseInt(s: string): Option<int> {
    var negative := |s| > 0 && s[0] == '-';
    var body := if |s| > 0 && (s[0] == '-' || s[0] == '+') then s[1..] else s;
    match DigitRun(body)
    case None => None
    case Some(magnitude) => Some(if negative then -(magnitude as int) else magnitude as int)
  }

  function DigitValue(c: char): nat
    requires IsDigit(c)
  {
    c as int - '0' as int
  }

  function DigitChar(d: nat): (c: char)
    requires d < 10
    ensures IsDigit(c) && DigitValue(c) == d
  {
    ('0' as int + d) as char
  }

  /** `str(n)` for a non-negative `n`: digits without leading zeros. */
  function NatToString(n: nat): string {
    if n < 10 then [DigitChar(n)] else NatToString(n / 10) + [DigitChar(n % 10)]
  }

  /** `str(n)`. */
  function IntToString(n: int): (s: string)
    ensures IsWord(s) && s != "-"
  {
    NatToStringDigits(if n < 0 then -n else n);
    if n < 0 then "-" + NatToString(-n) else NatToString(n)
  }

  /** The decimal rendering is a digit run of the right value. */
  lemma {:induction false} NatToStringDigits(n: nat)
    ensures forall i | 0 <= i < |NatToString(n)| :: IsDigit(NatToString(n)[i])
    ensures DigitRun(NatToString(n)) == Some(n)
  {
    if n >= 10 {
      NatToStringDigits(n / 10);
      var s := NatToString(n);
      assert s[..|s| - 1] == NatToString(n / 10);
    }
  }

  /** `int(str(n)) == n`. */
  lemma ParseIntToString(n: int)
    ensures ParseInt(IntToString(n)) == Some(n)
  {
    var m: nat := if n < 0 then -n else n;
    NatToStringDigits(m);
    var digits := NatToString(m);
    var s := IntToString(n);
    if n < 0 {
      assert s == "-" + digits;
      assert s[0] == '-' && s[1..] == digits;
    } else {
      assert s == digits;
      assert IsDigit(s[0]);
    }
  }

  /** A token is written back unchanged by `str(int(token))`. */
  predicate IsCanonicalInt(token: string) {
    ParseInt(token).Some? && IntToString(ParseInt(token).value) == token
  }

  // ---------------------------------------------------------------------------
  // Stripping, splitting from the right, base names
  // ---------------------------------------------------------------------------

  /** `s.rstrip(c)`. */
  function RStrip(s: string, c: char): (r: string)
    ensures r <= s
    ensures r == [] || r[|r| - 1] != c
    ensures forall i | |r| <= i < |s| :: s[i] == c
  {
    if s != [] && s[|s| - 1] == c then RStrip(s[..|s| - 1], c) else s
  }

  /** `s.lstrip(c)`. */
  function LStrip(s: string, c: char): (r: string)
    ensures |r| <= |s| && r == s[|s| - |r|..]
    ensures r == [] || r[0] != c
    ensures forall i | 0 <= i < |s| - |r| :: s[i] == c
  {
    if s != [] && s[0] == c then LStrip(s[1..], c) else s
  }

  /** `s.strip(c)`. */
  function Strip(s: string, c: char): string {
    LStrip(RStrip(s, c), c)
  }

  /** Stripping does nothing to a string that does not end with the character. */
  lemma RStripNone(s: string, c: char)
    requires s == [] || s[|s| - 1] != c
    ensures RStrip(s, c) == s
  {
  }

  /** Stripping does nothing to a string that does not start with the character. */
  lemma LStripNone(s: string, c: char)
    requires s == [] || s[0] != c
    ensures LStrip(s, c) == s
  {
  }

  /** `s.split(c, 1)` when `c` occurs in `s`: the text before the first `c` and the text
      after it. */
  function SplitOnce(s: string, c: char): (parts: (string, string))
    requires c in s
    ensures c !in parts.0
    ensures s == parts.0 + [c] + parts.1
  {
    if s[0] == c then ([], s[1..])
    else
      var rest := SplitOnce(s[1..], c);
      assert s == [s[0]] + s[1..];
      ([s[0]] + rest.0, rest.1)
  }

  /** The split is at the first occurrence: text free of `c`, then `c`, then anything. */
  lemma {:induction false} SplitOnceAt(a: string, b: string, c: char)
    requires c !in a
    ensures SplitOnce(a + [c] + b, c) == (a, b)
    decreases |a|
  {
    var s := a + [c] + b;
    if a == [] {
      assert s == [c] + b;
    } else {
      assert s[1..] == a[1..] + [c] + b;
      SplitOnceAt(a[1..], b, c);
      assert [a[0]] + a[1..] == a;
    }
  }

  /** `s.rfind(c, 0, n)`, with -1 as `None`: the last occurrence of `c` before index `n`. */
  function LastIndexBelow(s: string, c: char, n: nat): (r: Option<nat>)
    requires n <= |s|
    ensures r.None? ==> forall k | 0 <= k < n :: s[k] != c
    ensures r.Some? ==> r.value < n && s[r.value] == c && forall k | r.value < k < n :: s[k] != c
  {
    if n == 0 then None
    else if s[n - 1] == c then Some(n - 1)
    else LastIndexBelow(s, c, n - 1)
  }

  /** `s.rfind(c)`, with -1 as `None`. */
  function LastIndex(s: string, c: char): (r: Option<nat>)
    ensures r.None? <==> c !in s
    ensures r.Some? ==> r.value < |s| && s[r.value] == c && forall k | r.value < k < |s| :: s[k] != c
  {
    LastIndexBelow(s, c, |s|)
  }

  /** `s.rsplit(sep, 2)[1]`; `None` is the `IndexError` raised when `sep` does not occur. */
  function RSplitSecond(s: string, sep: char): (r: Option<string>)
    ensures r.None? <==> sep !in s
    ensures r.Some? ==> sep !in r.value
  {
    match LastIndex(s, sep)
    case None => None
    case Some(i) =>
      match LastIndexBelow(s, sep, i)
      case None => Some(s[i + 1..])
      case Some(j) => Some(s[j + 1..i])
  }

  /** With two or more separators, `rsplit(sep, 2)[1]` is the field between the last two. */
  lemma RSplitSecondOfTwo(a: string, b: string, c: string, sep: char)
    requires sep !in b && sep !in c
    ensures RSplitSecond(a + [sep] + b + [sep] + c, sep) == Some(b)
  {
    var s := a + [sep] + b + [sep] + c;
    var i := |a| + 1 + |b|;
    assert forall k | i < k < |s| :: s[k] == c[k - i - 1];
    LastIndexAt(s, i, sep);
    assert forall k | |a| < k < i :: s[k] == b[k - |a| - 1];
    LastIndexBelowAt(s, i, |a|, sep);
    assert s[|a| + 1..i] == b;
  }

  /** With exactly one separator, `rsplit(sep, 2)[1]` is the text after it. */
  lemma RSplitSecondOfOne(a: string, c: string, sep: char)
    requires sep !in a && sep !in c
    ensures RSplitSecond(a + [sep] + c, sep) == Some(c)
  {
    var s := a + [sep] + c;
    assert forall k | |a| < k < |s| :: s[k] == c[k - |a| - 1];
    LastIndexAt(s, |a|, sep);
    assert forall k | 0 <= k < |a| :: s[k] == a[k];
    assert s[|a| + 1..] == c;
  }

  /** The last occurrence is the one after which the separator no longer occurs. */
  lemma LastIndexAt(s: string, i: nat, c: char)
    requires i < |s| && s[i] == c && forall k | i < k < |s| :: s[k] != c
    ensures LastIndex(s, c) == Some(i)
  {
    LastIndexBelowAt(s, |s|, i, c);
  }

  lemma {:induction false} LastIndexBelowAt(s: string, n: nat, i: nat, c: char)
    requires i < n <= |s| && s[i] == c && forall k | i < k < n :: s[k] != c
    ensures LastIndexBelow(s, c, n) == Some(i)
    decreases n
  {
    if n - 1 != i {
      LastIndexBelowAt(s, n - 1, i, c);
    }
  }

  /** `os.path.basename(path)`: the text after the last `/`. */
  function BaseName(path: string): string {
    match LastIndex(path, '/')
    case None => path
    case Some(i) => path[i + 1..]
  }

  /** The base name of `dir/name` is `name`. */
  lemma BaseNameOf(dir: string, name: string)
    requires '/' !in name
    ensures BaseName(dir + "/" + name) == name
  {
    var path := dir + "/" + name;
    assert forall k | |dir| < k < |path| :: path[k] == name[k - |dir| - 1];
    LastIndexAt(path, |dir|, '/');
    assert path[|dir| + 1..] == name;
  }
}
