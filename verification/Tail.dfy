/** Two readers of the evidence files: the doubling backward window that finds the last line,
    and the directory listing that orders archives by name (scripts/audit_check.py). */
module Tail {
  import opened Sequences
  import opened Text
  import opened Evidence

  // -------------------------------------------------- log files as text

  /** A record's line: canonical JSON has no raw newline and ends in a brace. */
  predicate LogLine(l: string) {
    l != "" && '\n' !in l && !IsSpace(l[|l| - 1])
  }

  function Lines(lines: seq<string>): string {
    if lines == [] then "" else Lines(lines[..|lines| - 1]) + (lines[|lines| - 1] + "\n")
  }

  function Newlines(s: string): nat {
    if s == "" then 0 else Newlines(s[..|s| - 1]) + if s[|s| - 1] == '\n' then 1 else 0
  }

  function AfterLastNewline(s: string): string {
    if s == "" then "" else if s[|s| - 1] == '\n' then "" else AfterLastNewline(s[..|s| - 1]) + [s[|s| - 1]]
  }

  const FIRST_WINDOW := 65536

  predicate Stops(file: string, window: nat) {
    window >= |file| || Newlines(file[|file| - window..]) >= 2
  }

  /** What the reader makes of the chunk it ended up with. */
  function LastOf(chunk: string): string {
    AfterLastNewline(StripRight(chunk))
  }

  function WindowedTail(file: string, window: nat): string
    requires window > 0
    decreases if window < |file| then |file| - window else 0
  {
    if Stops(file, window) then LastOf(if window >= |file| then file else file[|file| - window..])
    else WindowedTail(file, 2 * window)
  }

  /** `_last_record_hash` up to the parsed line: double the window until it holds two newlines. */
  method ReadTail(file: string) returns (line: string)
    ensures line == WindowedTail(file, FIRST_WINDOW)
  {
    var window := FIRST_WINDOW;
    var start := if |file| > window then |file| - window else 0;
    while start != 0 && Newlines(file[start..]) < 2
      invariant window > 0 && start == if |file| > window then |file| - window else 0
      invariant WindowedTail(file, window) == WindowedTail(file, FIRST_WINDOW)
      decreases start
    {
      window := window * 2;
      start := if |file| > window then |file| - window else 0;
    }
    assert file[0..] == file;
    line := LastOf(file[start..]);
  }

  lemma {:induction false} NewlinesConcat(a: string, b: string)
    ensures Newlines(a + b) == Newlines(a) + Newlines(b)
    decreases |b|
  {
    if b == "" {
      assert a + b == a;
    } else {
      NewlinesConcat(a, b[..|b| - 1]);
      assert (a + b)[..|a + b| - 1] == a + b[..|b| - 1];
    }
  }

  lemma {:induction false} NoNewlines(s: string)
    requires '\n' !in s
    ensures Newlines(s) == 0 && AfterLastNewline(s) == s
  {
    if s != "" { NoNewlines(s[..|s| - 1]); }
  }

  lemma OneNewline()
    ensures Newlines("\n") == 1
  {
    assert "\n"[..0] == "";
  }

  lemma {:induction false} AfterNewline(a: string, l: string)
    requires '\n' !in l && (a == "" || a[|a| - 1] == '\n')
    ensures AfterLastNewline(a + l) == l
    decreases |l|
  {
    if l == "" {
      assert a + l == a;
    } else {
      AfterNewline(a, l[..|l| - 1]);
      assert (a + l)[..|a + l| - 1] == a + l[..|l| - 1];
    }
  }

  /** A chunk that reaches back over the line break before the last line yields that line. */
  lemma WholeLastLine(a: string, l: string)
    requires LogLine(l) && (a == "" || a[|a| - 1] == '\n')
    ensures LastOf(a + (l + "\n")) == l
  {
    var chunk := a + (l + "\n");
    assert chunk[..|chunk| - 1] == a + l;
    assert (a + l)[|a + l| - 1] == l[|l| - 1];
    assert StripRight(chunk) == StripRight(a + l) == a + l;
    AfterNewline(a, l);
  }

  lemma ChunkCoversLastLine(a: string, l: string, window: nat)
    requires LogLine(l) && (a == "" || a[|a| - 1] == '\n') && window > 0
    requires var file := a + (l + "\n"); window < |file| && Newlines(file[|file| - window..]) >= 2
    ensures var file := a + (l + "\n"); LastOf(file[|file| - window..]) == l
  {
    var file := a + (l + "\n");
    var start := |file| - window;
    var chunk := file[start..];
    if start >= |a| {
      var rest := l[start - |a|..];
      assert chunk == rest + "\n";
      NoNewlines(rest);
      OneNewline();
      NewlinesConcat(rest, "\n");
    } else {
      assert chunk == a[start..] + (l + "\n");
      WholeLastLine(a[start..], l);
    }
  }

  lemma {:induction false} WindowFindsLine(a: string, l: string, window: nat)
    requires LogLine(l) && (a == "" || a[|a| - 1] == '\n') && window > 0
    ensures WindowedTail(a + (l + "\n"), window) == l
    decreases |a| + |l| + 1 - window
  {
    var file := a + (l + "\n");
    if window >= |file| {
      WholeLastLine(a, l);
    } else if Newlines(file[|file| - window..]) >= 2 {
      ChunkCoversLastLine(a, l, window);
    } else {
      WindowFindsLine(a, l, 2 * window);
    }
  }

  lemma {:induction false} LinesEndInNewline(lines: seq<string>)
    ensures Lines(lines) == "" || Lines(lines)[|Lines(lines)| - 1] == '\n'
  {
  }

  /** On every log the writer produces, the windowed reader returns exactly the last line. */
  lemma TailIsLastLine(lines: seq<string>)
    requires lines != [] && LogLine(lines[|lines| - 1])
    ensures WindowedTail(Lines(lines), FIRST_WINDOW) == lines[|lines| - 1]
  {
    var n := |lines| - 1;
    LinesEndInNewline(lines[..n]);
    WindowFindsLine(Lines(lines[..n]), lines[n], FIRST_WINDOW);
  }

  /** With a decoder of lines this is the hash that the record-level model reads. */
  lemma TailHashAgrees(records: seq<Record>, encode: Record -> string, decode: string -> Option<Record>)
    requires records != []
    requires forall r :: LogLine(encode(r)) && decode(encode(r)) == Some(r)
    ensures var file := Lines(seq(|records|, i requires 0 <= i < |records| => encode(records[i])));
      var read := decode(WindowedTail(file, FIRST_WINDOW));
      read.Some? && read.value.hash == LastHash(records)
  {
    var lines := seq(|records|, i requires 0 <= i < |records| => encode(records[i]));
    assert lines[|lines| - 1] == encode(records[|records| - 1]);
    TailIsLastLine(lines);
  }

  lemma {:induction false} StripTrailing(l: string, blanks: string)
    requires LogLine(l) && forall i :: 0 <= i < |blanks| ==> blanks[i] == '\n'
    ensures StripRight(l + blanks) == l
    decreases |blanks|
  {
    if blanks == "" {
      assert l + blanks == l;
    } else {
      assert (l + blanks)[..|l + blanks| - 1] == l + blanks[..|blanks| - 1];
      StripTrailing(l, blanks[..|blanks| - 1]);
    }
  }

  lemma {:induction false} AfterLastNewlineShort(s: string)
    ensures |AfterLastNewline(s)| <= |s|
  {
    if s != "" { AfterLastNewlineShort(s[..|s| - 1]); }
  }

  function LineBreaks(k: nat): (r: string)
    ensures |r| == k && forall i :: 0 <= i < k ==> r[i] == '\n'
  {
    seq(k, _ => '\n')
  }

  lemma {:induction false} AllNewlines(k: nat)
    ensures Newlines(LineBreaks(k)) == k && StripRight(LineBreaks(k)) == ""
  {
    if k > 0 {
      AllNewlines(k - 1);
      assert LineBreaks(k)[..k - 1] == LineBreaks(k - 1);
    }
  }

  /** A chunk that holds the whole last line, whatever comes before it and however many blank lines after. */
  lemma LineThenBlanks(a: string, l: string, k: nat)
    requires LogLine(l) && (a == "" || a[|a| - 1] == '\n')
    ensures LastOf(a + (l + LineBreaks(k))) == l
  {
    assert a + (l + LineBreaks(k)) == (a + l) + LineBreaks(k);
    StripTrailingAfter(a, l, LineBreaks(k));
    AfterNewline(a, l);
  }

  lemma {:induction false} StripTrailingAfter(a: string, l: string, blanks: string)
    requires LogLine(l) && forall i :: 0 <= i < |blanks| ==> blanks[i] == '\n'
    ensures StripRight((a + l) + blanks) == a + l
    decreases |blanks|
  {
    var s := (a + l) + blanks;
    if blanks == "" {
      assert s == a + l && (a + l)[|a + l| - 1] == l[|l| - 1];
    } else {
      assert s[..|s| - 1] == (a + l) + blanks[..|blanks| - 1];
      StripTrailingAfter(a, l, blanks[..|blanks| - 1]);
    }
  }

  /** With a blank line at the end the first window already holds two line breaks, so the reader stops there. */
  lemma FirstWindowStops(file: string, k: nat)
    requires k >= 1 && |file| > FIRST_WINDOW && k + 1 <= |file| && file[|file| - k - 1..] == LineBreaks(k + 1)
    ensures WindowedTail(file, FIRST_WINDOW) == LastOf(file[|file| - FIRST_WINDOW..])
  {
    hide StripRight, AfterLastNewline;
    var chunk := file[|file| - FIRST_WINDOW..];
    if k + 1 <= FIRST_WINDOW {
      assert chunk == chunk[..FIRST_WINDOW - k - 1] + LineBreaks(k + 1) by {
        assert chunk[FIRST_WINDOW - k - 1..] == file[|file| - k - 1..];
      }
      NewlinesConcat(chunk[..FIRST_WINDOW - k - 1], LineBreaks(k + 1));
      AllNewlines(k + 1);
    } else {
      assert chunk == file[|file| - k - 1..][k + 1 - FIRST_WINDOW..];
      assert chunk == LineBreaks(FIRST_WINDOW);
      AllNewlines(FIRST_WINDOW);
    }
  }

  /** A window that starts inside the last line, or behind it, does not return it. */
  lemma CutLine(l: string, k: nat, chunk: string)
    requires LogLine(l) && |chunk| < |l| + k + 1 && (l + LineBreaks(k + 1))[|l| + k + 1 - |chunk|..] == chunk
    ensures LastOf(chunk) != l
  {
    hide StripRight, AfterLastNewline, Newlines;
    var cut := |l| + k + 1 - |chunk|;
    if cut < |l| {
      var part := l[cut..];
      assert chunk == part + LineBreaks(k + 1);
      assert part[|part| - 1] == l[|l| - 1];
      StripTrailing(part, LineBreaks(k + 1));
      AfterLastNewlineShort(part);
    } else {
      assert chunk == LineBreaks(|chunk|);
      AllNewlines(|chunk|);
      AfterLastNewlineShort("");
    }
  }

  /** Blank lines count as line breaks: with k of them at the end the last line is returned exactly when there is none,
      or the line and all the line breaks after it fit into the first window. The full read always returns it. */
  lemma BlankLinesExactly(a: string, l: string, k: nat)
    requires LogLine(l) && (a == "" || a[|a| - 1] == '\n')
    ensures var file := a + (l + LineBreaks(k + 1));
      && (WindowedTail(file, FIRST_WINDOW) == l <==> k == 0 || |l| + k + 1 <= FIRST_WINDOW)
      && LastOf(file) == l
  {
    hide WindowedTail, LastOf;
    var file := a + (l + LineBreaks(k + 1));
    LineThenBlanks(a, l, k + 1);
    if k == 0 {
      assert LineBreaks(1) == "\n";
      WindowFindsLine(a, l, FIRST_WINDOW);
    } else if |file| <= FIRST_WINDOW {
      WholeFileWindow(file);
    } else {
      var chunk := file[|file| - FIRST_WINDOW..];
      assert file[|file| - k - 1..] == LineBreaks(k + 1);
      FirstWindowStops(file, k);
      if |l| + k + 1 <= FIRST_WINDOW {
        var before := a[|file| - FIRST_WINDOW..];
        assert chunk == before + (l + LineBreaks(k + 1));
        LineThenBlanks(before, l, k + 1);
      } else {
        assert chunk == (l + LineBreaks(k + 1))[|l| + k + 1 - FIRST_WINDOW..];
        CutLine(l, k, chunk);
      }
    }
  }

  lemma WholeFileWindow(file: string)
    requires |file| <= FIRST_WINDOW
    ensures WindowedTail(file, FIRST_WINDOW) == LastOf(file)
  {
  }

  // -------------------------------------------------- archive names

  function Pow10(k: nat): nat {
    if k == 0 then 1 else 10 * Pow10(k - 1)
  }

  predicate Digits(s: string) {
    forall i :: 0 <= i < |s| ==> '0' <= s[i] <= '9'
  }

  lemma {:induction false} DigitsBound(s: string)
    requires Digits(s)
    ensures 0 <= DigitsValue(s) < Pow10(|s|)
  {
    if s != "" { DigitsBound(s[..|s| - 1]); }
  }

  lemma {:induction false} FirstDigit(s: string)
    requires s != "" && Digits(s)
    ensures DigitsValue(s) == (s[0] as int - '0' as int) * Pow10(|s| - 1) + DigitsValue(s[1..])
  {
    var n := |s| - 1;
    if n == 0 {
      assert s[..0] == "" && s[1..] == "";
    } else {
      FirstDigit(s[..n]);
      assert s[1..][..n - 1] == s[..n][1..];
      assert s[1..][n - 1] == s[n];
      var d, p := s[0] as int - '0' as int, Pow10(n - 1);
      assert 10 * (d * p) == d * (10 * p);
    }
  }

  lemma {:induction false} SameLengthOrder(a: string, b: string)
    requires Digits(a) && Digits(b) && |a| == |b| && DigitsValue(a) < DigitsValue(b)
    ensures StrLess(a, b)
  {
    if a != "" {
      FirstDigit(a);
      FirstDigit(b);
      DigitsBound(a[1..]);
      DigitsBound(b[1..]);
      var x, y, p := a[0] as int - '0' as int, b[0] as int - '0' as int, Pow10(|a| - 1);
      if x > y {
        LeadingDigitWins(x, y, p, DigitsValue(a[1..]), DigitsValue(b[1..]));
      } else if x == y {
        SameLengthOrder(a[1..], b[1..]);
      }
    }
  }

  lemma LeadingDigitWins(x: int, y: int, p: int, low: int, high: int)
    requires x > y && 0 <= low && high < p && p > 0
    ensures x * p + low > y * p + high
  {
    AtLeastOnce(x - y, p);
    assert x * p == y * p + (x - y) * p;
  }

  lemma {:induction false} AtLeastOnce(k: int, p: int)
    requires k >= 1 && p >= 0
    ensures k * p >= p
  {
    if k > 1 {
      AtLeastOnce(k - 1, p);
      assert k * p == (k - 1) * p + p;
    }
  }

  lemma {:induction false} DecimalLength(n: nat, k: nat)
    requires n < Pow10(k) && k > 0
    ensures |Decimal(n)| <= k
  {
    if n >= 10 {
      assert k > 1;
      DecimalLength(n / 10, k - 1);
    }
  }

  lemma {:induction false} ZerosAre(count: int)
    ensures |Zeros(count)| == (if count <= 0 then 0 else count) && Digits(Zeros(count))
  {
    if count > 0 { ZerosAre(count - 1); }
  }

  lemma PaddedDigits(n: nat, width: nat)
    requires width > 0 && n < Pow10(width)
    ensures |Padded(n, width)| == width && Digits(Padded(n, width)) && DigitsValue(Padded(n, width)) == n
  {
    hide Decimal, Zeros, Pow10, DigitsValue;
    DecimalLength(n, width);
    DecimalValue(n);
    ZerosAre(width - |Decimal(n)|);
    ZerosValue(width - |Decimal(n)|, Decimal(n));
  }

  lemma {:induction false} CommonPrefix(p: string, a: string, b: string)
    requires StrLe(a, b)
    ensures StrLe(p + a, p + b)
  {
    if p == "" {
      assert p + a == a && p + b == b;
    } else {
      assert (p + a)[1..] == p[1..] + a && (p + b)[1..] == p[1..] + b;
      CommonPrefix(p[1..], a, b);
    }
  }

  lemma {:induction false} SuffixIrrelevant(a: string, b: string, x: string, y: string)
    requires |a| == |b| && StrLess(a, b)
    ensures StrLess(a + x, b + y)
  {
    if a != "" {
      assert (a + x)[1..] == a[1..] + x && (b + y)[1..] == b[1..] + y;
      assert a == [a[0]] + a[1..] && b == [b[0]] + b[1..];
      assert (a + x)[0] == a[0] && (b + y)[0] == b[0];
      if a[0] == b[0] { SuffixIrrelevant(a[1..], b[1..], x, y); }
    }
  }

  /** `evidence-seq{n:08d}-{stamp}.jsonl`. */
  function ArchiveName(n: nat, stamp: string): string {
    "evidence-seq" + (Padded(n, 8) + ("-" + stamp + ".jsonl"))
  }

  /** Below 10^8 rotations the name order is the rotation order, whatever the time stamps. */
  lemma NamesFollowRotations(n: nat, m: nat, stampN: string, stampM: string)
    requires n < m < Pow10(8)
    ensures StrLess(ArchiveName(n, stampN), ArchiveName(m, stampM))
  {
    PaddedDigits(n, 8);
    PaddedDigits(m, 8);
    SameLengthOrder(Padded(n, 8), Padded(m, 8));
    var x, y := Padded(n, 8) + ("-" + stampN + ".jsonl"), Padded(m, 8) + ("-" + stampM + ".jsonl");
    SuffixIrrelevant(Padded(n, 8), Padded(m, 8), "-" + stampN + ".jsonl", "-" + stampM + ".jsonl");
    CommonPrefix("evidence-seq", x, y);
    if ArchiveName(n, stampN) == ArchiveName(m, stampM) {
      PrefixCancel("evidence-seq", x, y);
    }
  }

  /** The ninth digit breaks the order: rotation 10^8 is listed before its predecessor. */
  lemma NinthDigitBreaksTheOrder(stamp: string, later: string)
    ensures StrLess(ArchiveName(100_000_000, later), ArchiveName(99_999_999, stamp))
  {
    assert Decimal(1) == "1" && Decimal(10) == "10" && Decimal(100) == "100" && Decimal(1000) == "1000";
    assert Decimal(10_000) == "10000" && Decimal(100_000) == "100000" && Decimal(1_000_000) == "1000000";
    assert Decimal(10_000_000) == "10000000" && Decimal(100_000_000) == "100000000";
    assert Decimal(9) == "9" && Decimal(99) == "99" && Decimal(999) == "999" && Decimal(9999) == "9999";
    assert Decimal(99_999) == "99999" && Decimal(999_999) == "999999";
    assert Decimal(9_999_999) == "9999999" && Decimal(99_999_999) == "99999999";
    var x, y := Padded(100_000_000, 8) + ("-" + later + ".jsonl"), Padded(99_999_999, 8) + ("-" + stamp + ".jsonl");
    assert x[0] == '1' && y[0] == '9';
    CommonPrefix("evidence-seq", x, y);
    if ArchiveName(100_000_000, later) == ArchiveName(99_999_999, stamp) {
      PrefixCancel("evidence-seq", x, y);
    }
  }

  const MAX_ROTATIONS := 100_000_000

  lemma TenToTheEighth()
    ensures Pow10(8) == MAX_ROTATIONS
  {
    assert Pow10(4) == 10 * Pow10(3) == 100 * Pow10(2) == 10_000;
  }

  /** The number of the i-th rotation. The pattern that reads numbers back knows eight digits only, so after 10^8
      the number no longer grows. */
  function RotationNumber(i: nat): nat {
    if i + 1 <= MAX_ROTATIONS then i + 1 else MAX_ROTATIONS
  }

  /** Each rotation takes one more than the largest number that can be read back from the earlier names. */
  lemma RotationsCount(i: nat)
    ensures i == 0 ==> RotationNumber(i) == 1
    ensures forall j :: 0 <= j < i && RotationNumber(j) < 100_000_000 ==> RotationNumber(j) < RotationNumber(i)
    ensures i > 0 ==> exists j :: 0 <= j < i && RotationNumber(j) < 100_000_000 && RotationNumber(i) == RotationNumber(j) + 1
  {
    if i > 0 {
      var j := if i < MAX_ROTATIONS then i - 1 else MAX_ROTATIONS - 2;
      assert RotationNumber(i) == RotationNumber(j) + 1;
    }
  }

  function Names(stamps: seq<string>): (r: seq<string>)
    ensures |r| == |stamps|
    ensures forall i :: 0 <= i < |r| ==> r[i] == ArchiveName(RotationNumber(i), stamps[i])
  {
    seq(|stamps|, i requires 0 <= i < |stamps| => ArchiveName(RotationNumber(i), stamps[i]))
  }

  /** The listing of the archive directory is its creation order exactly as long as there are fewer than 10^8 archives. */
  lemma ListingIsCreationOrderExactly(stamps: seq<string>)
    ensures SortedStrings(Names(stamps)) <==> |stamps| < MAX_ROTATIONS
  {
    hide ArchiveName, StrLess;
    var names := Names(stamps);
    TenToTheEighth();
    if |stamps| < MAX_ROTATIONS {
      forall i, j | 0 <= i < j < |names| ensures StrLess(names[i], names[j]) {
        NamesFollowRotations(i + 1, j + 1, stamps[i], stamps[j]);
      }
    } else {
      var i, j := MAX_ROTATIONS - 2, MAX_ROTATIONS - 1;
      NinthDigitBreaksTheOrder(stamps[i], stamps[j]);
      assert StrLess(names[j], names[i]);
      NotBothLess(names[i], names[j]);
    }
  }

  lemma NotBothLess(a: string, b: string)
    ensures !(StrLess(a, b) && StrLess(b, a))
  {
    StrLeTotal(a, b);
  }
}
