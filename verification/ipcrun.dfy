/** Reading the discovery file `ipc.run` that the running main application leaves
    behind: a process id on the first line and the base URL of its local HTTP
    control server on the second. The file read itself is an input: `None` stands
    for a failed read. */
module IpcRun {
  import opened Wrappers
  import opened Strings

  /** Bounds of Go's `int` on a 64-bit platform. */
  const MinInt64: int := -0x8000_0000_0000_0000
  const MaxInt64: int := 0x7fff_ffff_ffff_ffff

  predicate IsDigit(c: char)
  {
    '0' <= c <= '9'
  }

  predicate AllDigits(s: string)
  {
    forall i :: 0 <= i < |s| ==> IsDigit(s[i])
  }

  /** The value of a string of decimal digits, most significant first. */
  function DigitsValue(s: string): nat
    requires AllDigits(s)
    decreases |s|
  {
    if |s| == 0 then 0
    else DigitsValue(s[..|s| - 1]) * 10 + (s[|s| - 1] as int - '0' as int)
  }

  /** The decimal digit for `d`. */
  function Digit(d: nat): char
    requires d < 10
  {
    ('0' as int + d) as char
  }

  /** The shortest decimal rendering of `n`, as Go's `strconv.Itoa` writes a
      non-negative number. */
  function DecimalString(n: nat): string
    decreases n
  {
    if n < 10 then [Digit(n)] else DecimalString(n / 10) + [Digit(n % 10)]
  }

  /** Go's `strconv.Atoi` on a 64-bit platform, `None` standing for its error: an
      optional `+` or `-`, then at least one decimal digit (leading zeros allowed),
      with a value that fits in 64 bits. Accepted strings are exactly those; the
      value is in range. */
  function Atoi(s: string): (r: Option<int>)
    ensures r.Some? ==> MinInt64 <= r.value <= MaxInt64
    ensures r.Some? ==> |s| > 0 && (s[0] == '+' || s[0] == '-' || IsDigit(s[0]))
    ensures r.Some? ==> forall i :: 1 <= i < |s| ==> IsDigit(s[i])
    ensures r.Some? ==> exists i :: 0 <= i < |s| && IsDigit(s[i])
  {
    var signed := |s| > 0 && (s[0] == '+' || s[0] == '-');
    var digits := if signed then s[1..] else s;
    if |digits| == 0 || !AllDigits(digits) then None
    else
      var magnitude := DigitsValue(digits);
      var v := if signed && s[0] == '-' then -(magnitude as int) else magnitude;
      if MinInt64 <= v <= MaxInt64 then
        assert signed ==> IsDigit(s[1]) && digits[0] == s[1];
        assert forall i :: 1 <= i < |s| ==> IsDigit(s[i]) by {
          forall i | 1 <= i < |s|
            ensures IsDigit(s[i])
          {
            if signed {
              assert s[i] == digits[i - 1];
            } else {
              assert s[i] == digits[i];
            }
          }
        }
        Some(v)
      else None
  }

  /** The rendering consists of digits and reads back as the number. */
  lemma {:induction false} DecimalStringValue(n: nat)
    ensures |DecimalString(n)| > 0
    ensures AllDigits(DecimalString(n))
    ensures DigitsValue(DecimalString(n)) == n
    decreases n
  {
    var s := DecimalString(n);
    if n >= 10 {
      DecimalStringValue(n / 10);
      assert s[..|s| - 1] == DecimalString(n / 10);
    }
  }

  /** Every 64-bit non-negative number survives a trip through its decimal rendering. */
  lemma AtoiDecimalString(n: nat)
    requires n <= MaxInt64
    ensures Atoi(DecimalString(n)) == Some(n)
  {
    DecimalStringValue(n);
  }

  /** A minus sign in front of the rendering gives the negated number, down to the
      64-bit minimum. */
  lemma AtoiNegative(n: nat)
    requires n <= -MinInt64
    ensures Atoi("-" + DecimalString(n)) == Some(-(n as int))
  {
    DecimalStringValue(n);
    assert ("-" + DecimalString(n))[1..] == DecimalString(n);
  }

  /** One past either end of the 64-bit range is rejected. */
  lemma AtoiOutOfRange()
    ensures Atoi(DecimalString(MaxInt64 + 1)) == None
    ensures Atoi("-" + DecimalString(-MinInt64 + 1)) == None
  {
    DecimalStringValue(MaxInt64 + 1);
    DecimalStringValue(-MinInt64 + 1);
    assert ("-" + DecimalString(-MinInt64 + 1))[1..] == DecimalString(-MinInt64 + 1);
  }

  /** An optional sign followed by at least one digit is accepted exactly when its
      value fits in 64 bits, and then that value is the result. */
  lemma AtoiSignedDigits(sign: string, digits: string)
    requires sign == "" || sign == "+" || sign == "-"
    requires |digits| > 0 && AllDigits(digits)
    ensures var v := if sign == "-" then -(DigitsValue(digits) as int) else DigitsValue(digits);
      Atoi(sign + digits) == if MinInt64 <= v <= MaxInt64 then Some(v) else None
  {
    var s := sign + digits;
    if sign == "" {
      assert s == digits;
      assert IsDigit(digits[0]);
    } else {
      assert s[0] == sign[0];
      assert s[1..] == digits;
    }
  }

  /** A string that is empty, only a sign, or holds a character other than a digit
      after its first is rejected. */
  lemma AtoiRejectsMalformed(s: string)
    requires || |s| == 0
             || s == "+" || s == "-"
             || exists i :: 1 <= i < |s| && !IsDigit(s[i])
    ensures Atoi(s) == None
  {
  }

  /** The run-time failure Go reports when the content has no second line. */
  const IndexOutOfRange: string := "index out of range [1] with length 1"

  /** Go's `readIpcRunFile` after the file read: `None` (the read failed) gives the
      empty URL; otherwise the content is split into lines, a first line that is not
      an integer gives the empty URL, and otherwise the second line is the URL.
      Indexing a missing second line is a run-time panic in Go, modelled as
      `Failure`. */
  function ReadIpcRunFile(content: Option<string>): Result<string, string>
  {
    if content.None? then Success("")
    else
      var parts := Split(content.value, '\n');
      if Atoi(parts[0]).None? then Success("")
      else if |parts| < 2 then Failure(IndexOutOfRange)
      else Success(parts[1])
  }

  /** Content with at least two lines: the URL is the second line exactly when the
      first is an integer, and empty otherwise. Whatever follows the second line is
      ignored. */
  lemma ReadIpcRunFileLines(first: string, second: string, tail: string)
    requires '\n' !in first && '\n' !in second
    requires tail == "" || tail[0] == '\n'
    ensures ReadIpcRunFile(Some(first + "\n" + second + tail))
      == if Atoi(first).Some? then Success(second) else Success("")
  {
    var content := first + "\n" + second + tail;
    assert content == first + ['\n'] + (second + tail);
    SplitAtFirst(first, '\n', second + tail);
    if tail == "" {
      assert second + tail == second;
      SplitWithoutSeparator(second, '\n');
    } else {
      assert second + tail == second + ['\n'] + tail[1..];
      SplitAtFirst(second, '\n', tail[1..]);
    }
  }

  /** Content of a single line: empty URL when it is not an integer, the
      out-of-range failure when it is. */
  lemma ReadIpcRunFileSingleLine(line: string)
    requires '\n' !in line
    ensures ReadIpcRunFile(Some(line))
      == if Atoi(line).Some? then Failure(IndexOutOfRange) else Success("")
  {
    SplitWithoutSeparator(line, '\n');
  }

  /** A successful read never yields more than one line. */
  lemma ReadIpcRunFileOneLine(content: Option<string>)
    ensures ReadIpcRunFile(content).Success? ==> '\n' !in ReadIpcRunFile(content).value
  {
    if content.Some? {
      SplitSpec(content.value, '\n');
    }
  }

  /** The file as the main application writes it: its process id, a newline and its
      URL. */
  function IpcRunContent(pid: nat, url: string): string
  {
    DecimalString(pid) + "\n" + url
  }

  /** Reading back what was written recovers the URL. */
  lemma ReadWrittenIpcRun(pid: nat, url: string)
    requires pid <= MaxInt64 && '\n' !in url
    ensures ReadIpcRunFile(Some(IpcRunContent(pid, url))) == Success(url)
  {
    DecimalStringValue(pid);
    AtoiDecimalString(pid);
    assert '\n' !in DecimalString(pid);
    assert IpcRunContent(pid, url) == DecimalString(pid) + "\n" + url + "";
    ReadIpcRunFileLines(DecimalString(pid), url, "");
  }
}
