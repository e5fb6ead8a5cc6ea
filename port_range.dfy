/** The `--port-range` argument of the scan runner (Portscanner.py, lines
    88-92): `"all"` is every TCP port, `"<start>-<end>"` the inclusive range
    between two integers read the way Python's `int()` reads them. */
module PortRange {
  import opened Wrappers
  import Scanner

  /** Why an argument is rejected (Python raises `ValueError` for both). */
  datatype RangeError =
    | NotAnInteger(text: string)  // a part that `int()` refuses
    | WrongPartCount(count: nat)  // the split did not give exactly two parts

  const FirstPort: int := 1
  const LastPort: int := 65535

  /** Python's `range(lo, hi)`: the integers from `lo` up to, not including, `hi`. */
  function Range(lo: int, hi: int): (r: seq<int>)
    ensures |r| == if lo < hi then hi - lo else 0
    ensures forall i :: 0 <= i < |r| ==> r[i] == lo + i
    decreases hi - lo
  {
    if lo >= hi then [] else [lo] + Range(lo + 1, hi)
  }

  /** A range holds exactly the integers between its bounds, each once. */
  lemma RangeMembers(lo: int, hi: int)
    ensures forall p :: p in Range(lo, hi) <==> lo <= p < hi
    ensures Scanner.NoDuplicates(Range(lo, hi))
  {
    var r := Range(lo, hi);
    forall p | lo <= p < hi
      ensures p in r
    {
      assert r[p - lo] == p;
    }
  }

  // ----- str.split(sep) -----

  /** `sep.join(parts)`. */
  function Join(parts: seq<string>, sep: char): string
    requires |parts| >= 1
  {
    if |parts| == 1 then parts[0] else parts[0] + [sep] + Join(parts[1..], sep)
  }

  /** `s.split(sep)`: the pieces between the separators, at least one piece,
      none containing the separator, and joining them gives back `s`. */
  function Split(s: string, sep: char): (parts: seq<string>)
    ensures |parts| >= 1
    ensures forall i :: 0 <= i < |parts| ==> sep !in parts[i]
    ensures Join(parts, sep) == s
  {
    if s == [] then [""]
    else if s[0] == sep then
      var rest := Split(s[1..], sep);
      assert [sep] + s[1..] == s;
      [""] + rest
    else
      var rest := Split(s[1..], sep);
      assert [s[0]] + s[1..] == s;
      [[s[0]] + rest[0]] + rest[1..]
  }

  /** A piece free of the separator, then the separator, splits off as one part. */
  lemma {:induction false} SplitPiece(a: string, rest: string, sep: char)
    requires sep !in a
    ensures Split(a + [sep] + rest, sep) == [a] + Split(rest, sep)
  {
    var s := a + [sep] + rest;
    if a == [] {
      assert s[0] == sep && s[1..] == rest;
    } else {
      assert s[0] == a[0] && s[0] != sep;
      assert s[1..] == a[1..] + [sep] + rest;
      SplitPiece(a[1..], rest, sep);
      assert [a[0]] + a[1..] == a;
    }
  }

  /** Text without the separator splits into itself alone. */
  lemma {:induction false} SplitWhole(a: string, sep: char)
    requires sep !in a
    ensures Split(a, sep) == [a]
  {
    if a != [] {
      assert a[0] != sep;
      SplitWhole(a[1..], sep);
      assert [a[0]] + a[1..] == a;
    }
  }

  /** Splitting undoes joining pieces that hold no separator. */
  lemma {:induction false} SplitJoin(parts: seq<string>, sep: char)
    requires |parts| >= 1
    requires forall i :: 0 <= i < |parts| ==> sep !in parts[i]
    ensures Split(Join(parts, sep), sep) == parts
  {
    if |parts| == 1 {
      SplitWhole(parts[0], sep);
    } else {
      SplitJoin(parts[1..], sep);
      SplitPiece(parts[0], Join(parts[1..], sep), sep);
      assert [parts[0]] + parts[1..] == parts;
    }
  }

  // ----- int(text) -----

  /** The ASCII characters `int()` skips around a number: space, tab, line
      feed, vertical tab, form feed and carriage return. The separators
      `\x1c` to `\x1f`, which `str.strip()` also removes, are not skipped. */
  predicate IsSpace(c: char) {
    c == ' ' || ('\t' <= c <= '\r')
  }

  predicate IsDigit(c: char) {
    '0' <= c <= '9'
  }

  /** `s` without its leading whitespace. */
  function TrimLeft(s: string): string
  {
    if s != [] && IsSpace(s[0]) then TrimLeft(s[1..]) else s
  }

  /** `s` without its trailing whitespace. */
  function TrimRight(s: string): string
  {
    if s != [] && IsSpace(s[|s| - 1]) then TrimRight(s[..|s| - 1]) else s
  }

  /** Digits, optionally with single underscores between two digits, as
      `int()` accepts them in base 10 (leading zeros allowed). */
  predicate IsDigitGroup(s: string) {
    && |s| > 0
    && IsDigit(s[0]) && IsDigit(s[|s| - 1])
    && (forall i :: 0 <= i < |s| ==> IsDigit(s[i]) || s[i] == '_')
    && (forall i :: 0 < i < |s| && s[i] == '_' ==> s[i - 1] != '_')
  }

  /** The number a digit group denotes, reading the digits left to right. */
  function DigitsValue(s: string): (v: nat)
  {
    if s == [] then 0
    else if s[|s| - 1] == '_' then DigitsValue(s[..|s| - 1])
    else if IsDigit(s[|s| - 1]) then 10 * DigitsValue(s[..|s| - 1]) + (s[|s| - 1] as int - '0' as int)
    else DigitsValue(s[..|s| - 1])
  }

  /** `TrimLeft` drops the leading run of whitespace and nothing else: what
      is left is a suffix of `s` that does not start with whitespace. */
  lemma {:induction false} TrimLeftDrops(s: string)
    ensures var t := TrimLeft(s);
      && |t| <= |s| && t == s[|s| - |t|..]
      && (forall i :: 0 <= i < |s| - |t| ==> IsSpace(s[i]))
      && (t == [] || !IsSpace(t[0]))
  {
    if s != [] && IsSpace(s[0]) {
      var rest := s[1..];
      TrimLeftDrops(rest);
      var t := TrimLeft(rest);
      assert TrimLeft(s) == t;
      assert rest[|rest| - |t|..] == s[|s| - |t|..];
      forall i | 1 <= i < |s| - |t|
        ensures IsSpace(s[i])
      {
        assert s[i] == rest[i - 1];
      }
    }
  }

  /** `TrimRight` drops the trailing run of whitespace and nothing else: what
      is left is a prefix of `s` that does not end with whitespace. */
  lemma {:induction false} TrimRightDrops(s: string)
    ensures var t := TrimRight(s);
      && |t| <= |s| && t == s[..|t|]
      && (forall i :: |t| <= i < |s| ==> IsSpace(s[i]))
      && (t == [] || !IsSpace(t[|t| - 1]))
  {
    if s != [] && IsSpace(s[|s| - 1]) {
      TrimRightDrops(s[..|s| - 1]);
    }
  }

  /** `int(text)`: surrounding whitespace, an optional sign, then a digit
      group; `None` where Python raises `ValueError`. A negative value needs a
      '-' in the text, so a part of a '-' split never reads as negative. */
  function ParseInt(text: string): (r: Option<int>)
    ensures r.Some? && '-' !in text ==> r.value >= 0
  {
    var t := TrimRight(TrimLeft(text));
    if t == [] then None
    else
      var body := if t[0] == '+' || t[0] == '-' then t[1..] else t;
      var magnitude: int := DigitsValue(body);
      if !IsDigitGroup(body) then None
      else if t[0] == '-' then
        SignFromText(text);
        Some(-magnitude)
      else Some(magnitude)
  }

  /** The first character left after trimming is a character of the text. */
  lemma SignFromText(text: string)
    requires TrimRight(TrimLeft(text)) != []
    ensures TrimRight(TrimLeft(text))[0] in text
  {
    var l := TrimLeft(text);
    TrimLeftDrops(text);
    TrimRightDrops(l);
    assert TrimRight(l)[0] == l[0] == text[|text| - |l|];
  }

  /** `int()` refuses a number preceded by a file separator (`\x1c`), which
      it does not count as whitespace. */
  lemma SeparatorIsNotSpace(n: nat)
    ensures ParseInt([28 as char] + Decimal(n)) == None
  {
    var s := [28 as char] + Decimal(n);
    DecimalIsDigitGroup(n);
    assert TrimLeft(s) == s;
    assert s[|s| - 1] == Decimal(n)[|Decimal(n)| - 1];
    assert TrimRight(s) == s;
  }

  /** `int("-" + str(n)) == -n`: a minus sign before decimal text negates it. */
  lemma ParseIntOfNegative(n: nat)
    ensures ParseInt("-" + Decimal(n)) == Some(-(n as int))
  {
    var d := Decimal(n);
    var s := "-" + d;
    DecimalIsDigitGroup(n);
    assert s[0] == '-' && !IsSpace(s[0]);
    assert TrimLeft(s) == s;
    assert s[|s| - 1] == d[|d| - 1];
    assert TrimRight(s) == s;
    assert s[1..] == d;
    DigitsValueOfDecimal(n);
  }

  /** Text that is empty or only whitespace is not an integer. */
  lemma BlankIsNotAnInteger(text: string)
    requires forall i :: 0 <= i < |text| ==> IsSpace(text[i])
    ensures ParseInt(text) == None
  {
    TrimLeftDrops(text);
  }

  /** `str(n)` for a natural number: its decimal digits, no leading zero. */
  function Decimal(n: nat): (s: string)
    ensures |s| >= 1
    ensures forall i :: 0 <= i < |s| ==> IsDigit(s[i])
  {
    if n < 10 then [('0' as int + n) as char]
    else Decimal(n / 10) + [('0' as int + n % 10) as char]
  }

  /** The decimal digits of `n` denote `n`. */
  lemma {:induction false} DigitsValueOfDecimal(n: nat)
    ensures DigitsValue(Decimal(n)) == n
  {
    if n >= 10 {
      var s := Decimal(n);
      assert s[..|s| - 1] == Decimal(n / 10);
      DigitsValueOfDecimal(n / 10);
    }
  }

  /** The decimal text of `n` is a digit group with no surrounding whitespace. */
  lemma DecimalIsDigitGroup(n: nat)
    ensures IsDigitGroup(Decimal(n))
    ensures !IsSpace(Decimal(n)[0]) && !IsSpace(Decimal(n)[|Decimal(n)| - 1])
  {
  }

  /** `int(str(n)) == n`: the decimal text of a number reads back as it. */
  lemma ParseIntOfDecimal(n: nat)
    ensures ParseInt(Decimal(n)) == Some(n)
  {
    var s := Decimal(n);
    DecimalIsDigitGroup(n);
    assert TrimLeft(s) == s;
    assert TrimRight(s) == s;
    DigitsValueOfDecimal(n);
  }

  // ----- the argument -----

  /** `start, end = map(int, parts)`: Python's two-target unpacking pulls
      items from the lazy `map` one at a time, so `int()` is applied to the
      first part, then the count is checked, then to the second part, and a
      third part is converted before "too many values" is reported. Succeeds
      exactly when there are two parts and `int()` accepts both. */
  function UnpackBounds(parts: seq<string>): (r: Result<(int, int), RangeError>)
    requires |parts| >= 1
    ensures r.Ok? <==> |parts| == 2 && ParseInt(parts[0]).Some? && ParseInt(parts[1]).Some?
    ensures r.Ok? ==> r.value == (ParseInt(parts[0]).value, ParseInt(parts[1]).value)
    ensures r.Err? && r.error.NotAnInteger? ==> r.error.text in parts
  {
    var start := ParseInt(parts[0]);
    if start.None? then Err(NotAnInteger(parts[0]))
    else if |parts| == 1 then Err(WrongPartCount(1))
    else
      var end := ParseInt(parts[1]);
      if end.None? then Err(NotAnInteger(parts[1]))
      else if |parts| > 2 && ParseInt(parts[2]).None? then Err(NotAnInteger(parts[2]))
      else if |parts| > 2 then Err(WrongPartCount(|parts|))
      else Ok((start.value, end.value))
  }

  /** Expands the port-range argument: `"all"` is every TCP port, anything
      else is split at '-' and unpacked into two bounds, giving the range from
      the first to the second inclusive (empty when the first exceeds the
      second). Fails exactly when the text is not `"all"` and does not split
      into two parts that `int()` accepts. */
  function ParsePortRange(arg: string): (r: Result<seq<int>, RangeError>)
    ensures arg == "all" ==> r == Ok(Range(FirstPort, LastPort + 1))
    ensures r.Ok? <==> (arg == "all" || UnpackBounds(Split(arg, '-')).Ok?)
  {
    if arg == "all" then Ok(Range(FirstPort, LastPort + 1))
    else
      match UnpackBounds(Split(arg, '-'))
      case Ok((start, end)) => Ok(Range(start, end + 1))
      case Err(e) => Err(e)
  }

  /** An accepted `"<start>-<end>"` holds exactly the ports from start to end,
      both included, each once. */
  lemma ParsedRangeMembers(arg: string)
    requires arg != "all" && ParsePortRange(arg).Ok?
    ensures var (lo, hi) := UnpackBounds(Split(arg, '-')).value;
      (forall p :: p in ParsePortRange(arg).value <==> lo <= p <= hi)
      && Scanner.NoDuplicates(ParsePortRange(arg).value)
    ensures forall p :: p in ParsePortRange(arg).value ==> p >= 0
  {
    var parts := Split(arg, '-');
    var (lo, hi) := UnpackBounds(parts).value;
    assert '-' !in parts[0];
    assert ParsePortRange(arg) == Ok(Range(lo, hi + 1));
    RangeMembers(lo, hi + 1);
  }

  /** `"all"` expands to the ports 1 to 65535, each exactly once. */
  lemma AllPorts()
    ensures ParsePortRange("all").Ok?
    ensures var ports := ParsePortRange("all").value;
      |ports| == 65535 && (forall p :: p in ports <==> 1 <= p <= 65535) && Scanner.NoDuplicates(ports)
  {
    RangeMembers(FirstPort, LastPort + 1);
  }

  /** `"<a>-<b>"` written in decimal expands to `a..b` inclusive: `b - a + 1`
      ports in increasing order, none when `a > b`. */
  lemma BoundedPorts(a: nat, b: nat)
    ensures ParsePortRange(Decimal(a) + "-" + Decimal(b)) == Ok(Range(a, b + 1))
    ensures |Range(a, b + 1)| == if a <= b then b - a + 1 else 0
  {
    SplitBounds(a, b);
    UnpackDecimals(a, b);
  }

  /** Two decimal parts unpack to the numbers they denote. */
  lemma UnpackDecimals(a: nat, b: nat)
    ensures UnpackBounds([Decimal(a), Decimal(b)]) == Ok((a, b))
  {
    ParseIntOfDecimal(a);
    ParseIntOfDecimal(b);
  }

  /** `"<a>-<b>"` in decimal is not `"all"` and splits into its two numbers. */
  lemma SplitBounds(a: nat, b: nat)
    ensures var arg := Decimal(a) + "-" + Decimal(b);
      arg != "all" && Split(arg, '-') == [Decimal(a), Decimal(b)]
  {
    var arg := Decimal(a) + "-" + Decimal(b);
    assert arg[|Decimal(a)|] == '-';
    SplitPiece(Decimal(a), Decimal(b), '-');
    SplitWhole(Decimal(b), '-');
  }
}
