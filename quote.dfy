/** The lightweight quote path of the backend: `parse_price`, and the text
    post-processing of the Kotak quote page (current price, previous close,
    price change split into an amount and a percentage). The page itself is an
    abstract value: each element the code looks up is an optional text. */
module Quote {
  import opened Text

  // ---------------------------------------------------------------------
  // parse_price
  // ---------------------------------------------------------------------

  /** The argument of `parse_price`: Python's None, an int or float, or any
      other value, seen through `str()`. */
  datatype PriceInput = NoValue | Number(n: real) | Other(text: string)

  /** `float()` raising `ValueError` on the cleaned text. */
  datatype PriceError = FloatConversionError(text: string)

  function DotCount(s: string): nat
  {
    if s == [] then 0 else (if s[0] == '.' then 1 else 0) + DotCount(s[1..])
  }

  predicate HasDigit(s: string)
  {
    exists i :: 0 <= i < |s| && IsDigit(s[i])
  }

  /** The strings of digits and dots that `float()` accepts: at most one dot
      and at least one digit ("5.", ".5" and "5" are accepted, "." is not). */
  predicate IsDecimalText(s: string)
  {
    (forall i :: 0 <= i < |s| ==> IsNumChar(s[i])) && DotCount(s) <= 1 && HasDigit(s)
  }

  function Pow10(n: nat): (r: nat)
    ensures r >= 1
  {
    if n == 0 then 1 else 10 * Pow10(n - 1)
  }

  function DigitValue(c: char): nat
    requires IsDigit(c)
  {
    c as int - '0' as int
  }

  /** The integer written by a string of decimal digits (0 for the empty string). */
  function DigitsValue(s: string): nat
    requires forall i :: 0 <= i < |s| ==> IsDigit(s[i])
  {
    if s == [] then 0 else 10 * DigitsValue(s[..|s| - 1]) + DigitValue(s[|s| - 1])
  }

  /** The exact rational a decimal text denotes: all its digits read as one
      integer, divided by ten to the number of digits after the dot. */
  function DecimalValue(s: string): real
    requires IsDecimalText(s)
  {
    match IndexOf(s, '.')
    case None =>
      DigitsValue(s) as real
    case Some(k) =>
      DotCountAfterFirst(s, k);
      var digits := s[..k] + s[k + 1..];
      assert forall i :: 0 <= i < |digits| ==> IsDigit(digits[i]);
      DigitsValue(digits) as real / Pow10(|s| - k - 1) as real
  }

  /** With at most one dot and the first one at `k`, no dot follows `k`. */
  lemma DotCountAfterFirst(s: string, k: nat)
    requires k < |s| && s[k] == '.' && DotCount(s) <= 1
    ensures forall i :: 0 <= i < |s| && i != k ==> s[i] != '.'
  {
    forall i | 0 <= i < |s| && i != k
      ensures s[i] != '.'
    {
      if s[i] == '.' { TwoDots(s, i, k); }
    }
  }

  lemma {:induction false} TwoDots(s: string, i: nat, k: nat)
    requires i < |s| && k < |s| && i != k && s[i] == '.' && s[k] == '.'
    ensures DotCount(s) >= 2
  {
    if i > 0 && k > 0 {
      TwoDots(s[1..], i - 1, k - 1);
    } else if i == 0 {
      OneDot(s[1..], k - 1);
    } else {
      OneDot(s[1..], i - 1);
    }
  }

  lemma {:induction false} OneDot(s: string, k: nat)
    requires k < |s| && s[k] == '.'
    ensures DotCount(s) >= 1
  {
    if k > 0 { OneDot(s[1..], k - 1); }
  }

  /** `parse_price`: None is 0, a number passes through, anything else keeps
      only its digits and dots and goes through `float()`, which raises on
      text such as "1.2.3" or ".". */
  function ParsePrice(v: PriceInput): (r: Result<real, PriceError>)
    ensures v.NoValue? ==> r == Ok(0.0)
    ensures v.Number? ==> r == Ok(v.n)
    ensures v.Other? ==>
      (r.Err? <==> KeepNumeric(v.text) != [] && (DotCount(KeepNumeric(v.text)) >= 2 || !HasDigit(KeepNumeric(v.text))))
    ensures v.Other? && r.Ok? ==> r.value >= 0.0
    ensures v.Other? && KeepNumeric(v.text) == [] ==> r == Ok(0.0)
  {
    match v
    case NoValue => Ok(0.0)
    case Number(n) => Ok(n)
    case Other(s) =>
      var cleaned := KeepNumeric(s);
      if cleaned == [] then Ok(0.0)
      else if IsDecimalText(cleaned) then Ok(DecimalValue(cleaned))
      else Err(FloatConversionError(cleaned))
  }

  /** Parsing already-cleaned text gives the same answer as parsing the raw text. */
  lemma ParsePriceOfCleaned(s: string)
    ensures ParsePrice(Other(KeepNumeric(s))) == ParsePrice(Other(s))
  {
    KeepNumericIdempotent(s);
  }

  /** A plain run of digits parses to the integer it writes. */
  lemma {:induction false} ParsePriceOfDigits(s: string)
    requires s != [] && forall i :: 0 <= i < |s| ==> IsDigit(s[i])
    ensures ParsePrice(Other(s)) == Ok(DigitsValue(s) as real)
  {
    KeepNumericOfNumeric(s);
    assert IsDigit(s[0]);
    assert IndexOf(s, '.') == None;
    NoDotCount(s);
  }

  /** A decimal text "a.b" parses to the integer its digits write, divided
      by ten to the number of digits after the dot. */
  lemma {:induction false} ParsePriceOfDecimal(a: string, b: string)
    requires forall i :: 0 <= i < |a| ==> IsDigit(a[i])
    requires forall i :: 0 <= i < |b| ==> IsDigit(b[i])
    requires a + b != []
    ensures forall i :: 0 <= i < |a + b| ==> IsDigit((a + b)[i])
    ensures ParsePrice(Other(a + "." + b)) == Ok(DigitsValue(a + b) as real / Pow10(|b|) as real)
  {
    var s := a + "." + b;
    DecimalTextShape(a, b);
    assert s[..|a|] + s[|a| + 1..] == a + b by {
      assert s[..|a|] == a;
      assert s[|a| + 1..] == b;
    }
    assert |s| - |a| - 1 == |b|;
    assert DecimalValue(s) == DigitsValue(a + b) as real / Pow10(|b|) as real;
  }

  /** "a.b" of digits is already clean, is accepted by `float()`, and has its
      only dot after `a`. */
  lemma {:induction false} DecimalTextShape(a: string, b: string)
    requires forall i :: 0 <= i < |a| ==> IsDigit(a[i])
    requires forall i :: 0 <= i < |b| ==> IsDigit(b[i])
    requires a + b != []
    ensures KeepNumeric(a + "." + b) == a + "." + b
    ensures IsDecimalText(a + "." + b)
    ensures IndexOf(a + "." + b, '.') == Some(|a|)
  {
    var s := a + "." + b;
    assert forall i :: 0 <= i < |s| ==> IsNumChar(s[i]);
    KeepNumericOfNumeric(s);
    NoDotCount(a);
    NoDotCount(b);
    DotCountAppend(a, "." + b);
    DotCountAppend(".", b);
    assert DotCount(s) == 1 by { assert a + "." + b == a + ("." + b); }
    assert HasDigit(s) by {
      if a != [] { assert IsDigit(s[0]); } else { assert IsDigit(s[1]); }
    }
    assert IndexOf(s, '.') == Some(|a|) by {
      var r := IndexOf(s, '.');
      assert s[|a|] == '.';
      if r.None? || r.value != |a| { assert false; }
    }
  }

  lemma {:induction false} DotCountAppend(x: string, y: string)
    ensures DotCount(x + y) == DotCount(x) + DotCount(y)
  {
    if x == [] {
      assert x + y == y;
    } else {
      assert (x + y)[0] == x[0];
      assert (x + y)[1..] == x[1..] + y;
      DotCountAppend(x[1..], y);
    }
  }

  lemma {:induction false} NoDotCount(s: string)
    requires forall i :: 0 <= i < |s| ==> s[i] != '.'
    ensures DotCount(s) == 0
  {
    if s != [] { NoDotCount(s[1..]); }
  }

  // ---------------------------------------------------------------------
  // Price-change split
  // ---------------------------------------------------------------------

  predicate IsSign(c: char) { c == '+' || c == '-' }

  /** The longest prefix of `s` made of digits and dots: what the greedy
      `[\d.]+` (or `[\d.]*`) consumes. */
  function NumRun(s: string): (r: string)
    ensures IsPrefix(r, s)
    ensures forall i :: 0 <= i < |r| ==> IsNumChar(r[i])
    ensures |r| < |s| ==> !IsNumChar(s[|r|])
  {
    if s != [] && IsNumChar(s[0]) then [s[0]] + NumRun(s[1..]) else []
  }

  /** A numeric prefix followed by a non-numeric character (or the end) is the run. */
  lemma {:induction false} NumRunUnique(s: string, t: string)
    requires IsPrefix(t, s)
    requires forall i :: 0 <= i < |t| ==> IsNumChar(t[i])
    requires |t| < |s| ==> !IsNumChar(s[|t|])
    ensures NumRun(s) == t
  {
    if t != [] {
      assert s[0] == t[0];
      assert IsPrefix(t[1..], s[1..]) by { assert s[1..][..|t| - 1] == t[1..]; }
      NumRunUnique(s[1..], t[1..]);
      assert t == [t[0]] + t[1..];
    }
  }

  /** A match of `[\d.]+`. */
  predicate IsNumToken(t: string)
  {
    |t| > 0 && forall i :: 0 <= i < |t| ==> IsNumChar(t[i])
  }

  /** A match of `[+-]?[\d.]+`. */
  predicate IsSignedNumber(a: string)
  {
    IsNumToken(a) || (|a| > 1 && IsSign(a[0]) && IsNumToken(a[1..]))
  }

  /** The group of `re.search(r'^([+-]?[\d.]+)', s)`, None when it does not match. */
  function LeadingAmount(s: string): Option<string>
  {
    if s != [] && IsSign(s[0]) then
      var run := NumRun(s[1..]);
      if run != [] then Some([s[0]] + run) else None
    else
      var run := NumRun(s);
      if run != [] then Some(run) else None
  }

  /** LeadingAmount is the greedy anchored match: the longest prefix of `s`
      that is a signed number, and None exactly when no prefix is one. */
  lemma LeadingAmountIsGreedyMatch(s: string)
    ensures LeadingAmount(s).Some? ==>
      var a := LeadingAmount(s).value;
      IsPrefix(a, s) && IsSignedNumber(a) && forall n :: |a| < n <= |s| ==> !IsSignedNumber(s[..n])
    ensures LeadingAmount(s).None? ==> forall n :: 0 <= n <= |s| ==> !IsSignedNumber(s[..n])
  {
    if s != [] && IsSign(s[0]) {
      var run := NumRun(s[1..]);
      forall n | 1 + |run| < n <= |s|
        ensures !IsSignedNumber(s[..n])
      {
        assert !IsNumChar(s[..n][0]);
        assert s[..n][1..][|run|] == s[1..][|run|];
      }
      forall n | 0 <= n <= |s| && run == []
        ensures !IsSignedNumber(s[..n])
      {
        if n > 1 { assert s[..n][1..][0] == s[1..][0]; }
      }
    } else {
      var run := NumRun(s);
      forall n | |run| < n <= |s|
        ensures !IsSignedNumber(s[..n])
      {
        assert s[..n][|run|] == s[|run|];
        if |run| > 0 { assert !IsSign(s[..n][0]); }
      }
    }
  }

  /** `re.search(r'\(([+-]?[\d.]+%)\)', s)` matches at index `i` with group `p`. */
  predicate PercentAt(s: string, i: int, p: string)
  {
    0 <= i && i + |p| + 2 <= |s| && s[i] == '(' && s[i + 1..i + 1 + |p|] == p && s[i + 1 + |p|] == ')'
    && |p| >= 2 && p[|p| - 1] == '%' && IsSignedNumber(p[..|p| - 1])
  }

  /** The match attempt at index `i`, following the regex: an optional sign,
      the greedy digit-and-dot run, then "%)". */
  function PercentAtIndex(s: string, i: nat): Option<string>
  {
    if i < |s| && s[i] == '(' then
      var rest := s[i + 1..];
      var sign := if rest != [] && IsSign(rest[0]) then [rest[0]] else [];
      var run := NumRun(rest[|sign|..]);
      var k := |sign| + |run|;
      if run != [] && k + 1 < |rest| && rest[k] == '%' && rest[k + 1] == ')' then Some(sign + run + "%") else None
    else None
  }

  lemma {:induction false} PercentAtIndexSound(s: string, i: nat)
    ensures PercentAtIndex(s, i).Some? ==> PercentAt(s, i, PercentAtIndex(s, i).value)
  {
    if PercentAtIndex(s, i).Some? {
      var rest := s[i + 1..];
      var sign := if rest != [] && IsSign(rest[0]) then [rest[0]] else [];
      PercentFromPieces(s, i, sign, NumRun(rest[|sign|..]));
    }
  }

  /** The pieces the match attempt checks make a match. */
  lemma {:induction false} PercentFromPieces(s: string, i: nat, sign: string, run: string)
    requires i < |s| && s[i] == '('
    requires sign == [] || (|sign| == 1 && IsSign(sign[0]))
    requires |sign| <= |s| - i - 1 && s[i + 1..][..|sign|] == sign
    requires run == NumRun(s[i + 1..][|sign|..]) && run != []
    requires i + 1 + |sign| + |run| + 1 < |s|
    requires s[i + 1 + |sign| + |run|] == '%' && s[i + 2 + |sign| + |run|] == ')'
    ensures PercentAt(s, i, sign + run + "%")
  {
    var p := sign + run + "%";
    assert IsSignedNumber(p[..|p| - 1]) by {
      assert p[..|p| - 1] == sign + run;
      SignedRun(sign, run);
    }
    var rest := s[i + 1..];
    assert rest[|sign|..][..|run|] == run;
    assert rest[|sign| + |run|] == '%';
    PiecesPrefix(rest, sign, run);
    assert s[i + 1..i + 1 + |p|] == rest[..|p|];
  }

  /** Sign, run and "%" laid end to end at the start of `rest` form its prefix. */
  lemma {:induction false} PiecesPrefix(rest: string, sign: string, run: string)
    requires |sign| + |run| < |rest|
    requires rest[..|sign|] == sign && rest[|sign|..][..|run|] == run && rest[|sign| + |run|] == '%'
    ensures rest[..|sign| + |run| + 1] == sign + run + "%"
  {
    var k := |sign| + |run|;
    assert rest[..k + 1] == rest[..|sign|] + rest[|sign|..k] + rest[k..k + 1];
    assert rest[|sign|..k] == rest[|sign|..][..|run|];
    assert rest[k..k + 1] == "%";
  }

  /** An optional sign followed by a non-empty digit-and-dot run is a signed number. */
  lemma {:induction false} SignedRun(sign: string, run: string)
    requires sign == [] || (|sign| == 1 && IsSign(sign[0]))
    requires run != [] && forall j :: 0 <= j < |run| ==> IsNumChar(run[j])
    ensures IsSignedNumber(sign + run)
  {
    if sign != [] {
      assert (sign + run)[1..] == run;
    }
  }

  lemma {:induction false} PercentAtIndexComplete(s: string, i: nat, p: string)
    requires PercentAt(s, i, p)
    ensures PercentAtIndex(s, i) == Some(p)
  {
    var rest := s[i + 1..];
    assert rest[..|p|] == p;
    assert rest[|p|] == ')';
    var sign := if rest != [] && IsSign(rest[0]) then [rest[0]] else [];
    assert rest[0] == p[..|p| - 1][0];
    var tok := SignSplit(p[..|p| - 1], sign);
    assert rest[|sign|..][..|tok|] == tok;
    assert rest[|sign|..][|tok|] == '%';
    NumRunUnique(rest[|sign|..], tok);
    assert p == sign + tok + "%";
  }

  /** A signed number split after its sign, when it has one: what remains is
      a plain digit-and-dot token. */
  lemma {:induction false} SignSplit(body: string, sign: string) returns (tok: string)
    requires IsSignedNumber(body)
    requires sign == (if IsSign(body[0]) then [body[0]] else [])
    ensures |sign| <= |body| && tok == body[|sign|..] && IsNumToken(tok)
  {
    tok := body[|sign|..];
    if sign == [] {
      assert !IsSign(body[0]);
    } else {
      assert !IsNumChar(body[0]);
    }
  }

  /** The first match at or after index `i`. */
  function FirstPercentFrom(s: string, i: nat): Option<string>
    decreases |s| - i
  {
    if i >= |s| then None
    else match PercentAtIndex(s, i)
      case Some(p) => Some(p)
      case None => FirstPercentFrom(s, i + 1)
  }

  /** The group of `re.search(r'\(([+-]?[\d.]+%)\)', s)`, None when it does not match. */
  function FirstPercent(s: string): Option<string>
  {
    FirstPercentFrom(s, 0)
  }

  ghost predicate NoPercentBefore(s: string, i: int)
  {
    forall j, q :: 0 <= j < i ==> !PercentAt(s, j, q)
  }

  lemma {:induction false} FirstPercentFromIsLeftmost(s: string, i: nat)
    requires NoPercentBefore(s, i)
    ensures FirstPercentFrom(s, i).Some? ==>
      exists k :: PercentAt(s, k, FirstPercentFrom(s, i).value) && NoPercentBefore(s, k)
    ensures FirstPercentFrom(s, i).None? ==> NoPercentBefore(s, |s|)
    decreases |s| - i
  {
    if i >= |s| {
      forall j, q | 0 <= j < |s| ensures !PercentAt(s, j, q) {
        assert j < i;
      }
    } else {
      match PercentAtIndex(s, i)
      case Some(p) =>
        PercentAtIndexSound(s, i);
      case None =>
        forall j, q | 0 <= j < i + 1 ensures !PercentAt(s, j, q) {
          if j == i && PercentAt(s, j, q) { PercentAtIndexComplete(s, i, q); }
        }
        FirstPercentFromIsLeftmost(s, i + 1);
    }
  }

  /** FirstPercent is the leftmost match of the percentage pattern, and None
      exactly when the pattern matches nowhere. */
  lemma FirstPercentIsLeftmostMatch(s: string)
    ensures FirstPercent(s).Some? ==> exists k :: PercentAt(s, k, FirstPercent(s).value) && NoPercentBefore(s, k)
    ensures FirstPercent(s).None? ==> forall j, q :: !PercentAt(s, j, q)
  {
    FirstPercentFromIsLeftmost(s, 0);
    if FirstPercent(s).None? {
      assert NoPercentBefore(s, |s|);
    }
  }

  /** At a given index the pattern has at most one match, so "the leftmost
      match" names one string. */
  lemma PercentAtUnique(s: string, i: nat, p: string, q: string)
    requires PercentAt(s, i, p) && PercentAt(s, i, q)
    ensures p == q
  {
    PercentAtIndexComplete(s, i, p);
    PercentAtIndexComplete(s, i, q);
  }

  /** The split of the stripped change text into its two independent captures. */
  function SplitPriceChange(full: Option<string>): (r: (Option<string>, Option<string>))
    ensures !(full.Some? && full.value != []) ==> r == (None, None)
    ensures r.0.Some? ==>
      var t := Strip(full.value);
      IsPrefix(r.0.value, t) && IsSignedNumber(r.0.value) && forall n :: |r.0.value| < n <= |t| ==> !IsSignedNumber(t[..n])
    ensures full.Some? && full.value != [] && r.0.None? ==>
      forall n :: 0 <= n <= |Strip(full.value)| ==> !IsSignedNumber(Strip(full.value)[..n])
    ensures r.1.Some? ==> exists k :: PercentAt(full.value, k, r.1.value) && NoPercentBefore(full.value, k)
    ensures full.Some? && full.value != [] && r.1.None? ==> forall j, q :: !PercentAt(full.value, j, q)
  {
    if full.Some? && full.value != [] then
      LeadingAmountIsGreedyMatch(Strip(full.value));
      FirstPercentIsLeftmostMatch(full.value);
      (LeadingAmount(Strip(full.value)), FirstPercent(full.value))
    else (None, None)
  }

  // ---------------------------------------------------------------------
  // Previous close
  // ---------------------------------------------------------------------

  /** A performance-table row: its label cell and value cell, when present. */
  datatype PerfRow = PerfRow(labelCell: Option<string>, valueCell: Option<string>)

  /** The case-sensitive substring test `'Prev. Close' in label_cell.text`. */
  predicate IsPrevCloseRow(row: PerfRow)
  {
    row.labelCell.Some? && Contains(row.labelCell.value, "Prev. Close")
  }

  predicate FirstPrevCloseRow(rows: seq<PerfRow>, k: int)
  {
    0 <= k < |rows| && IsPrevCloseRow(rows[k]) && forall j :: 0 <= j < k ==> !IsPrevCloseRow(rows[j])
  }

  /** The value text reduced to digits and dots, "0" when nothing is left. */
  function NumericOrZero(t: string): (r: string)
    ensures r != [] && forall i :: 0 <= i < |r| ==> IsNumChar(r[i])
    ensures r == (if KeepNumeric(t) == [] then "0" else KeepNumeric(t))
  {
    var cleaned := KeepNumeric(Strip(t));
    StripKeepNumeric(t);
    if cleaned == [] then "0" else cleaned
  }

  /** Digits and dots are not whitespace, so stripping first changes nothing. */
  lemma StripKeepNumeric(t: string)
    ensures KeepNumeric(Strip(t)) == KeepNumeric(t)
  {
    KeepNumericTrimStart(t);
    KeepNumericTrimEnd(TrimStart(t));
  }

  lemma {:induction false} KeepNumericTrimStart(t: string)
    ensures KeepNumeric(TrimStart(t)) == KeepNumeric(t)
  {
    if t != [] && IsSpace(t[0]) {
      KeepNumericTrimStart(t[1..]);
    }
  }

  lemma {:induction false} KeepNumericTrimEnd(t: string)
    ensures KeepNumeric(TrimEnd(t)) == KeepNumeric(t)
  {
    if t != [] && IsSpace(t[|t| - 1]) {
      KeepNumericTrimEnd(t[..|t| - 1]);
      KeepNumericDropLast(t);
    }
  }

  lemma {:induction false} KeepNumericDropLast(t: string)
    requires t != [] && !IsNumChar(t[|t| - 1])
    ensures KeepNumeric(t) == KeepNumeric(t[..|t| - 1])
  {
    if |t| > 1 {
      assert t[1..][..|t[1..]| - 1] == t[..|t| - 1][1..];
      KeepNumericDropLast(t[1..]);
    }
  }

  /** The previous close of a page: the value of the first row whose label
      contains "Prev. Close", if that row has a value cell; nothing when no
      row is labelled so. */
  function PrevCloseOf(rows: seq<PerfRow>): (r: Option<string>)
    ensures r.Some? ==>
      exists k :: FirstPrevCloseRow(rows, k) && rows[k].valueCell.Some? && r.value == NumericOrZero(rows[k].valueCell.value)
    ensures r.None? <==> forall k :: FirstPrevCloseRow(rows, k) ==> rows[k].valueCell.None?
  {
    if rows == [] then None
    else if IsPrevCloseRow(rows[0]) then
      assert FirstPrevCloseRow(rows, 0);
      if rows[0].valueCell.Some? then Some(NumericOrZero(rows[0].valueCell.value)) else None
    else
      var r := PrevCloseOf(rows[1..]);
      assert forall k :: 1 <= k < |rows| ==> (FirstPrevCloseRow(rows, k) <==> FirstPrevCloseRow(rows[1..], k - 1));
      assert !FirstPrevCloseRow(rows, 0);
      r
  }

  /** The previous close is decided by the first "Prev. Close" row alone. */
  lemma {:induction false} PrevCloseOfFirst(rows: seq<PerfRow>, k: int)
    requires FirstPrevCloseRow(rows, k)
    ensures PrevCloseOf(rows) == if rows[k].valueCell.Some? then Some(NumericOrZero(rows[k].valueCell.value)) else None
  {
    if k > 0 {
      assert FirstPrevCloseRow(rows[1..], k - 1) by {
        forall j | 0 <= j < k - 1 ensures !IsPrevCloseRow(rows[1..][j]) {
          assert rows[1..][j] == rows[j + 1];
        }
      }
      PrevCloseOfFirst(rows[1..], k - 1);
    }
  }

  /** The loop over the performance rows, which breaks at the first row
      whose label contains "Prev. Close". */
  method ScanPrevClose(rows: seq<PerfRow>) returns (prev: Option<string>)
    ensures prev == PrevCloseOf(rows)
  {
    prev := None;
    var i := 0;
    while i < |rows|
      invariant 0 <= i <= |rows|
      invariant prev == None
      invariant forall j :: 0 <= j < i ==> !IsPrevCloseRow(rows[j])
    {
      var row := rows[i];
      if row.labelCell.Some? && Contains(row.labelCell.value, "Prev. Close") {
        PrevCloseOfFirst(rows, i);
        if row.valueCell.Some? {
          var cleaned := KeepNumeric(Strip(row.valueCell.value));
          prev := Some(if cleaned == [] then "0" else cleaned);
        }
        return;
      }
      i := i + 1;
    }
  }

  // ---------------------------------------------------------------------
  // get_kotak_price_from_url
  // ---------------------------------------------------------------------

  /** What an HTTP GET gives back: an exception (timeout, connection error)
      or a response with its status code and parsed page. */
  datatype HttpResult<P> = Raised | Response(status: int, page: P)

  /** The price container of the quote page: its price-text div and its
      price-change div, when present (raw text, before stripping). */
  datatype PriceBlock = PriceBlock(priceText: Option<string>, changeText: Option<string>)

  /** The quote page as the code sees it: the first price-text div anywhere in
      the page (what the URL probe looks for), the price container, and the
      performance-table rows in document order. */
  datatype KotakPage = KotakPage(headlinePrice: Option<string>, block: Option<PriceBlock>, rows: seq<PerfRow>)

  /** The dictionary the quote fetch returns; every field may be None. */
  datatype QuoteSnapshot = QuoteSnapshot(
    price: Option<string>,
    previousClose: Option<string>,
    changeAmount: Option<string>,
    changePercent: Option<string>)

  /** The stripped price-change text, when the container and its change div exist. */
  function ChangeText(page: KotakPage): Option<string>
  {
    if page.block.Some? && page.block.value.changeText.Some? then Some(Strip(page.block.value.changeText.value)) else None
  }

  /** `get_kotak_price_from_url` after the GET: None on an exception or a
      status other than 200; otherwise the four fields, each found or not
      independently of the others. */
  function KotakQuote(resp: HttpResult<KotakPage>): (q: Option<QuoteSnapshot>)
    ensures q.Some? <==> resp.Response? && resp.status == 200
    ensures q.Some? ==>
      var page := resp.page;
      && (q.value.price.Some? <==> page.block.Some? && page.block.value.priceText.Some?)
      && (q.value.price.Some? ==> q.value.price.value == Strip(page.block.value.priceText.value))
      && (q.value.previousClose.Some? ==>
            exists k :: FirstPrevCloseRow(page.rows, k) && page.rows[k].valueCell.Some?
                        && q.value.previousClose.value == NumericOrZero(page.rows[k].valueCell.value))
      && (q.value.previousClose.None? <==> forall k :: FirstPrevCloseRow(page.rows, k) ==> page.rows[k].valueCell.None?)
      && (q.value.changeAmount, q.value.changePercent) == SplitPriceChange(ChangeText(page))
  {
    if resp.Raised? || resp.status != 200 then None
    else
      var page := resp.page;
      var price := if page.block.Some? && page.block.value.priceText.Some? then Some(Strip(page.block.value.priceText.value)) else None;
      var (amount, percent) := SplitPriceChange(ChangeText(page));
      Some(QuoteSnapshot(price, PrevCloseOf(page.rows), amount, percent))
  }

  /** The steps of `get_kotak_price_from_url` after the GET, in the code's order. */
  method FetchKotakQuote(resp: HttpResult<KotakPage>) returns (q: Option<QuoteSnapshot>)
    ensures q == KotakQuote(resp)
  {
    if resp.Raised? || resp.status != 200 {
      return None;
    }
    var page := resp.page;
    var price: Option<string> := None;
    var full: Option<string> := None;
    if page.block.Some? {
      if page.block.value.priceText.Some? {
        price := Some(Strip(page.block.value.priceText.value));
      }
      if page.block.value.changeText.Some? {
        full := Some(Strip(page.block.value.changeText.value));
      }
    }
    var prev := ScanPrevClose(page.rows);
    var amount: Option<string> := None;
    var percent: Option<string> := None;
    if full.Some? && full.value != [] {
      amount := LeadingAmount(Strip(full.value));
      percent := FirstPercent(full.value);
    }
    q := Some(QuoteSnapshot(price, prev, amount, percent));
  }
}
