/** Text helpers shared by every parser of the backend: character classes as
    Python's `re` and `str` methods see them, and the small string transforms
    (`lower`, `upper`, `strip`, `replace`, `join`) the code relies on. */
module Text {

  datatype Option<+T> = None | Some(value: T)

  datatype Result<+T, +E> = Ok(value: T) | Err(error: E)

  // ---------------------------------------------------------------------
  // Character classes
  // ---------------------------------------------------------------------

  /** `\d`, restricted to ASCII digits. */
  predicate IsDigit(c: char) { '0' <= c <= '9' }

  predicate IsUpperAscii(c: char) { 'A' <= c <= 'Z' }

  predicate IsLowerAscii(c: char) { 'a' <= c <= 'z' }

  /** `\w`, restricted to ASCII letters, digits and underscore. */
  predicate IsWordChar(c: char) { IsDigit(c) || IsUpperAscii(c) || IsLowerAscii(c) || c == '_' }

  /** Python's `str.isspace()`, which is also what `\s` and `strip()` use. */
  predicate IsSpace(c: char)
  {
    c == ' ' || ('\t' <= c <= '\r') || ('\U{1C}' <= c <= '\U{1F}') || c == '\U{85}' || c == '\U{A0}'
    || c == '\U{1680}' || ('\U{2000}' <= c <= '\U{200A}') || c == '\U{2028}' || c == '\U{2029}'
    || c == '\U{202F}' || c == '\U{205F}' || c == '\U{3000}'
  }

  /** A character of `[\d.]`. */
  predicate IsNumChar(c: char) { IsDigit(c) || c == '.' }

  // ---------------------------------------------------------------------
  // Case mapping
  // ---------------------------------------------------------------------

  function LowerChar(c: char): char
  {
    if IsUpperAscii(c) then (c as int - 'A' as int + 'a' as int) as char else c
  }

  function UpperChar(c: char): char
  {
    if IsLowerAscii(c) then (c as int - 'a' as int + 'A' as int) as char else c
  }

  /** `str.lower()` on ASCII letters. */
  function Lower(s: string): (r: string)
    ensures |r| == |s|
    ensures forall i :: 0 <= i < |s| ==> r[i] == LowerChar(s[i])
  {
    if s == [] then [] else [LowerChar(s[0])] + Lower(s[1..])
  }

  /** `str.upper()` on ASCII letters. */
  function Upper(s: string): (r: string)
    ensures |r| == |s|
    ensures forall i :: 0 <= i < |s| ==> r[i] == UpperChar(s[i])
  {
    if s == [] then [] else [UpperChar(s[0])] + Upper(s[1..])
  }

  lemma LowerAppend(a: string, b: string)
    ensures Lower(a + b) == Lower(a) + Lower(b)
  {
    assert forall i :: 0 <= i < |a + b| ==> Lower(a + b)[i] == (Lower(a) + Lower(b))[i];
  }

  // ---------------------------------------------------------------------
  // Stripping
  // ---------------------------------------------------------------------

  function TrimStart(s: string): (r: string)
    ensures |r| <= |s| && r == s[|s| - |r|..]
    ensures r != [] ==> !IsSpace(r[0])
    ensures forall i :: 0 <= i < |s| - |r| ==> IsSpace(s[i])
  {
    if s != [] && IsSpace(s[0]) then TrimStart(s[1..]) else s
  }

  function TrimEnd(s: string): (r: string)
    ensures |r| <= |s| && r == s[..|r|]
    ensures r != [] ==> !IsSpace(r[|r| - 1])
    ensures forall i :: |r| <= i < |s| ==> IsSpace(s[i])
  {
    if s != [] && IsSpace(s[|s| - 1]) then TrimEnd(s[..|s| - 1]) else s
  }

  /** `str.strip()`: drops leading and trailing whitespace, keeps the middle. */
  function Strip(s: string): (r: string)
    ensures r != [] ==> !IsSpace(r[0]) && !IsSpace(r[|r| - 1])
    ensures exists a :: SliceAt(s, r, a)
  {
    var t := TrimStart(s);
    var r := TrimEnd(t);
    var a := |s| - |t|;
    assert s[a..a + |r|] == t[..|r|] == r;
    assert SliceAt(s, r, a);
    r
  }

  /** Removing what Strip removes a second time changes nothing. */
  lemma StripIdempotent(s: string)
    ensures Strip(Strip(s)) == Strip(s)
  {
    var r := Strip(s);
    assert TrimStart(r) == r;
    assert TrimEnd(r) == r;
  }

  // ---------------------------------------------------------------------
  // Searching
  // ---------------------------------------------------------------------

  /** `sub` occurs in `s` starting at index `i`. */
  predicate SliceAt(s: string, sub: string, i: int)
  {
    0 <= i <= |s| - |sub| && s[i..i + |sub|] == sub
  }

  predicate IsPrefix(p: string, s: string) { |p| <= |s| && s[..|p|] == p }

  predicate IsSuffix(p: string, s: string) { |p| <= |s| && s[|s| - |p|..] == p }

  /** Python's `sub in s`. */
  predicate Contains(s: string, sub: string)
  {
    exists i :: 0 <= i <= |s| - |sub| && SliceAt(s, sub, i)
  }

  /** Python's `c in s` for one character, as a search from the left.
      The result is the position of the first occurrence. */
  function IndexOf(s: string, c: char): (r: Option<nat>)
    ensures r.Some? ==> r.value < |s| && s[r.value] == c && forall j :: 0 <= j < r.value ==> s[j] != c
    ensures r.None? ==> forall j :: 0 <= j < |s| ==> s[j] != c
  {
    if s == [] then None
    else if s[0] == c then Some(0)
    else match IndexOf(s[1..], c)
      case None => None
      case Some(k) => Some(k + 1)
  }

  // ---------------------------------------------------------------------
  // Filtering and replacing
  // ---------------------------------------------------------------------

  /** `re.sub(r'[^\d.]', '', s)`: keeps only digits and dots, in order. */
  function KeepNumeric(s: string): (r: string)
    ensures |r| <= |s|
    ensures forall i :: 0 <= i < |r| ==> IsNumChar(r[i])
  {
    if s == [] then []
    else if IsNumChar(s[0]) then [s[0]] + KeepNumeric(s[1..])
    else KeepNumeric(s[1..])
  }

  /** A string already made of digits and dots passes through unchanged. */
  lemma {:induction false} KeepNumericOfNumeric(s: string)
    requires forall i :: 0 <= i < |s| ==> IsNumChar(s[i])
    ensures KeepNumeric(s) == s
  {
    if s != [] {
      KeepNumericOfNumeric(s[1..]);
    }
  }

  /** Filtering twice is filtering once. */
  lemma KeepNumericIdempotent(s: string)
    ensures KeepNumeric(KeepNumeric(s)) == KeepNumeric(s)
  {
    KeepNumericOfNumeric(KeepNumeric(s));
  }

  /** Number of non-overlapping occurrences of `p` found scanning from the left,
      the occurrences `str.replace` would replace. */
  function CountOccurrences(s: string, p: string): nat
    requires p != []
    decreases |s|
  {
    if s == [] then 0
    else if IsPrefix(p, s) then 1 + CountOccurrences(s[|p|..], p)
    else CountOccurrences(s[1..], p)
  }

  /** `s.replace(p, '')` for a non-empty `p`. */
  function RemoveAll(s: string, p: string): (r: string)
    requires p != []
    decreases |s|
  {
    if s == [] then []
    else if IsPrefix(p, s) then RemoveAll(s[|p|..], p)
    else [s[0]] + RemoveAll(s[1..], p)
  }

  /** Removing a single character leaves none of it. */
  lemma {:induction false} RemoveCharAbsent(s: string, c: char)
    ensures c !in RemoveAll(s, [c])
    decreases |s|
  {
    if s != [] {
      RemoveCharAbsent(s[1..], c);
      if !IsPrefix([c], s) {
        assert s[..1] == [s[0]];
      }
    }
  }

  /** Upper-casing never creates or destroys a plain space, so it commutes
      with removing the spaces. */
  lemma {:induction false} UpperRemoveSpaces(s: string)
    ensures Upper(RemoveAll(s, " ")) == RemoveAll(Upper(s), " ")
    decreases |s|
  {
    if s != [] {
      var u := Upper(s);
      assert u[0] == UpperChar(s[0]);
      assert u[1..] == Upper(s[1..]);
      assert IsPrefix(" ", s) <==> s[0] == ' ' by { assert s[..1] == [s[0]]; }
      assert IsPrefix(" ", u) <==> u[0] == ' ' by { assert u[..1] == [u[0]]; }
      UpperRemoveSpaces(s[1..]);
      if s[0] != ' ' {
        assert Upper([s[0]] + RemoveAll(s[1..], " ")) == [u[0]] + Upper(RemoveAll(s[1..], " "));
      }
    }
  }

  /** Each replaced occurrence takes exactly `|p|` characters out and nothing else is lost. */
  lemma {:induction false} RemoveAllLength(s: string, p: string)
    requires p != []
    ensures |RemoveAll(s, p)| == |s| - CountOccurrences(s, p) * |p|
    decreases |s|
  {
    if s == [] {
    } else if IsPrefix(p, s) {
      RemoveAllLength(s[|p|..], p);
      var c := CountOccurrences(s[|p|..], p);
      assert CountOccurrences(s, p) == c + 1;
      MulSucc(c, |p|);
    } else {
      RemoveAllLength(s[1..], p);
    }
  }

  /** The one step of arithmetic the length count needs, kept apart so that
      the nonlinear fact does not enter the proof of the count itself. */
  lemma MulSucc(c: nat, n: nat)
    ensures (c + 1) * n == c * n + n
  {
  }

  /** When `p` does not occur, `replace` leaves the string as it is. */
  lemma {:induction false} RemoveAllAbsent(s: string, p: string)
    requires p != []
    requires !Contains(s, p)
    ensures RemoveAll(s, p) == s
    decreases |s|
  {
    if s != [] {
      assert IsPrefix(p, s) ==> SliceAt(s, p, 0);
      assert !Contains(s[1..], p) by {
        if Contains(s[1..], p) {
          var i :| 0 <= i <= |s[1..]| - |p| && SliceAt(s[1..], p, i);
          assert s[1..][i..i + |p|] == s[i + 1..i + 1 + |p|];
          assert SliceAt(s, p, i + 1);
        }
      }
      RemoveAllAbsent(s[1..], p);
    }
  }

  /** `sep.join(xs)`. */
  function Join(sep: string, xs: seq<string>): string
  {
    if xs == [] then [] else if |xs| == 1 then xs[0] else xs[0] + sep + Join(sep, xs[1..])
  }
}
