/** Discovery of the quote-site page of a company: the company name is turned
    into URL slugs (`format_for_url`), a fixed-order duplicate-free list of
    variations is built from it (`create_base_url_variations`), the list is
    extended with "bse-" forms, and the candidates are probed in order until
    one page shows a price (`find_working_kotak_url`). */
module Slug {
  import opened Text
  import opened Quote

  // ---------------------------------------------------------------------
  // The steps of format_for_url
  // ---------------------------------------------------------------------

  predicate NoUpper(s: string)
  {
    forall i :: 0 <= i < |s| ==> !IsUpperAscii(s[i])
  }

  /** `re.sub(r'\(([^)]*)\)', r'\1', s)`: scanning from the left, a "(" with a
      ")" somewhere after it is removed together with the first such ")", and
      the text between them is kept as it is. */
  function UnwrapParens(s: string): (r: string)
    ensures NoUpper(s) ==> NoUpper(r)
    decreases |s|
  {
    if s == [] then []
    else if s[0] == '(' then
      match IndexOf(s[1..], ')')
      case Some(j) =>
        var rest := UnwrapParens(s[j + 2..]);
        assert NoUpper(s) ==> NoUpper(s[1..1 + j]) && NoUpper(s[j + 2..]);
        s[1..1 + j] + rest
      case None =>
        [s[0]] + UnwrapParens(s[1..])
    else [s[0]] + UnwrapParens(s[1..])
  }

  /** `re.sub(r'\([^)]*\)', '', s)`: the same scan, dropping the parenthesised text. */
  function DropParens(s: string): string
    decreases |s|
  {
    if s == [] then []
    else if s[0] == '(' then
      match IndexOf(s[1..], ')')
      case Some(j) => DropParens(s[j + 2..])
      case None => [s[0]] + DropParens(s[1..])
    else [s[0]] + DropParens(s[1..])
  }

  predicate IsUrlChar(c: char) { IsWordChar(c) || IsSpace(c) || c == '-' }

  predicate AllUrlChars(s: string)
  {
    forall i :: 0 <= i < |s| ==> IsUrlChar(s[i])
  }

  /** `re.sub(r'[^\w\s-]', '', s)`. */
  function KeepUrlChars(s: string): (r: string)
    ensures AllUrlChars(r)
    ensures NoUpper(s) ==> NoUpper(r)
  {
    if s == [] then []
    else if IsUrlChar(s[0]) then [s[0]] + KeepUrlChars(s[1..])
    else KeepUrlChars(s[1..])
  }

  /** `s.replace(' ', '-')`: only the plain space, not other whitespace. */
  function SpacesToHyphens(s: string): (r: string)
    ensures |r| == |s|
    ensures forall i :: 0 <= i < |s| ==> r[i] == (if s[i] == ' ' then '-' else s[i])
  {
    if s == [] then [] else [if s[0] == ' ' then '-' else s[0]] + SpacesToHyphens(s[1..])
  }

  /** A character that may appear in a slug: a lower-case ASCII letter, a
      digit, '_', '-', or whitespace other than the plain space (which
      `replace(' ', '-')` does not touch). */
  predicate IsSlugChar(c: char)
  {
    IsLowerAscii(c) || IsDigit(c) || c == '_' || c == '-' || (IsSpace(c) && c != ' ')
  }

  predicate AllSlugChars(s: string)
  {
    forall i :: 0 <= i < |s| ==> IsSlugChar(s[i])
  }

  predicate NoDoubleHyphen(s: string)
  {
    forall i :: 0 <= i < |s| - 1 ==> !(s[i] == '-' && s[i + 1] == '-')
  }

  /** `re.sub(r'-+', '-', s)`. */
  function CollapseHyphens(s: string): (r: string)
    ensures NoDoubleHyphen(r)
    ensures AllSlugChars(s) ==> AllSlugChars(r)
    ensures s != [] ==> r != [] && r[0] == s[0]
  {
    if |s| <= 1 then s
    else if s[0] == '-' && s[1] == '-' then CollapseHyphens(s[1..])
    else [s[0]] + CollapseHyphens(s[1..])
  }

  function TrimHyphensStart(s: string): (r: string)
    ensures r != [] ==> r[0] != '-'
    ensures AllSlugChars(s) ==> AllSlugChars(r)
    ensures NoDoubleHyphen(s) ==> NoDoubleHyphen(r)
    ensures r != [] ==> s != [] && r[|r| - 1] == s[|s| - 1]
    ensures |r| <= |s| && r == s[|s| - |r|..]
    ensures forall i :: 0 <= i < |s| - |r| ==> s[i] == '-'
  {
    if s != [] && s[0] == '-' then TrimHyphensStart(s[1..]) else s
  }

  function TrimHyphensEnd(s: string): (r: string)
    ensures r != [] ==> r[|r| - 1] != '-'
    ensures AllSlugChars(s) ==> AllSlugChars(r)
    ensures NoDoubleHyphen(s) ==> NoDoubleHyphen(r)
    ensures r != [] ==> s != [] && r[0] == s[0]
    ensures |r| <= |s| && r == s[..|r|]
    ensures forall i :: |r| <= i < |s| ==> s[i] == '-'
  {
    if s != [] && s[|s| - 1] == '-' then TrimHyphensEnd(s[..|s| - 1]) else s
  }

  /** `s.strip('-')`. */
  function TrimHyphens(s: string): string
  {
    TrimHyphensEnd(TrimHyphensStart(s))
  }

  /** `format_for_url`. Every slug is lower-case, has no plain space, no
      parenthesis and no "--", and has no '-' at either end. */
  function FormatForUrl(text: string): (r: string)
    ensures AllSlugChars(r)
    ensures NoDoubleHyphen(r)
    ensures r != [] ==> r[0] != '-' && r[|r| - 1] != '-'
  {
    var l := Lower(text);
    assert NoUpper(l);
    var h := SpacesToHyphens(KeepUrlChars(UnwrapParens(l)));
    assert AllSlugChars(h);
    var r := TrimHyphens(CollapseHyphens(h));
    var t := TrimHyphensStart(CollapseHyphens(h));
    assert r == TrimHyphensEnd(t);
    assert r != [] ==> t != [] && t[0] != '-';
    r
  }

  /** Parentheses are removed but what they enclose is kept: wrapping a text
      without ")" in parentheses does not change its slug. */
  lemma FormatForUrlUnwrapsParens(x: string)
    requires forall i :: 0 <= i < |x| ==> x[i] != ')'
    ensures FormatForUrl("(" + x + ")") == FormatForUrl(x)
  {
    LowerAppend("(", x);
    LowerAppend("(" + x, ")");
    var y := Lower(x);
    assert Lower("(" + x + ")") == "(" + y + ")";
    var w := "(" + y + ")";
    assert forall i :: 0 <= i < |y| ==> y[i] != ')';
    assert w[1..] == y + ")";
    assert w[1..][|y|] == ')';
    FirstCloseAtEnd(y);
    assert w[1..1 + |y|] == y;
    assert w[|y| + 2..] == [];
    assert UnwrapParens(w) == y + UnwrapParens([]);
    assert UnwrapParens([]) == [];
    UnwrapWithoutClose(y);
    assert UnwrapParens(Lower("(" + x + ")")) == UnwrapParens(Lower(x));
  }

  /** The general step of the substitution: text before the first "(" is
      kept, the group that "(" opens is replaced by what it encloses, and
      the scan goes on after its ")". */
  lemma {:induction false} UnwrapGroup(a: string, x: string, b: string)
    requires '(' !in a && ')' !in x
    ensures UnwrapParens(a + "(" + x + ")" + b) == a + x + UnwrapParens(b)
  {
    var g := "(" + x + ")" + b;
    assert a + "(" + x + ")" + b == a + g;
    UnwrapPlainPrefix(a, g);
    UnwrapLeadingGroup(x, b);
  }

  /** Text before the first "(" is copied as it is. */
  lemma {:induction false} UnwrapPlainPrefix(a: string, t: string)
    requires '(' !in a
    ensures UnwrapParens(a + t) == a + UnwrapParens(t)
  {
    if a == [] {
      assert a + t == t;
    } else {
      var u := UnwrapParens(t);
      assert a + t == [a[0]] + (a[1..] + t) by { ConsSplit(a, t); }
      assert a + u == [a[0]] + (a[1..] + u) by { ConsSplit(a, u); }
      assert a[0] in a;
      UnwrapPlainHead(a[0], a[1..] + t);
      assert '(' !in a[1..];
      UnwrapPlainPrefix(a[1..], t);
    }
  }

  lemma {:induction false} UnwrapLeadingGroup(x: string, b: string)
    requires ')' !in x
    ensures UnwrapParens("(" + x + ")" + b) == x + UnwrapParens(b)
  {
    var s := "(" + x + ")" + b;
    FirstCloseBefore(x, b);
    assert s[1..] == x + ")" + b;
    assert s[1..1 + |x|] == x;
    assert s[|x| + 2..] == b;
  }

  lemma ConsSplit(a: string, t: string)
    requires a != []
    ensures a + t == [a[0]] + (a[1..] + t)
  {
  }

  /** A character other than "(" is copied and the scan moves on. */
  lemma {:induction false} UnwrapPlainHead(c: char, s: string)
    requires c != '('
    ensures UnwrapParens([c] + s) == [c] + UnwrapParens(s)
  {
    assert ([c] + s)[1..] == s;
  }

  /** The same step for the substitution that drops the group. */
  lemma {:induction false} DropGroup(a: string, x: string, b: string)
    requires '(' !in a && ')' !in x
    ensures DropParens(a + "(" + x + ")" + b) == a + DropParens(b)
  {
    var s := a + "(" + x + ")" + b;
    if a == [] {
      assert s == "(" + x + ")" + b;
      FirstCloseBefore(x, b);
      assert s[1..] == x + ")" + b;
      assert s[|x| + 2..] == b;
    } else {
      assert s[0] == a[0] && a[0] in a;
      assert s[1..] == a[1..] + "(" + x + ")" + b;
      assert '(' !in a[1..];
      DropGroup(a[1..], x, b);
      assert a == [a[0]] + a[1..];
    }
  }

  /** In `x + ")" + b` with no ")" in `x`, the first ")" is the one after `x`. */
  lemma FirstCloseBefore(x: string, b: string)
    requires ')' !in x
    ensures IndexOf(x + ")" + b, ')') == Some(|x|)
  {
    var s := x + ")" + b;
    assert forall i :: 0 <= i < |x| ==> s[i] == x[i] && x[i] in x;
    assert s[|x|] == ')';
  }

  /** Text without "(" has nothing to unwrap. */
  lemma {:induction false} UnwrapWithoutOpen(s: string)
    requires '(' !in s
    ensures UnwrapParens(s) == s
  {
    if s != [] {
      UnwrapWithoutOpen(s[1..]);
    }
  }

  /** In `y + ")"` with no ")" in `y`, the first ")" is the appended one. */
  lemma FirstCloseAtEnd(y: string)
    requires forall i :: 0 <= i < |y| ==> y[i] != ')'
    ensures IndexOf(y + ")", ')') == Some(|y|)
  {
    var s := y + ")";
    assert forall i :: 0 <= i < |y| ==> s[i] == y[i];
    assert s[|y|] == ')';
  }

  /** Without any ")" there is nothing to unwrap. */
  lemma {:induction false} UnwrapWithoutClose(s: string)
    requires forall i :: 0 <= i < |s| ==> s[i] != ')'
    ensures UnwrapParens(s) == s
  {
    if s != [] {
      UnwrapWithoutClose(s[1..]);
    }
  }

  // ---------------------------------------------------------------------
  // What the steps keep
  // ---------------------------------------------------------------------

  /** The filter works character by character. */
  lemma {:induction false} KeepUrlCharsAppend(a: string, b: string)
    ensures KeepUrlChars(a + b) == KeepUrlChars(a) + KeepUrlChars(b)
  {
    if a == [] {
      assert a + b == b;
    } else {
      assert (a + b)[0] == a[0];
      assert (a + b)[1..] == a[1..] + b;
      KeepUrlCharsAppend(a[1..], b);
    }
  }

  /** A character is kept exactly when it is a word character, whitespace or '-'. */
  lemma KeepUrlCharsOne(c: char)
    ensures KeepUrlChars([c]) == if IsUrlChar(c) then [c] else []
  {
    assert [c][1..] == [];
  }

  /** Text made only of kept characters passes through unchanged. */
  lemma {:induction false} KeepUrlCharsOfUrl(s: string)
    requires AllUrlChars(s)
    ensures KeepUrlChars(s) == s
  {
    if s != [] {
      assert IsUrlChar(s[0]);
      assert AllUrlChars(s[1..]) by {
        forall i | 0 <= i < |s[1..]| ensures IsUrlChar(s[1..][i]) {
          assert s[1..][i] == s[i + 1];
        }
      }
      KeepUrlCharsOfUrl(s[1..]);
    }
  }

  /** Text without "--" passes through the collapse unchanged. */
  lemma {:induction false} CollapseWithoutDouble(s: string)
    requires NoDoubleHyphen(s)
    ensures CollapseHyphens(s) == s
  {
    if |s| > 1 {
      assert !(s[0] == '-' && s[1] == '-');
      assert NoDoubleHyphen(s[1..]) by {
        forall i | 0 <= i < |s[1..]| - 1 ensures !(s[1..][i] == '-' && s[1..][i + 1] == '-') {
          assert s[1..][i] == s[i + 1] && s[1..][i + 1] == s[i + 2];
        }
      }
      CollapseWithoutDouble(s[1..]);
    }
  }

  /** Text without '-' in front of the rest is copied as it is. */
  lemma {:induction false} CollapsePlainPrefix(a: string, t: string)
    requires '-' !in a
    ensures CollapseHyphens(a + t) == a + CollapseHyphens(t)
  {
    if a != [] {
      var s := a + t;
      assert s[0] == a[0] && a[0] != '-';
      if |s| <= 1 {
        assert t == [] && s == a;
      } else {
        assert s[1..] == a[1..] + t;
        assert '-' !in a[1..];
        CollapsePlainPrefix(a[1..], t);
        assert a == [a[0]] + a[1..];
      }
    } else {
      assert a + t == t;
    }
  }

  /** A run of '-' followed by something other than '-' becomes one '-'. */
  lemma {:induction false} CollapseRun(n: nat, t: string)
    requires n >= 1
    requires t == [] || t[0] != '-'
    ensures CollapseHyphens(seq(n, _ => '-') + t) == "-" + CollapseHyphens(t)
  {
    var s := seq(n, _ => '-') + t;
    if n == 1 {
      assert s == "-" + t;
      if t != [] {
        assert s[1..] == t;
        assert s[1] == t[0];
      }
    } else {
      assert s[0] == '-' && s[1] == '-';
      assert s[1..] == seq(n - 1, _ => '-') + t;
      CollapseRun(n - 1, t);
    }
  }

  /** Text that neither starts nor ends with '-' is not trimmed. */
  lemma TrimHyphensNoEdge(s: string)
    requires s != [] && s[0] != '-' && s[|s| - 1] != '-'
    ensures TrimHyphens(s) == s
  {
    assert TrimHyphensStart(s) == s;
  }

  predicate IsAlnumAscii(c: char) { IsDigit(c) || IsUpperAscii(c) || IsLowerAscii(c) }

  /** ASCII letters and digits, with plain spaces that never come two in a row. */
  predicate SingleSpaced(s: string)
  {
    && (forall i :: 0 <= i < |s| ==> IsAlnumAscii(s[i]) || s[i] == ' ')
    && (forall i :: 0 <= i < |s| - 1 ==> !(s[i] == ' ' && s[i + 1] == ' '))
  }

  /** Words of ASCII letters and digits separated by single plain spaces,
      such as "Tata Consultancy Services". */
  predicate PlainWords(s: string)
  {
    s != [] && SingleSpaced(s) && s[0] != ' ' && s[|s| - 1] != ' '
  }

  /** Lower-casing maps a letter or digit to a letter or digit, and nothing else to ' '. */
  lemma LowerCharAlnum(c: char)
    ensures LowerChar(c) == ' ' <==> c == ' '
    ensures IsAlnumAscii(c) ==> IsAlnumAscii(LowerChar(c))
  {
  }

  /** Lower-casing keeps a name single-spaced, with its spaces in place. */
  lemma LowerSingleSpaced(s: string)
    requires SingleSpaced(s)
    ensures SingleSpaced(Lower(s))
    ensures forall i :: 0 <= i < |s| ==> (Lower(s)[i] == ' ' <==> s[i] == ' ')
  {
    var l := Lower(s);
    forall i | 0 <= i < |s| ensures (IsAlnumAscii(l[i]) || l[i] == ' ') && (l[i] == ' ' <==> s[i] == ' ') {
      LowerCharAlnum(s[i]);
    }
  }

  /** A single-spaced text has no parentheses to unwrap and nothing to filter. */
  lemma SingleSpacedKept(l: string)
    requires SingleSpaced(l)
    ensures KeepUrlChars(UnwrapParens(l)) == l
  {
    assert '(' !in l by {
      forall i | 0 <= i < |l| ensures l[i] != '(' {
        assert IsAlnumAscii(l[i]) || l[i] == ' ';
      }
    }
    UnwrapWithoutOpen(l);
    assert AllUrlChars(l) by {
      forall i | 0 <= i < |l| ensures IsUrlChar(l[i]) {
        assert IsAlnumAscii(l[i]) || l[i] == ' ';
      }
    }
    KeepUrlCharsOfUrl(l);
  }

  /** Turning single spaces into hyphens never puts two hyphens side by side. */
  lemma SingleSpacedHyphens(l: string)
    requires SingleSpaced(l)
    ensures NoDoubleHyphen(SpacesToHyphens(l))
  {
    var h := SpacesToHyphens(l);
    forall i | 0 <= i < |h| - 1 ensures !(h[i] == '-' && h[i + 1] == '-') {
      assert !(l[i] == ' ' && l[i + 1] == ' ');
      assert IsAlnumAscii(l[i]) || l[i] == ' ';
      assert IsAlnumAscii(l[i + 1]) || l[i + 1] == ' ';
    }
  }

  /** The slug of a plain name is the name lower-cased with each space
      turned into '-': every letter and digit is kept, in order. */
  lemma FormatForUrlOfPlainWords(s: string)
    requires PlainWords(s)
    ensures FormatForUrl(s) == SpacesToHyphens(Lower(s))
  {
    var l := Lower(s);
    LowerSingleSpaced(s);
    SingleSpacedKept(l);
    var h := SpacesToHyphens(l);
    SingleSpacedHyphens(l);
    CollapseWithoutDouble(h);
    TrimHyphensNoEdge(h);
  }

  // ---------------------------------------------------------------------
  // Variations
  // ---------------------------------------------------------------------

  /** The name with a trailing " Ltd" or else " Limited" removed (case-sensitive). */
  function StripSuffix(s: string): string
  {
    if IsSuffix(" Ltd", s) then s[..|s| - 4]
    else if IsSuffix(" Limited", s) then s[..|s| - 8]
    else s
  }

  /** `re.sub(r'\s+', ' ', s)`: every run of whitespace becomes one space. */
  function CollapseWhitespace(s: string): string
    decreases |s|
  {
    if s == [] then []
    else if IsSpace(s[0]) then [' '] + CollapseWhitespace(TrimStart(s[1..]))
    else [s[0]] + CollapseWhitespace(s[1..])
  }

  /** The name with parenthesised parts dropped, stripped, and whitespace runs collapsed. */
  function WithoutParens(s: string): string
  {
    CollapseWhitespace(Strip(DropParens(s)))
  }

  /** The four candidate slugs, in the order the code computes them. */
  function Candidates(name: string): seq<string>
  {
    var clean := Strip(name);
    [ FormatForUrl(clean),
      FormatForUrl(WithoutParens(clean)),
      FormatForUrl(StripSuffix(clean)),
      FormatForUrl(WithoutParens(StripSuffix(clean))) ]
  }

  /** Reference definition: the entries of `xs` in order of first appearance. */
  function Dedup<T(==)>(xs: seq<T>): (r: seq<T>)
  {
    if xs == [] then []
    else
      var d := Dedup(xs[..|xs| - 1]);
      if xs[|xs| - 1] in d then d else d + [xs[|xs| - 1]]
  }

  lemma {:induction false} DedupProperties<T>(xs: seq<T>)
    ensures var r := Dedup(xs);
      && |r| <= |xs|
      && (forall x :: x in r <==> x in xs)
      && (forall i, j :: 0 <= i < j < |r| ==> r[i] != r[j])
      && (xs != [] ==> r != [] && r[0] == xs[0])
  {
    if xs != [] {
      var p := xs[..|xs| - 1];
      DedupProperties(p);
      forall x ensures x in xs <==> x in p || x == xs[|xs| - 1] {
        if x in xs {
          var i :| 0 <= i < |xs| && xs[i] == x;
          if i < |xs| - 1 { assert p[i] == x; }
        }
      }
      if p == [] {
        assert Dedup(xs) == [xs[0]];
      }
    }
  }

  /** The chain of tests of `create_base_url_variations` over its four
      candidates: each is appended only when it differs from those already
      listed. */
  function KeepFirstOfFour(v: seq<string>): (r: seq<string>)
    requires |v| == 4
    ensures 1 <= |r| <= 4 && r[0] == v[0]
  {
    [v[0]]
    + (if v[1] != v[0] then [v[1]] else [])
    + (if v[2] != v[0] && v[2] != v[1] then [v[2]] else [])
    + (if v[3] !in [v[0], v[1], v[2]] then [v[3]] else [])
  }

  /** The chain of tests is exactly "keep the first occurrence of each
      candidate": distinct entries, in order, and none lost. */
  lemma KeepFirstOfFourIsDedup(v: seq<string>)
    requires |v| == 4
    ensures KeepFirstOfFour(v) == Dedup(v)
    ensures var r := KeepFirstOfFour(v);
      && (forall i, j :: 0 <= i < j < |r| ==> r[i] != r[j])
      && (forall c :: c in v <==> c in r)
  {
    var d1 := [v[0]];
    assert v[..2][..1] == v[..1] == d1;
    assert Dedup(v[..1]) == d1;
    var d2 := d1 + (if v[1] != v[0] then [v[1]] else []);
    assert v[..3][..2] == v[..2];
    assert Dedup(v[..2]) == d2;
    var d3 := d2 + (if v[2] != v[0] && v[2] != v[1] then [v[2]] else []);
    assert v[2] in d2 <==> v[2] == v[0] || v[2] == v[1];
    assert Dedup(v[..3]) == d3;
    assert v[..4] == v;
    assert v[3] in d3 <==> v[3] in [v[0], v[1], v[2]];
    assert Dedup(v) == KeepFirstOfFour(v);
    DedupProperties(v);
  }

  /** Two candidates that each appear twice in a row are kept once each. */
  lemma KeepFirstOfFourPairs(x: string, y: string)
    requires x != y
    ensures KeepFirstOfFour([x, x, y, y]) == [x, y]
  {
  }

  /** `create_base_url_variations`. */
  function BaseVariations(name: string): (r: seq<string>)
    ensures 1 <= |r| <= 4
  {
    KeepFirstOfFour(Candidates(name))
  }

  /** The base list has one to four distinct entries, starts with the slug of
      the stripped name, and contains every candidate and nothing else. */
  lemma BaseVariationsAreDistinctCandidates(name: string)
    ensures BaseVariations(name) == Dedup(Candidates(name))
    ensures var r := BaseVariations(name);
      && r[0] == FormatForUrl(Strip(name))
      && (forall i, j :: 0 <= i < j < |r| ==> r[i] != r[j])
      && (forall c :: c in Candidates(name) <==> c in r)
  {
    KeepFirstOfFourIsDedup(Candidates(name));
  }

  /** Text without "(" has nothing to drop. */
  lemma {:induction false} DropWithoutOpen(s: string)
    requires '(' !in s
    ensures DropParens(s) == s
  {
    if s != [] {
      DropWithoutOpen(s[1..]);
    }
  }

  lemma SingleSpacedTail(s: string)
    requires SingleSpaced(s) && s != []
    ensures SingleSpaced(s[1..])
  {
    var t := s[1..];
    forall i | 0 <= i < |t| ensures IsAlnumAscii(t[i]) || t[i] == ' ' {
      assert t[i] == s[i + 1];
    }
    forall i | 0 <= i < |t| - 1 ensures !(t[i] == ' ' && t[i + 1] == ' ') {
      assert t[i] == s[i + 1] && t[i + 1] == s[i + 2];
    }
  }

  /** A single-spaced text has no whitespace run to collapse. */
  lemma {:induction false} CollapseSingleSpaced(s: string)
    requires SingleSpaced(s)
    ensures CollapseWhitespace(s) == s
  {
    if s != [] {
      var t := s[1..];
      SingleSpacedTail(s);
      assert IsAlnumAscii(s[0]) || s[0] == ' ';
      if s[0] == ' ' && t != [] {
        assert t[0] == s[1] && s[1] != ' ';
        AlnumNotSpace(t[0]);
        assert TrimStart(t) == t;
      } else if s[0] != ' ' {
        AlnumNotSpace(s[0]);
      }
      CollapseSingleSpaced(t);
    }
  }

  lemma AlnumNotSpace(c: char)
    requires IsAlnumAscii(c)
    ensures !IsSpace(c)
  {
  }

  /** Stripping leaves a plain name as it is. */
  lemma PlainWordsStripped(s: string)
    requires PlainWords(s)
    ensures Strip(s) == s
  {
    AlnumNotSpace(s[0]);
    AlnumNotSpace(s[|s| - 1]);
    assert TrimStart(s) == s;
    assert TrimEnd(s) == s;
  }

  /** A plain name is left as it is by stripping, dropping parentheses and
      collapsing whitespace. */
  lemma PlainWordsClean(s: string)
    requires PlainWords(s)
    ensures Strip(s) == s
    ensures WithoutParens(s) == s
  {
    PlainWordsStripped(s);
    assert '(' !in s by {
      forall i | 0 <= i < |s| ensures s[i] != '(' {
        assert IsAlnumAscii(s[i]) || s[i] == ' ';
      }
    }
    DropWithoutOpen(s);
    CollapseSingleSpaced(s);
  }

  /** Appending the word " Ltd" keeps a name plain. */
  lemma PlainWordsLtd(s: string)
    requires PlainWords(s)
    ensures PlainWords(s + " Ltd")
  {
    var n := s + " Ltd";
    forall i | 0 <= i < |n| ensures IsAlnumAscii(n[i]) || n[i] == ' ' {
      if i < |s| { assert n[i] == s[i]; }
    }
    forall i | 0 <= i < |n| - 1 ensures !(n[i] == ' ' && n[i + 1] == ' ') {
      if i + 1 < |s| { assert n[i] == s[i] && n[i + 1] == s[i + 1]; }
    }
  }

  /** Spaces become hyphens character by character. */
  lemma SpacesToHyphensAppend(a: string, b: string)
    ensures SpacesToHyphens(a + b) == SpacesToHyphens(a) + SpacesToHyphens(b)
  {
    var r := SpacesToHyphens(a + b);
    forall i | 0 <= i < |r| ensures r[i] == (SpacesToHyphens(a) + SpacesToHyphens(b))[i] {
      if i >= |a| { assert (a + b)[i] == b[i - |a|]; }
    }
  }

  /** Lower-casing " Ltd" and turning its space into '-' gives "-ltd". */
  lemma HyphenatedLowerLtd(s: string)
    ensures SpacesToHyphens(Lower(s + " Ltd")) == SpacesToHyphens(Lower(s)) + "-ltd"
  {
    LowerAppend(s, " Ltd");
    SpacesToHyphensAppend(Lower(s), Lower(" Ltd"));
    var l := Lower(" Ltd");
    assert l[0] == ' ' && l[1] == 'l' && l[2] == 't' && l[3] == 'd';
    assert SpacesToHyphens(l) == "-ltd";
  }

  /** The slug of a plain name ending in " Ltd" is the slug of the name
      without it, followed by "-ltd". */
  lemma FormatForUrlOfPlainLtd(s: string)
    requires PlainWords(s)
    ensures FormatForUrl(s + " Ltd") == FormatForUrl(s) + "-ltd"
  {
    PlainWordsLtd(s);
    FormatForUrlOfPlainWords(s);
    FormatForUrlOfPlainWords(s + " Ltd");
    HyphenatedLowerLtd(s);
  }

  /** For a plain company name ending in " Ltd" (such as "Tata Consultancy
      Services Ltd"), the base list is the full slug, then the slug without
      the suffix: the two candidates from dropping parentheses repeat them. */
  lemma BaseVariationsOfPlainLtd(s: string)
    requires PlainWords(s)
    ensures var f := FormatForUrl(s);
      && f == SpacesToHyphens(Lower(s))
      && BaseVariations(s + " Ltd") == [f + "-ltd", f]
  {
    var n := s + " Ltd";
    PlainWordsLtd(s);
    PlainWordsClean(s);
    PlainWordsClean(n);
    assert IsSuffix(" Ltd", n);
    assert n[..|n| - 4] == s;
    assert StripSuffix(n) == s;
    FormatForUrlOfPlainWords(s);
    FormatForUrlOfPlainLtd(s);
    var f := FormatForUrl(s);
    assert Candidates(n) == [f + "-ltd", f + "-ltd", f, f];
    assert f + "-ltd" != f by {
      assert |f + "-ltd"| != |f|;
    }
    KeepFirstOfFourPairs(f + "-ltd", f);
  }

  function BsePrefixed(xs: seq<string>): (r: seq<string>)
    ensures |r| == |xs|
    ensures forall i :: 0 <= i < |xs| ==> r[i] == "bse-" + xs[i]
  {
    if xs == [] then [] else ["bse-" + xs[0]] + BsePrefixed(xs[1..])
  }

  /** The list followed by its "bse-" forms. */
  function WithBse(base: seq<string>): (r: seq<string>)
    ensures |r| == 2 * |base|
    ensures forall i :: 0 <= i < |base| ==> r[i] == base[i] && r[|base| + i] == "bse-" + base[i]
  {
    base + BsePrefixed(base)
  }

  /** The probe order of `find_working_kotak_url`: the base list, then the
      same entries prefixed "bse-"; at most eight candidates. */
  function AllVariations(name: string): (r: seq<string>)
    ensures 2 <= |r| <= 8
  {
    WithBse(BaseVariations(name))
  }

  // ---------------------------------------------------------------------
  // The probe
  // ---------------------------------------------------------------------

  function KotakUrl(slug: string): string
  {
    "https://www.kotaksecurities.com/stocks/" + slug + "/"
  }

  /** A candidate is accepted when the GET did not raise, answered 200, and
      the page has a price-text div. */
  predicate HasPrice(resp: HttpResult<KotakPage>)
  {
    resp.Response? && resp.status == 200 && resp.page.headlinePrice.Some?
  }

  /** Position of the first candidate whose page shows a price. */
  function FirstWithPrice(cands: seq<string>, fetch: string -> HttpResult<KotakPage>): (r: Option<nat>)
    ensures r.Some? ==>
      && r.value < |cands| && HasPrice(fetch(KotakUrl(cands[r.value])))
      && forall j :: 0 <= j < r.value ==> !HasPrice(fetch(KotakUrl(cands[j])))
    ensures r.None? <==> forall j :: 0 <= j < |cands| ==> !HasPrice(fetch(KotakUrl(cands[j])))
  {
    if cands == [] then None
    else if HasPrice(fetch(KotakUrl(cands[0]))) then Some(0)
    else match FirstWithPrice(cands[1..], fetch)
      case None => None
      case Some(k) => Some(k + 1)
  }

  /** The candidates are fetched in order and the first one whose page shows
      a price wins, with its stripped price text; `probed` lists the URLs
      requested, so no candidate after the winner is fetched. */
  method ProbeInOrder(cands: seq<string>, fetch: string -> HttpResult<KotakPage>)
    returns (price: Option<string>, url: Option<string>, probed: seq<string>)
    ensures match FirstWithPrice(cands, fetch)
      case None => price.None? && url.None? && |probed| == |cands|
      case Some(k) =>
        && url == Some(KotakUrl(cands[k]))
        && price == Some(Strip(fetch(KotakUrl(cands[k])).page.headlinePrice.value))
        && |probed| == k + 1
    ensures |probed| <= |cands| && forall i :: 0 <= i < |probed| ==> probed[i] == KotakUrl(cands[i])
  {
    probed := [];
    var i := 0;
    while i < |cands|
      invariant 0 <= i <= |cands|
      invariant |probed| == i
      invariant forall j :: 0 <= j < i ==> probed[j] == KotakUrl(cands[j])
      invariant forall j :: 0 <= j < i ==> !HasPrice(fetch(KotakUrl(cands[j])))
    {
      var u := KotakUrl(cands[i]);
      probed := probed + [u];
      var resp := fetch(u);
      if resp.Response? && resp.status == 200 && resp.page.headlinePrice.Some? {
        FirstWithPriceAt(cands, fetch, i);
        return Some(Strip(resp.page.headlinePrice.value)), Some(u), probed;
      }
      i := i + 1;
    }
    return None, None, probed;
  }

  /** The first success is unique. */
  lemma FirstWithPriceAt(cands: seq<string>, fetch: string -> HttpResult<KotakPage>, k: nat)
    requires k < |cands| && HasPrice(fetch(KotakUrl(cands[k])))
    requires forall j :: 0 <= j < k ==> !HasPrice(fetch(KotakUrl(cands[j])))
    ensures FirstWithPrice(cands, fetch) == Some(k)
  {
  }

  /** `find_working_kotak_url`: the variations of the name, probed in order. */
  method FindWorkingKotakUrl(name: string, fetch: string -> HttpResult<KotakPage>)
    returns (price: Option<string>, url: Option<string>, probed: seq<string>)
    ensures var cands := AllVariations(name);
      && (match FirstWithPrice(cands, fetch)
          case None => price.None? && url.None? && |probed| == |cands|
          case Some(k) =>
            && url == Some(KotakUrl(cands[k]))
            && price == Some(Strip(fetch(KotakUrl(cands[k])).page.headlinePrice.value))
            && |probed| == k + 1)
      && forall i :: 0 <= i < |probed| ==> probed[i] == KotakUrl(cands[i])
  {
    price, url, probed := ProbeInOrder(AllVariations(name), fetch);
  }
}
