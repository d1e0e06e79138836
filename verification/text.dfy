/** String primitives the wizard's handlers rely on, over Dafny's `char`:
    JavaScript's `toLowerCase` (ASCII letters only), `includes`, `trim`,
    `split(" ")[0]`, and the decimal rendering of a timestamp inside a
    template literal. */
module Text {

  predicate IsUpper(c: char) {
    'A' <= c <= 'Z'
  }

  /** Lower-cases one character; only the ASCII letters A-Z change. */
  function Lower(c: char): char {
    if IsUpper(c) then (c as int + 32) as char else c
  }

  /** `s.toLowerCase()`, restricted to the ASCII letters. */
  function LowerCase(s: string): (r: string)
    ensures |r| == |s|
    ensures forall i :: 0 <= i < |s| ==> r[i] == Lower(s[i])
    ensures forall i :: 0 <= i < |r| ==> !IsUpper(r[i])
  {
    if s == [] then [] else [Lower(s[0])] + LowerCase(s[1..])
  }

  /** Lower-casing twice is lower-casing once. */
  lemma LowerCaseIdempotent(s: string)
    ensures LowerCase(LowerCase(s)) == LowerCase(s)
  {
    var r := LowerCase(s);
    assert forall i :: 0 <= i < |r| ==> Lower(r[i]) == r[i];
  }

  /** `sub` occurs in `s` starting at index `i`. */
  ghost predicate OccursAt(s: string, sub: string, i: int) {
    0 <= i && i + |sub| <= |s| && s[i..i + |sub|] == sub
  }

  /** Compares `prefix` with the start of `s` character by character. */
  predicate StartsWith(s: string, prefix: string) {
    prefix == [] || (s != [] && s[0] == prefix[0] && StartsWith(s[1..], prefix[1..]))
  }

  /** `s` starts with `prefix` exactly when `prefix` occurs at index 0. */
  lemma {:induction false} StartsWithIffOccurs(s: string, prefix: string)
    ensures StartsWith(s, prefix) <==> OccursAt(s, prefix, 0)
    decreases |prefix|
  {
    if prefix != [] && s != [] && s[0] == prefix[0] {
      StartsWithIffOccurs(s[1..], prefix[1..]);
      if |prefix| <= |s| {
        assert s[..|prefix|] == [s[0]] + s[1..][..|prefix| - 1];
        assert prefix == [prefix[0]] + prefix[1..];
      }
    }
  }

  /** An occurrence in the tail of `s` is an occurrence in `s` one place later. */
  lemma OccursInTail(s: string, sub: string)
    requires |s| > 0
    ensures (exists i :: OccursAt(s[1..], sub, i)) <==> (exists j :: 1 <= j && OccursAt(s, sub, j))
  {
    if i :| OccursAt(s[1..], sub, i) {
      assert s[i + 1..i + 1 + |sub|] == s[1..][i..i + |sub|];
      assert OccursAt(s, sub, i + 1);
    }
    if j :| 1 <= j && OccursAt(s, sub, j) {
      assert s[1..][j - 1..j - 1 + |sub|] == s[j..j + |sub|];
      assert OccursAt(s[1..], sub, j - 1);
    }
  }

  /** `s.includes(sub)`: tries each starting position from the left. */
  predicate Includes(s: string, sub: string)
    decreases |s|
  {
    StartsWith(s, sub) || (s != [] && Includes(s[1..], sub))
  }

  /** `s.includes(sub)` holds exactly when `sub` occurs somewhere in `s`
      (the empty string occurs everywhere). */
  lemma {:induction false} IncludesIffOccurs(s: string, sub: string)
    ensures Includes(s, sub) <==> exists i :: OccursAt(s, sub, i)
    decreases |s|
  {
    StartsWithIffOccurs(s, sub);
    if s != [] {
      IncludesIffOccurs(s[1..], sub);
      OccursInTail(s, sub);
    }
  }

  /** Lower-casing works character by character, so it distributes over concatenation. */
  lemma LowerCaseConcat(a: string, b: string)
    ensures LowerCase(a + b) == LowerCase(a) + LowerCase(b)
  {
    var l, r := LowerCase(a + b), LowerCase(a) + LowerCase(b);
    assert forall i :: 0 <= i < |l| ==> l[i] == r[i] by {
      forall i | 0 <= i < |l|
        ensures l[i] == r[i]
      {
        if i < |a| { assert (a + b)[i] == a[i]; } else { assert (a + b)[i] == b[i - |a|]; }
      }
    }
  }

  /** `sub` occurs in `s` at index `i` once `s` is lower-cased, stated
      character by character. */
  ghost predicate MatchesAt(s: string, sub: string, i: int) {
    0 <= i && i + |sub| <= |s| && forall k :: 0 <= k < |sub| ==> Lower(s[i + k]) == sub[k]
  }

  /** The character-wise statement agrees with searching the lower-cased text. */
  lemma MatchesAtIffOccurs(s: string, sub: string, i: int)
    ensures MatchesAt(s, sub, i) <==> OccursAt(LowerCase(s), sub, i)
  {
    if 0 <= i && i + |sub| <= |s| {
      var l := LowerCase(s);
      forall k | 0 <= k < |sub|
        ensures (l[i..i + |sub|][k] == sub[k]) == (Lower(s[i + k]) == sub[k])
      {
      }
    }
  }

  /** A needle with a letter that `s` has in neither case matches nowhere. */
  lemma MissingLetter(s: string, sub: string, j: nat)
    requires j < |sub| && 'a' <= sub[j] <= 'z'
    requires sub[j] !in s && (sub[j] as int - 32) as char !in s
    ensures forall i :: !MatchesAt(s, sub, i)
  {
    forall i | 0 <= i && i + |sub| <= |s|
      ensures !MatchesAt(s, sub, i)
    {
      assert s[i + j] in s;
      assert Lower(s[i + j]) != sub[j];
    }
  }

  /** A match in `a + [sep] + b` of a needle without `sep` lies in `a` or in `b`. */
  lemma MatchSplit(a: string, sep: char, b: string, sub: string)
    requires sep !in sub && !IsUpper(sep)
    requires forall i :: !MatchesAt(a, sub, i)
    requires forall i :: !MatchesAt(b, sub, i)
    ensures forall i :: !MatchesAt(a + [sep] + b, sub, i)
  {
    var s := a + [sep] + b;
    forall i | 0 <= i && i + |sub| <= |s|
      ensures !MatchesAt(s, sub, i)
    {
      if i + |sub| <= |a| {
        assert !MatchesAt(a, sub, i);
        var k :| 0 <= k < |sub| && Lower(a[i + k]) != sub[k];
        assert s[i + k] == a[i + k];
      } else if i > |a| {
        assert !MatchesAt(b, sub, i - |a| - 1);
        var k :| 0 <= k < |sub| && Lower(b[i - |a| - 1 + k]) != sub[k];
        assert s[i + k] == b[i - |a| - 1 + k];
      } else {
        assert s[|a|] == sep && Lower(sep) == sep && sub[|a| - i] != sep;
      }
    }
  }

  /** `sub` lies in `a + sub + b` right after `a`. */
  lemma MatchInMiddle(a: string, sub: string, b: string)
    requires forall k :: 0 <= k < |sub| ==> !IsUpper(sub[k])
    ensures MatchesAt(a + sub + b, sub, |a|)
  {
    var s := a + sub + b;
    forall k | 0 <= k < |sub|
      ensures Lower(s[|a| + k]) == sub[k]
    {
      assert s[|a| + k] == sub[k];
    }
  }

  /** A match stays a match when text is appended. */
  lemma MatchInPrefix(a: string, b: string, sub: string, i: int)
    requires MatchesAt(a, sub, i)
    ensures MatchesAt(a + b, sub, i)
  {
    forall k | 0 <= k < |sub|
      ensures Lower((a + b)[i + k]) == sub[k]
    {
      assert (a + b)[i + k] == a[i + k];
    }
  }

  /** The characters `String.prototype.trim` removes: the WhiteSpace and
      LineTerminator code points of ECMA-262. */
  predicate IsSpace(c: char) {
    || c == '\t' || c == '\n' || c == '\U{000B}' || c == '\U{000C}' || c == '\r' || c == ' '
    || c == '\U{00A0}' || c == '\U{1680}' || ('\U{2000}' <= c <= '\U{200A}')
    || c == '\U{2028}' || c == '\U{2029}' || c == '\U{202F}' || c == '\U{205F}'
    || c == '\U{3000}' || c == '\U{FEFF}'
  }

  /** Every character of `s` is white space (the empty string included). */
  predicate IsBlank(s: string) {
    forall i :: 0 <= i < |s| ==> IsSpace(s[i])
  }

  /** Drops the leading white space: the result is the suffix of `s` that
      starts at its first non-space character. */
  function TrimStart(s: string): (r: string)
    ensures |r| <= |s| && r == s[|s| - |r|..]
    ensures IsBlank(s[..|s| - |r|])
    ensures |r| > 0 ==> !IsSpace(r[0])
  {
    if |s| > 0 && IsSpace(s[0]) then
      var r := TrimStart(s[1..]);
      assert s[1..][..|s[1..]| - |r|] == s[1..|s| - |r|];
      r
    else
      s
  }

  /** Drops the trailing white space: the result is the prefix of `s` that
      ends at its last non-space character. */
  function TrimEnd(s: string): (r: string)
    ensures |r| <= |s| && r == s[..|r|]
    ensures IsBlank(s[|r|..])
    ensures |r| > 0 ==> !IsSpace(r[|r| - 1])
  {
    if |s| > 0 && IsSpace(s[|s| - 1]) then
      var r := TrimEnd(s[..|s| - 1]);
      assert s[..|s| - 1][|r|..] == s[|r|..|s| - 1];
      r
    else
      s
  }

  /** `r` is `s` with its leading and trailing white space removed: a slice
      of `s` between a blank prefix and a blank suffix that starts and ends
      on a non-space character. Exactly one string has this relation to `s`. */
  ghost predicate TrimmedFrom(s: string, r: string) {
    && |r| <= |s|
    && (r != [] ==> !IsSpace(r[0]) && !IsSpace(r[|r| - 1]))
    && exists i :: TrimmedAt(s, r, i)
  }

  /** `r` is the slice of `s` at `i` with blank text on both sides. */
  ghost predicate TrimmedAt(s: string, r: string, i: int) {
    0 <= i <= |s| - |r| && s[i..i + |r|] == r && IsBlank(s[..i]) && IsBlank(s[i + |r|..])
  }

  /** `s.trim()`: the part of `s` between its leading and its trailing
      white space, starting and ending on a non-space character. */
  function Trim(s: string): (r: string)
    ensures TrimmedFrom(s, r)
  {
    var t := TrimStart(s);
    var r := TrimEnd(t);
    TrimSlices(s, t, r);
    r
  }

  /** Dropping a blank prefix and then a blank suffix leaves a slice of the
      original text that sits between a blank prefix and a blank suffix. */
  lemma TrimSlices(s: string, t: string, r: string)
    requires |t| <= |s| && t == s[|s| - |t|..] && IsBlank(s[..|s| - |t|])
    requires |t| > 0 ==> !IsSpace(t[0])
    requires |r| <= |t| && r == t[..|r|] && IsBlank(t[|r|..])
    requires |r| > 0 ==> !IsSpace(r[|r| - 1])
    ensures TrimmedFrom(s, r)
  {
    var i := |s| - |t|;
    assert r != [] ==> r[0] == t[0];
    assert s[i..i + |r|] == r;
    assert s[i + |r|..] == t[|r|..];
    assert TrimmedAt(s, r, i);
  }

  /** The trimmed form of a string is unique, so `TrimmedFrom` pins down
      what `trim` returns. */
  lemma TrimmedFromUnique(s: string, r1: string, r2: string)
    requires TrimmedFrom(s, r1) && TrimmedFrom(s, r2)
    ensures r1 == r2
  {
    var i1 :| TrimmedAt(s, r1, i1);
    var i2 :| TrimmedAt(s, r2, i2);
    TrimmedAtUnique(s, r1, i1, r2, i2);
  }

  /** Two trimmed slices of the same text, each starting and ending on a
      non-space character, are the same slice. */
  lemma TrimmedAtUnique(s: string, r1: string, i1: int, r2: string, i2: int)
    requires TrimmedAt(s, r1, i1) && TrimmedAt(s, r2, i2)
    requires r1 != [] ==> !IsSpace(r1[0]) && !IsSpace(r1[|r1| - 1])
    requires r2 != [] ==> !IsSpace(r2[0]) && !IsSpace(r2[|r2| - 1])
    ensures r1 == r2
  {
    if r1 != [] {
      assert s[i1] == r1[0] && s[i1 + |r1| - 1] == r1[|r1| - 1];
      NonSpaceOutsideBlank(s, i1, |r1|, i2, |r2|);
    }
    if r2 != [] {
      assert s[i2] == r2[0] && s[i2 + |r2| - 1] == r2[|r2| - 1];
      NonSpaceOutsideBlank(s, i2, |r2|, i1, |r1|);
    }
  }

  /** A slice that starts and ends on a non-space character lies inside any
      slice with blank text on both sides of it. */
  lemma NonSpaceOutsideBlank(s: string, i: nat, n: nat, j: nat, m: nat)
    requires 0 < n && i + n <= |s| && j + m <= |s|
    requires !IsSpace(s[i]) && !IsSpace(s[i + n - 1])
    requires IsBlank(s[..j]) && IsBlank(s[j + m..])
    ensures j <= i && i + n <= j + m
  {
  }

  /** A string trims to nothing exactly when it is all white space. */
  lemma {:induction false} TrimEmptyIffBlank(s: string)
    ensures Trim(s) == "" <==> IsBlank(s)
  {
    var t := TrimStart(s);
    if Trim(s) == "" {
      assert IsBlank(t[0..]);
      assert |t| == 0;
      assert s[..|s|] == s;
    }
  }

  /** `s.split(" ")[0]`: the text before the first space, or all of `s`
      when it has none. */
  function FirstWord(s: string): (r: string)
    ensures r <= s
    ensures ' ' !in r
    ensures |r| < |s| ==> s[|r|] == ' '
  {
    if s == [] || s[0] == ' ' then [] else [s[0]] + FirstWord(s[1..])
  }

  predicate IsDigit(c: char) {
    '0' <= c <= '9'
  }

  function Digit(d: nat): char
    requires d < 10
  {
    "0123456789"[d]
  }

  /** The decimal digits a template literal prints for `n`. */
  function Decimal(n: nat): (r: string)
    ensures |r| > 0
    ensures forall i :: 0 <= i < |r| ==> IsDigit(r[i])
    ensures n >= 10 <==> |r| > 1
  {
    if n < 10 then [Digit(n)] else Decimal(n / 10) + [Digit(n % 10)]
  }

  /** Different numbers print differently, so timestamp-based ids made at
      different times differ. */
  lemma {:induction false} DecimalInjective(n: nat, m: nat)
    requires Decimal(n) == Decimal(m)
    ensures n == m
    decreases n
  {
    if n >= 10 && m >= 10 {
      var a, b := Decimal(n), Decimal(m);
      assert a[..|a| - 1] == Decimal(n / 10) && b[..|b| - 1] == Decimal(m / 10);
      DecimalInjective(n / 10, m / 10);
      assert Digit(n % 10) == Digit(m % 10);
    }
  }
}
