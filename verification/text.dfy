/**
 The Python string methods the input validators rely on — `str.strip()`, `str.lower()` and
 `str.capitalize()` — restricted to ASCII: only ASCII whitespace is stripped and only the
 letters A-Z / a-z change case; every other character passes through unchanged.
 */
module Text {

  /** `str.isspace()` on an ASCII character: space, \t \n \v \f \r, and the separators \x1c-\x1f. */
  predicate IsSpace(c: char) {
    c == ' ' || 9 <= c as int <= 13 || 28 <= c as int <= 31
  }

  predicate AllSpace(s: string) {
    forall i :: 0 <= i < |s| ==> IsSpace(s[i])
  }

  /** Neither starts nor ends with whitespace. */
  predicate Stripped(s: string) {
    s == [] || (!IsSpace(s[0]) && !IsSpace(s[|s| - 1]))
  }

  function Lower(c: char): char {
    if 'A' <= c <= 'Z' then (c as int + 32) as char else c
  }

  function Upper(c: char): char {
    if 'a' <= c <= 'z' then (c as int - 32) as char else c
  }

  /** `str.lower()`: no capital letter is left, and each character changes at most in case. */
  function LowerStr(s: string): (r: string)
    ensures |r| == |s|
    ensures forall i :: 0 <= i < |r| ==> !('A' <= r[i] <= 'Z')
    ensures forall i :: 0 <= i < |s| ==> Upper(r[i]) == Upper(s[i])
  {
    seq(|s|, i requires 0 <= i < |s| => Lower(s[i]))
  }

  /**
   The two properties above determine the lower-case form: any string of the same length with
   no capital letter that agrees with `s` up to case is `LowerStr(s)`.
   */
  lemma LowerStrUnique(s: string, t: string)
    requires |t| == |s|
    requires forall i :: 0 <= i < |t| ==> !('A' <= t[i] <= 'Z')
    requires forall i :: 0 <= i < |s| ==> Upper(t[i]) == Upper(s[i])
    ensures t == LowerStr(s)
  {
    forall i | 0 <= i < |s| ensures t[i] == LowerStr(s)[i] {
      LowerCharUnique(s[i], t[i]);
    }
  }

  lemma LowerCharUnique(c: char, d: char)
    requires !('A' <= d <= 'Z') && Upper(d) == Upper(c)
    ensures d == Lower(c)
  {
  }

  /**
   `str.capitalize()`: the first character is left without a small letter, the rest without a
   capital, and each character changes at most in case.
   */
  function Capitalize(s: string): (r: string)
    ensures |r| == |s|
    ensures s != [] ==> !('a' <= r[0] <= 'z')
    ensures forall i {:trigger r[i]} :: 1 <= i < |r| ==> !('A' <= r[i] <= 'Z')
    ensures forall i {:trigger r[i]} :: 0 <= i < |s| ==> Upper(r[i]) == Upper(s[i])
  {
    if s == [] then [] else [Upper(s[0])] + LowerStr(s[1..])
  }

  /**
   The properties above determine the capitalized form: any string of the same length whose
   first character is no small letter, whose other characters are no capitals, and which agrees
   with `s` up to case is `Capitalize(s)`.
   */
  lemma CapitalizeUnique(s: string, t: string)
    requires |t| == |s|
    requires s != [] ==> !('a' <= t[0] <= 'z')
    requires forall i :: 1 <= i < |t| ==> !('A' <= t[i] <= 'Z')
    requires forall i :: 0 <= i < |s| ==> Upper(t[i]) == Upper(s[i])
    ensures t == Capitalize(s)
  {
    if s != [] {
      UpperCharUnique(s[0], t[0]);
      forall i | 1 <= i < |s| ensures t[i] == Capitalize(s)[i] {
        LowerCharUnique(s[i], t[i]);
      }
    }
  }

  lemma UpperCharUnique(c: char, d: char)
    requires !('a' <= d <= 'z') && Upper(d) == Upper(c)
    ensures d == Upper(c)
  {
  }

  function TrimStart(s: string): string {
    if s != [] && IsSpace(s[0]) then TrimStart(s[1..]) else s
  }

  function TrimEnd(s: string): string {
    if s != [] && IsSpace(s[|s| - 1]) then TrimEnd(s[..|s| - 1]) else s
  }

  /** `str.strip()`: leading and trailing whitespace removed. */
  function Strip(s: string): (r: string)
    ensures Stripped(r)
    ensures |r| <= |s|
  {
    TrimStartFacts(s);
    TrimEndStripped(TrimStart(s));
    TrimEnd(TrimStart(s))
  }

  lemma {:induction false} TrimStartFacts(s: string)
    ensures |TrimStart(s)| <= |s|
    ensures TrimStart(s) == [] || !IsSpace(TrimStart(s)[0])
  {
    if s != [] && IsSpace(s[0]) {
      TrimStartFacts(s[1..]);
    }
  }

  /** TrimEnd yields a prefix that does not end in whitespace, and keeps a good first character. */
  lemma {:induction false} TrimEndStripped(s: string)
    ensures |TrimEnd(s)| <= |s|
    ensures TrimEnd(s) == s[..|TrimEnd(s)|]
    ensures (s == [] || !IsSpace(s[0])) ==> Stripped(TrimEnd(s))
  {
    if s != [] && IsSpace(s[|s| - 1]) {
      TrimEndStripped(s[..|s| - 1]);
    }
  }

  lemma {:induction false} TrimStartSpaces(a: string, t: string)
    requires AllSpace(a)
    requires t == [] || !IsSpace(t[0])
    ensures TrimStart(a + t) == t
  {
    if a == [] {
      assert a + t == t;
    } else {
      assert (a + t)[1..] == a[1..] + t;
      TrimStartSpaces(a[1..], t);
    }
  }

  lemma {:induction false} TrimEndSpaces(t: string, b: string)
    requires AllSpace(b)
    requires t == [] || !IsSpace(t[|t| - 1])
    ensures TrimEnd(t + b) == t
  {
    if b == [] {
      assert t + b == t;
    } else {
      var n := |t + b|;
      assert (t + b)[..n - 1] == t + b[..|b| - 1];
      TrimEndSpaces(t, b[..|b| - 1]);
    }
  }

  /**
   Strip characterised without reference to how it scans: whatever whitespace surrounds a
   stripped core, Strip returns exactly that core.
   */
  lemma StripCore(a: string, m: string, b: string)
    requires AllSpace(a) && AllSpace(b) && Stripped(m)
    ensures Strip(a + m + b) == m
  {
    if m == [] {
      assert a + m + b == (a + b) + [];
      assert AllSpace(a + b);
      TrimStartSpaces(a + b, []);
      assert TrimStart(a + m + b) == [];
    } else {
      assert a + m + b == a + (m + b);
      TrimStartSpaces(a, m + b);
      TrimEndSpaces(m, b);
    }
  }

  /** A string that is already stripped is its own stripped form. */
  lemma StrippedFixed(s: string)
    requires Stripped(s)
    ensures Strip(s) == s
  {
    assert [] + s + [] == s;
    StripCore([], s, []);
  }

  /** Stripping twice changes nothing. */
  lemma StripIdempotent(s: string)
    ensures Strip(Strip(s)) == Strip(s)
  {
    var m := Strip(s);
    assert [] + m + [] == m;
    StripCore([], m, []);
  }

  /** Case mapping never turns whitespace into non-whitespace or back. */
  lemma CaseKeepsSpace(c: char)
    ensures IsSpace(Upper(c)) <==> IsSpace(c)
    ensures IsSpace(Lower(c)) <==> IsSpace(c)
  {
  }

  /** Capitalizing a stripped string leaves it stripped. */
  lemma CapitalizeStripped(s: string)
    requires Stripped(s)
    ensures Stripped(Capitalize(s))
  {
    if s != [] {
      CaseKeepsSpace(s[0]);
      CaseKeepsSpace(s[|s| - 1]);
    }
  }

  /** Capitalizing twice changes nothing. */
  lemma CapitalizeIdempotent(s: string)
    ensures Capitalize(Capitalize(s)) == Capitalize(s)
  {
    if s != [] {
      var c := Capitalize(s);
      assert c[1..] == LowerStr(s[1..]);
      assert LowerStr(c[1..]) == c[1..];
    }
  }
}
