/**
 * The two pieces of Python string behaviour the scripts rely on:
 * str.strip (with and without an explicit character) and the ordering
 * of str values (lexicographic by code point).
 */
module Text {

  /** The characters for which Python's str.isspace() holds. */
  predicate IsSpace(c: char)
  {
    ('\t' <= c <= '\r') || ('\U{1C}' <= c <= ' ') || c == '\U{85}' || c == '\U{A0}' || c == '\U{1680}' ||
    ('\U{2000}' <= c <= '\U{200A}') || c == '\U{2028}' || c == '\U{2029}' || c == '\U{202F}' ||
    c == '\U{205F}' || c == '\U{3000}'
  }

  /** The characters a strip removes: whitespace, or one given character. */
  datatype CharClass = Spaces | Only(c: char)

  predicate InClass(c: char, drop: CharClass)
  {
    match drop
    case Spaces => IsSpace(c)
    case Only(d) => c == d
  }

  /** Drops the leading characters in `drop`: r is the longest such suffix of s. */
  function TrimStart(s: string, drop: CharClass): (r: string)
    ensures |r| <= |s| && r == s[|s| - |r|..]
    ensures forall k :: 0 <= k < |s| - |r| ==> InClass(s[k], drop)
    ensures r != [] ==> !InClass(r[0], drop)
  {
    if s != [] && InClass(s[0], drop) then TrimStart(s[1..], drop) else s
  }

  /** Drops the trailing characters in `drop`: r is the longest such prefix of s. */
  function TrimEnd(s: string, drop: CharClass): (r: string)
    ensures |r| <= |s| && r == s[..|r|]
    ensures forall k :: |r| <= k < |s| ==> InClass(s[k], drop)
    ensures r != [] ==> !InClass(r[|r| - 1], drop)
  {
    if s != [] && InClass(s[|s| - 1], drop) then TrimEnd(s[..|s| - 1], drop) else s
  }

  /** r is a slice s[i..j] of s with only characters in `drop` in front of it and behind it. */
  ghost predicate IsTrimOf(r: string, s: string, drop: CharClass)
  {
    exists i, j ::
      0 <= i <= j <= |s| && r == s[i..j] &&
      (forall x :: x in s[..i] ==> InClass(x, drop)) &&
      (forall x :: x in s[j..] ==> InClass(x, drop))
  }

  /** Both trims: the characters in `drop` off both ends of s. */
  function Trim(s: string, drop: CharClass): (r: string)
    ensures r == [] <==> forall k :: 0 <= k < |s| ==> InClass(s[k], drop)
    ensures r != [] ==> !InClass(r[0], drop) && !InClass(r[|r| - 1], drop)
    ensures s == [] || (!InClass(s[0], drop) && !InClass(s[|s| - 1], drop)) ==> r == s
    ensures IsTrimOf(r, s, drop)
  {
    TrimEmpty(s, drop);
    TrimEnds(s, drop);
    TrimUnchanged(s, drop);
    TrimIsSlice(s, drop);
    TrimEnd(TrimStart(s, drop), drop)
  }

  /** Python's s.strip(): whitespace off both ends. */
  function Strip(s: string): (r: string)
    ensures r == [] <==> forall k :: 0 <= k < |s| ==> IsSpace(s[k])
    ensures r != [] ==> !IsSpace(r[0]) && !IsSpace(r[|r| - 1])
    ensures IsTrimOf(r, s, Spaces)
  {
    assert forall c :: InClass(c, Spaces) == IsSpace(c);
    Trim(s, Spaces)
  }

  /** Both trims leave a slice of s between two runs of dropped characters. */
  lemma TrimIsSlice(s: string, drop: CharClass)
    ensures IsTrimOf(TrimEnd(TrimStart(s, drop), drop), s, drop)
  {
    var t := TrimStart(s, drop);
    TrimSlice(s, drop, t, TrimEnd(t, drop));
  }

  /** Both trims leave nothing exactly when every character is dropped. */
  lemma TrimEmpty(s: string, drop: CharClass)
    ensures TrimEnd(TrimStart(s, drop), drop) == [] <==> forall k :: 0 <= k < |s| ==> InClass(s[k], drop)
  {
    var t := TrimStart(s, drop);
    var r := TrimEnd(t, drop);
    var off := |s| - |t|;
    if r == [] {
      forall k | 0 <= k < |s| ensures InClass(s[k], drop) {
        if k >= off {
          assert s[k] == t[k - off];
        }
      }
    } else {
      assert r[0] == t[0] && t[0] == s[off];
    }
  }

  /** Both trims leave no dropped character at either end. */
  lemma TrimEnds(s: string, drop: CharClass)
    ensures var r := TrimEnd(TrimStart(s, drop), drop);
      r != [] ==> !InClass(r[0], drop) && !InClass(r[|r| - 1], drop)
  {
    var t := TrimStart(s, drop);
    var r := TrimEnd(t, drop);
    assert r != [] ==> r[0] == t[0];
  }

  /** A string with no dropped character at either end is left as it is. */
  lemma TrimUnchanged(s: string, drop: CharClass)
    ensures s == [] || (!InClass(s[0], drop) && !InClass(s[|s| - 1], drop)) ==> TrimEnd(TrimStart(s, drop), drop) == s
  {
    if s == [] || (!InClass(s[0], drop) && !InClass(s[|s| - 1], drop)) {
      assert TrimStart(s, drop) == s;
      assert TrimEnd(s, drop) == s;
    }
  }

  /** A prefix r of a suffix t of s, with dropped characters cut off in front of t and behind r, is a trim of s. */
  lemma TrimSlice(s: string, drop: CharClass, t: string, r: string)
    requires |t| <= |s| && t == s[|s| - |t|..] && forall k :: 0 <= k < |s| - |t| ==> InClass(s[k], drop)
    requires |r| <= |t| && r == t[..|r|] && forall k :: |r| <= k < |t| ==> InClass(t[k], drop)
    ensures IsTrimOf(r, s, drop)
  {
    var i, j := |s| - |t|, |s| - |t| + |r|;
    forall x | x in s[j..] ensures InClass(x, drop) {
      var k :| 0 <= k < |s[j..]| && s[j..][k] == x;
      assert x == t[|r| + k];
    }
    forall x | x in s[..i] ensures InClass(x, drop) {
      var k :| 0 <= k < i && s[..i][k] == x;
    }
    assert r == s[i..j];
  }

  /** A string with no whitespace at either end is its own strip. */
  lemma StripStripped(s: string)
    requires s == [] || (!IsSpace(s[0]) && !IsSpace(s[|s| - 1]))
    ensures Strip(s) == s
  {
    TrimUnchanged(s, Spaces);
  }

  /** Stripping twice is stripping once. */
  lemma StripIdempotent(s: string)
    ensures Strip(Strip(s)) == Strip(s)
  {
    StripStripped(Strip(s));
  }

  /** Python's s.strip(c) for a single character c. */
  function StripChar(s: string, c: char): (r: string)
    ensures r != [] ==> r[0] != c && r[|r| - 1] != c
    ensures s == [] || (s[0] != c && s[|s| - 1] != c) ==> r == s
    ensures IsTrimOf(r, s, Only(c))
  {
    Trim(s, Only(c))
  }

  /** Python's a < b on str: lexicographic by code point, a proper prefix first. */
  predicate Less(a: string, b: string)
  {
    if a == [] then b != []
    else if b == [] then false
    else if a[0] != b[0] then a[0] < b[0]
    else Less(a[1..], b[1..])
  }

  lemma {:induction false} LessIrreflexive(a: string)
    ensures !Less(a, a)
  {
    if a != [] {
      LessIrreflexive(a[1..]);
    }
  }

  lemma {:induction false} LessTransitive(a: string, b: string, c: string)
    requires Less(a, b) && Less(b, c)
    ensures Less(a, c)
  {
    if a != [] && a[0] == b[0] && b[0] == c[0] {
      LessTransitive(a[1..], b[1..], c[1..]);
    }
  }

  lemma {:induction false} LessTotal(a: string, b: string)
    ensures a == b || Less(a, b) || Less(b, a)
  {
    if a != [] && b != [] && a[0] == b[0] {
      LessTotal(a[1..], b[1..]);
      if a[1..] == b[1..] {
        assert a == [a[0]] + a[1..] && b == [b[0]] + b[1..];
      }
    }
  }

  lemma LessAsymmetric(a: string, b: string)
    requires Less(a, b)
    ensures !Less(b, a)
  {
    if Less(b, a) {
      LessTransitive(a, b, a);
      LessIrreflexive(a);
    }
  }
}
