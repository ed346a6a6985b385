/**
 * The Python `str` operations the chat backend is built from, as functions on
 * `seq<char>`: `strip()`, `lower()`, `title()`, the `in` test, `startswith`,
 * `find`, `replace(old, new, 1)`, `split(sep, 1)`, `sep.join(xs)` and `str(n)`
 * for a non-negative integer.
 */
module PyStr {
  import opened Wrappers

  // ---------------------------------------------------------------------------
  // Characters
  // ---------------------------------------------------------------------------

  /** Python's `str.isspace()`: exactly the characters a bare `strip()` removes. */
  predicate IsSpace(c: char) {
    || ('\t' <= c <= '\r')
    || ('\U{1C}' <= c <= '\U{1F}')
    || c == ' ' || c == '\U{85}' || c == '\U{A0}' || c == '\U{1680}'
    || ('\U{2000}' <= c <= '\U{200A}')
    || c == '\U{2028}' || c == '\U{2029}' || c == '\U{202F}' || c == '\U{205F}'
    || c == '\U{3000}'
  }

  predicate IsUpper(c: char) { 'A' <= c <= 'Z' }

  predicate IsLower(c: char) { 'a' <= c <= 'z' }

  /** A cased character in the sense of `str.title()` (ASCII letters only). */
  predicate IsLetter(c: char) { IsUpper(c) || IsLower(c) }

  function LowerChar(c: char): (d: char)
    ensures !IsUpper(d)
    ensures IsLetter(d) == IsLetter(c) && IsSpace(d) == IsSpace(c)
    ensures !IsUpper(c) ==> d == c
  {
    if IsUpper(c) then (c as int + 32) as char else c
  }

  function UpperChar(c: char): (d: char)
    ensures !IsLower(d)
    ensures IsLetter(d) == IsLetter(c)
    ensures LowerChar(d) == LowerChar(c)
  {
    if IsLower(c) then (c as int - 32) as char else c
  }

  // ---------------------------------------------------------------------------
  // Predicates on whole strings
  // ---------------------------------------------------------------------------

  predicate AllSpace(s: string) {
    forall i :: 0 <= i < |s| ==> IsSpace(s[i])
  }

  /** Neither end is whitespace: what `strip()` leaves behind. */
  predicate IsStripped(s: string) {
    s == [] || (!IsSpace(s[0]) && !IsSpace(s[|s| - 1]))
  }

  /** No upper-case letter: what `lower()` leaves behind. */
  predicate NoUpper(s: string) {
    forall i :: 0 <= i < |s| ==> !IsUpper(s[i])
  }

  // ---------------------------------------------------------------------------
  // lower()
  // ---------------------------------------------------------------------------

  /** `s.lower()`, mapping the letters A-Z and leaving every other character. */
  function Lower(s: string): (r: string)
    ensures |r| == |s|
    ensures forall i :: 0 <= i < |s| ==> r[i] == LowerChar(s[i])
  {
    seq(|s|, i requires 0 <= i < |s| => LowerChar(s[i]))
  }

  lemma LowerHasNoUpper(s: string)
    ensures NoUpper(Lower(s))
  {
  }

  /** A string without upper-case letters is its own `lower()`. */
  lemma LowerOfNoUpper(s: string)
    requires NoUpper(s)
    ensures Lower(s) == s
  {
  }

  lemma LowerIdempotent(s: string)
    ensures Lower(Lower(s)) == Lower(s)
  {
    LowerHasNoUpper(s);
    LowerOfNoUpper(Lower(s));
  }

  lemma LowerAppend(a: string, b: string)
    ensures Lower(a + b) == Lower(a) + Lower(b)
  {
    assert forall i :: 0 <= i < |a + b| ==> Lower(a + b)[i] == (Lower(a) + Lower(b))[i];
  }

  // ---------------------------------------------------------------------------
  // strip()
  // ---------------------------------------------------------------------------

  /** How many whitespace characters `s` starts with. */
  function LeadingSpaces(s: string): (n: nat)
    ensures n <= |s|
    ensures forall i :: 0 <= i < n ==> IsSpace(s[i])
    ensures n < |s| ==> !IsSpace(s[n])
  {
    if s != [] && IsSpace(s[0]) then 1 + LeadingSpaces(s[1..]) else 0
  }

  /** How many whitespace characters `s` ends with. */
  function TrailingSpaces(s: string): (n: nat)
    ensures n <= |s|
    ensures forall i :: |s| - n <= i < |s| ==> IsSpace(s[i])
    ensures n < |s| ==> !IsSpace(s[|s| - 1 - n])
  {
    if s != [] && IsSpace(s[|s| - 1]) then 1 + TrailingSpaces(s[..|s| - 1]) else 0
  }

  /** `s.strip()`: drop leading and trailing whitespace. */
  function Strip(s: string): (r: string)
    ensures IsStripped(r)
    ensures |r| <= |s|
  {
    var t := s[LeadingSpaces(s)..];
    t[..|t| - TrailingSpaces(t)]
  }

  /** `Strip` removes whitespace and nothing else, from the two ends only. */
  lemma StripSplit(s: string) returns (x: string, y: string)
    ensures s == x + Strip(s) + y
    ensures AllSpace(x) && AllSpace(y)
  {
    x, y := StripHead(s), StripTail(s);
    StripPieces(s);
    LeadingAllSpace(s);
    TrailingAllSpace(s);
  }

  /** The whitespace `Strip` drops at the front ... */
  function StripHead(s: string): string {
    s[..LeadingSpaces(s)]
  }

  /** ... and at the back. */
  function StripTail(s: string): string {
    var t := s[LeadingSpaces(s)..];
    t[|t| - TrailingSpaces(t)..]
  }

  lemma StripPieces(s: string)
    ensures s == StripHead(s) + Strip(s) + StripTail(s)
  {
    var a := LeadingSpaces(s);
    ThreePieces(s, a, |s[a..]| - TrailingSpaces(s[a..]));
  }

  /** Cutting `s` at `a`, and its rest at `b`, gives three pieces that make up `s`. */
  lemma ThreePieces(s: string, a: nat, b: nat)
    requires a <= |s| && b <= |s| - a
    ensures s == s[..a] + s[a..][..b] + s[a..][b..]
  {
    var t := s[a..];
    assert s == s[..a] + t;
    assert t == t[..b] + t[b..];
  }

  lemma LeadingAllSpace(s: string)
    ensures AllSpace(StripHead(s))
  {
    var x := StripHead(s);
    forall i | 0 <= i < |x| ensures IsSpace(x[i]) {
      assert x[i] == s[i];
    }
  }

  lemma TrailingAllSpace(s: string)
    ensures AllSpace(StripTail(s))
  {
    var t := s[LeadingSpaces(s)..];
    var b := |t| - TrailingSpaces(t);
    var y := StripTail(s);
    forall i | 0 <= i < |y| ensures IsSpace(y[i]) {
      assert y[i] == t[b + i];
    }
  }

  /**
   * The reference definition of `strip()`: whatever stands between an
   * all-whitespace head and an all-whitespace tail, if it has no whitespace
   * at either end, is what `Strip` returns.
   */
  lemma StripUnique(x: string, r: string, y: string)
    requires AllSpace(x) && AllSpace(y) && IsStripped(r)
    ensures Strip(x + r + y) == r
  {
    if r == [] {
      assert x + r + y == x + y;
      AllSpaceAppend(x, y);
      LeadingSpacesAll(x + y);
    } else {
      var s := x + r + y;
      assert s == x + (r + y);
      assert (r + y)[0] == r[0];
      LeadingSpacesBefore(x, r + y);
      assert s[|x|..] == r + y;
      TrailingSpacesAfter(r, y);
      assert (r + y)[..|r|] == r;
    }
  }

  /** A string of whitespace is all leading whitespace. */
  lemma {:induction false} LeadingSpacesAll(s: string)
    requires AllSpace(s)
    ensures LeadingSpaces(s) == |s|
  {
    if s != [] {
      assert AllSpace(s[1..]) by {
        forall i | 0 <= i < |s[1..]| ensures IsSpace(s[1..][i]) {
          assert s[1..][i] == s[i + 1];
        }
      }
      LeadingSpacesAll(s[1..]);
    }
  }

  /** Whitespace before a non-whitespace character is exactly the leading whitespace. */
  lemma {:induction false} LeadingSpacesBefore(x: string, rest: string)
    requires AllSpace(x) && rest != [] && !IsSpace(rest[0])
    ensures LeadingSpaces(x + rest) == |x|
  {
    if x == [] {
      assert x + rest == rest;
    } else {
      assert (x + rest)[0] == x[0];
      assert (x + rest)[1..] == x[1..] + rest;
      assert AllSpace(x[1..]) by {
        forall i | 0 <= i < |x[1..]| ensures IsSpace(x[1..][i]) {
          assert x[1..][i] == x[i + 1];
        }
      }
      LeadingSpacesBefore(x[1..], rest);
    }
  }

  /** Whitespace after a non-whitespace character is exactly the trailing whitespace. */
  lemma {:induction false} TrailingSpacesAfter(rest: string, y: string)
    requires AllSpace(y) && rest != [] && !IsSpace(rest[|rest| - 1])
    ensures TrailingSpaces(rest + y) == |y|
  {
    if y == [] {
      assert rest + y == rest;
    } else {
      var s := rest + y;
      assert s[|s| - 1] == y[|y| - 1];
      assert s[..|s| - 1] == rest + y[..|y| - 1];
      var z := y[..|y| - 1];
      assert AllSpace(z) by {
        forall i | 0 <= i < |z| ensures IsSpace(z[i]) {
          assert z[i] == y[i];
        }
      }
      TrailingSpacesAfter(rest, y[..|y| - 1]);
    }
  }

  lemma AllSpaceAppend(a: string, b: string)
    requires AllSpace(a) && AllSpace(b)
    ensures AllSpace(a + b)
  {
    forall i | 0 <= i < |a + b| ensures IsSpace((a + b)[i]) {
      if i < |a| {
        assert (a + b)[i] == a[i];
      } else {
        assert (a + b)[i] == b[i - |a|];
      }
    }
  }

  /** Only an all-whitespace string strips to nothing. */
  lemma StripEmpty(s: string)
    requires Strip(s) == []
    ensures AllSpace(s)
  {
    var x, y := StripSplit(s);
    assert s == x + y by {
      assert s == x + Strip(s) + y;
    }
    AllSpaceAppend(x, y);
  }

  /** Whitespace around a string does not change what it strips to. */
  lemma StripPadded(x: string, s: string, y: string)
    requires AllSpace(x) && AllSpace(y)
    ensures Strip(x + s + y) == Strip(s)
  {
    var x', y' := StripSplit(s);
    Regroup(x, x', Strip(s), y', y);
    AllSpaceAppend(x, x');
    AllSpaceAppend(y', y);
    StripUnique(x + x', Strip(s), y' + y);
  }

  lemma Regroup(a: string, b: string, c: string, d: string, e: string)
    ensures a + (b + c + d) + e == (a + b) + c + (d + e)
  {
  }

  /** An occurrence inside the middle piece is an occurrence in the whole. */
  lemma OccursInMiddle(x: string, r: string, y: string, p: string, j: nat)
    requires OccursAt(r, p, j)
    ensures OccursAt(x + r + y, p, |x| + j)
  {
    var s := x + r + y;
    assert s[|x| + j..|x| + j + |p|] == r[j..j + |p|] by {
      forall k | |x| + j <= k < |x| + j + |p| ensures s[k] == r[k - |x|] {
        assert s[k] == (x + r)[k];
      }
    }
  }

  /** What the stripped string contains, the string contains. */
  lemma ContainsOfStrip(s: string, p: string)
    requires Contains(Strip(s), p)
    ensures Contains(s, p)
  {
    var x, y := StripSplit(s);
    var j := Find(Strip(s), p).value;
    OccursInMiddle(x, Strip(s), y, p, j);
    ContainsIff(s, p);
  }

  /** `strip()` leaves a first character that is not whitespace in place ... */
  lemma StripKeepsFirst(s: string)
    requires s != [] && !IsSpace(s[0])
    ensures Strip(s) != [] && Strip(s)[0] == s[0]
  {
    assert LeadingSpaces(s) == 0;
  }

  /** ... and likewise a last one. */
  lemma StripKeepsLast(s: string)
    requires s != [] && !IsSpace(s[|s| - 1])
    ensures Strip(s) != [] && Strip(s)[|Strip(s)| - 1] == s[|s| - 1]
  {
    var t := s[LeadingSpaces(s)..];
    assert t[|t| - 1] == s[|s| - 1];
    assert TrailingSpaces(t) == 0;
  }

  lemma StripOfStripped(s: string)
    requires IsStripped(s)
    ensures Strip(s) == s
  {
    StripUnique([], s, []);
    assert [] + s + [] == s;
  }

  lemma StripIdempotent(s: string)
    ensures Strip(Strip(s)) == Strip(s)
  {
    StripOfStripped(Strip(s));
  }

  /**
   * `s.strip().lower() == s.lower().strip()`: the chat handler lowers after
   * stripping, the port normaliser strips after lowering, and both agree.
   */
  lemma StripLowerCommute(s: string)
    ensures Strip(Lower(s)) == Lower(Strip(s))
  {
    var x, y := StripSplit(s);
    var r := Strip(s);
    LowerAppend(x + r, y);
    LowerAppend(x, r);
    LowerKeepsSpace(x);
    LowerKeepsSpace(y);
    LowerKeepsStripped(r);
    StripUnique(Lower(x), Lower(r), Lower(y));
  }

  lemma LowerKeepsSpace(s: string)
    requires AllSpace(s)
    ensures AllSpace(Lower(s))
  {
  }

  lemma LowerKeepsStripped(s: string)
    requires IsStripped(s)
    ensures IsStripped(Lower(s))
  {
  }

  /** A stripped, lower-cased string is a fixed point of strip-then-lower. */
  lemma CanonicalFixed(s: string)
    requires NoUpper(s) && IsStripped(s)
    ensures Strip(Lower(s)) == s
  {
    LowerOfNoUpper(s);
    StripOfStripped(s);
  }

  /** `lower()` then `strip()` is idempotent. */
  lemma NormalizeKeyIdempotent(s: string)
    ensures Strip(Lower(Strip(Lower(s)))) == Strip(Lower(s))
  {
    StripLowerCommute(s);
    LowerHasNoUpper(Strip(s));
    CanonicalFixed(Lower(Strip(s)));
  }

  // ---------------------------------------------------------------------------
  // title()
  // ---------------------------------------------------------------------------

  /** The `title()` of one character, given whether the one before it was a letter. */
  function TitleChar(c: char, afterLetter: bool): (d: char)
    ensures IsLetter(d) == IsLetter(c)
    ensures LowerChar(d) == LowerChar(c)
  {
    if !IsLetter(c) then c else if afterLetter then LowerChar(c) else UpperChar(c)
  }

  /**
   * `s.title()`: a letter that follows a letter is lowered, any other letter
   * is raised, and every non-letter is kept.
   */
  function Title(s: string): (r: string)
    ensures |r| == |s|
  {
    seq(|s|, i requires 0 <= i < |s| => TitleChar(s[i], i > 0 && IsLetter(s[i - 1])))
  }

  /** `title()` changes case only: lowering its result is lowering its input. */
  lemma LowerOfTitle(s: string)
    ensures Lower(Title(s)) == Lower(s)
  {
  }

  /** `title()` is idempotent. */
  lemma TitleIdempotent(s: string)
    ensures Title(Title(s)) == Title(s)
  {
  }

  // ---------------------------------------------------------------------------
  // Searching: find, in, startswith
  // ---------------------------------------------------------------------------

  predicate OccursAt(s: string, p: string, i: int) {
    0 <= i && i + |p| <= |s| && s[i..i + |p|] == p
  }

  /** `s.find(p, from)`: the leftmost index at or after `from` where `p` occurs. */
  function FindFrom(s: string, p: string, from: nat): (r: Option<nat>)
    ensures r.Some? ==> from <= r.value && OccursAt(s, p, r.value)
    ensures r.Some? ==> forall j :: from <= j < r.value ==> !OccursAt(s, p, j)
    ensures r.None? ==> forall j :: from <= j ==> !OccursAt(s, p, j)
    decreases |s| - from
  {
    if from + |p| > |s| then None
    else if s[from..from + |p|] == p then Some(from)
    else FindFrom(s, p, from + 1)
  }

  /** `s.find(p)`, with `None` for Python's -1. */
  function Find(s: string, p: string): Option<nat> {
    FindFrom(s, p, 0)
  }

  /** Python's `p in s`. */
  predicate Contains(s: string, p: string) {
    Find(s, p).Some?
  }

  /** `Contains` agrees with the plain definition of a substring occurrence. */
  lemma ContainsIff(s: string, p: string)
    ensures Contains(s, p) <==> exists i :: OccursAt(s, p, i)
  {
    if Contains(s, p) {
      assert OccursAt(s, p, Find(s, p).value);
    }
  }

  /** A piece of `s` contains only occurrences that `s` contains. */
  lemma ContainsOfSlice(s: string, p: string, lo: nat, hi: nat)
    requires lo <= hi <= |s|
    requires Contains(s[lo..hi], p)
    ensures exists i :: lo <= i && i + |p| <= hi && OccursAt(s, p, i)
  {
    var j := Find(s[lo..hi], p).value;
    assert s[lo..hi][j..j + |p|] == s[lo + j..lo + j + |p|];
    assert OccursAt(s, p, lo + j);
  }

  /** `s.startswith(p)`. */
  predicate StartsWith(s: string, p: string) {
    |p| <= |s| && s[..|p|] == p
  }

  /** Text appended after a prefix keeps the prefix. */
  lemma StartsWithExtend(s: string, p: string, q: string)
    requires StartsWith(s, p)
    ensures StartsWith(s + q, p)
  {
    assert (s + q)[..|p|] == s[..|p|];
  }

  // ---------------------------------------------------------------------------
  // replace(old, new, 1) and split(sep, 1)
  // ---------------------------------------------------------------------------

  /** `s.replace(target, repl, 1)`: the leftmost occurrence of `target` only. */
  function ReplaceFirst(s: string, target: string, repl: string): string {
    match Find(s, target)
    case None => s
    case Some(i) => s[..i] + repl + s[i + |target|..]
  }

  /** Deleting a word that `s` starts with removes exactly that prefix. */
  lemma ReplacePrefix(s: string, p: string)
    requires StartsWith(s, p)
    ensures ReplaceFirst(s, p, "") == s[|p|..]
  {
    assert OccursAt(s, p, 0);
    assert Find(s, p) == Some(0);
  }

  /** `s.split(sep, 1)`: one piece when `sep` is absent, else the two sides of its first occurrence. */
  function SplitOnce(s: string, sep: string): (parts: seq<string>)
    ensures 1 <= |parts| <= 2
    ensures |parts| == 2 <==> Contains(s, sep)
  {
    match Find(s, sep)
    case None => [s]
    case Some(i) => [s[..i], s[i + |sep|..]]
  }

  /** Splitting once and joining back with the separator gives the input; the head holds no separator. */
  lemma SplitOnceJoin(s: string, sep: string)
    requires sep != [] && Contains(s, sep)
    ensures SplitOnce(s, sep)[0] + sep + SplitOnce(s, sep)[1] == s
    ensures !Contains(SplitOnce(s, sep)[0], sep)
  {
    var i := Find(s, sep).value;
    var parts := SplitOnce(s, sep);
    assert s == s[..i] + s[i..i + |sep|] + s[i + |sep|..];
    if Contains(parts[0], sep) {
      ContainsOfSlice(s, sep, 0, i);
      assert false;
    }
  }

  // ---------------------------------------------------------------------------
  // join and str(int)
  // ---------------------------------------------------------------------------

  /** `sep.join(xs)`. */
  function Join(sep: string, xs: seq<string>): string
    decreases |xs|
  {
    if |xs| == 0 then ""
    else if |xs| == 1 then xs[0]
    else xs[0] + sep + Join(sep, xs[1..])
  }

  predicate IsDigit(c: char) { '0' <= c <= '9' }

  function DigitChar(d: nat): (c: char)
    requires d < 10
    ensures IsDigit(c)
  {
    "0123456789"[d]
  }

  function DigitValue(c: char): nat
    requires IsDigit(c)
  {
    c as int - '0' as int
  }

  /** `str(n)` for a non-negative integer, in decimal. */
  function NatToString(n: nat): (r: string)
    ensures r != []
    ensures forall i :: 0 <= i < |r| ==> IsDigit(r[i])
    ensures |r| > 1 ==> r[0] != '0'
  {
    if n < 10 then [DigitChar(n)] else NatToString(n / 10) + [DigitChar(n % 10)]
  }

  /** `int(s)` on a string of decimal digits. */
  function ParseNat(s: string): nat
    requires forall i :: 0 <= i < |s| ==> IsDigit(s[i])
  {
    if s == [] then 0 else 10 * ParseNat(s[..|s| - 1]) + DigitValue(s[|s| - 1])
  }

  /** Reading back the decimal rendering gives the number. */
  lemma {:induction false} ParseNatToString(n: nat)
    ensures ParseNat(NatToString(n)) == n
  {
    if n >= 10 {
      ParseNatToString(n / 10);
      var s := NatToString(n);
      assert s[..|s| - 1] == NatToString(n / 10);
    }
  }
}
