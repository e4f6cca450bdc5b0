/**
 * The few behaviours of Python's built-in `str` that the core relies on:
 * `isspace` (which is also what the `\s` class of a `re` pattern matches),
 * `strip`, `startswith`, `split` on one character and `join`.
 * Digits are the ASCII digits `0`-`9`.
 */
module PyStr {

  /** The code-point ranges, bounds included, of the characters Python's `str.isspace` accepts. */
  const SpaceRanges: seq<(int, int)> :=
    [(0x09, 0x0D), (0x1C, 0x20), (0x85, 0x85), (0xA0, 0xA0), (0x1680, 0x1680),
     (0x2000, 0x200A), (0x2028, 0x2029), (0x202F, 0x202F), (0x205F, 0x205F), (0x3000, 0x3000)]

  /** `n` lies in one of the ranges from the `i`-th on. */
  predicate InSpaceRanges(n: int, i: nat)
    decreases |SpaceRanges| - i
  {
    i < |SpaceRanges| && ((SpaceRanges[i].0 <= n <= SpaceRanges[i].1) || InSpaceRanges(n, i + 1))
  }

  /** Python's `str.isspace` on one character. */
  predicate IsSpace(c: char) {
    InSpaceRanges(c as int, 0)
  }

  /** Printable ASCII and the Latin, Greek and Cyrillic letters are not whitespace. */
  lemma NotSpace(c: char)
    requires 0x21 <= c as int <= 0x84 || 0xA1 <= c as int <= 0x167F
    ensures !IsSpace(c)
  {
    var n := c as int;
    assert !InSpaceRanges(n, 10);
    assert !InSpaceRanges(n, 9);
    assert !InSpaceRanges(n, 8);
    assert !InSpaceRanges(n, 7);
    assert !InSpaceRanges(n, 6);
    assert !InSpaceRanges(n, 5);
    assert !InSpaceRanges(n, 4);
    assert !InSpaceRanges(n, 3);
    assert !InSpaceRanges(n, 2);
    assert !InSpaceRanges(n, 1);
  }

  lemma SpaceNotDigit(c: char)
    ensures IsSpace(c) ==> !IsDigit(c)
  {
    if IsDigit(c) {
      NotSpace(c);
    }
  }

  predicate IsDigit(c: char) {
    '0' <= c <= '9'
  }

  /** Every character is whitespace. */
  predicate AllSpace(s: string) {
    forall i :: 0 <= i < |s| ==> IsSpace(s[i])
  }

  predicate AllDigits(s: string) {
    forall i :: 0 <= i < |s| ==> IsDigit(s[i])
  }

  predicate NoDigits(s: string) {
    forall i :: 0 <= i < |s| ==> !IsDigit(s[i])
  }

  /** A string that `strip` leaves as it is. */
  predicate IsStripped(s: string) {
    s == [] || (!IsSpace(s[0]) && !IsSpace(s[|s| - 1]))
  }

  lemma {:induction false} AppendAssoc<T>(a: seq<T>, b: seq<T>, c: seq<T>)
    ensures a + b + c == a + (b + c)
  {
  }

  /** `s.startswith(prefix)` */
  predicate StartsWith(s: string, prefix: string) {
    prefix <= s
  }

  /** The first position at or after `i` that does not hold whitespace, or `|s|`. */
  function SkipSpaces(s: string, i: nat): (j: nat)
    requires i <= |s|
    ensures i <= j <= |s| && (j == |s| || !IsSpace(s[j]))
    decreases |s| - i
  {
    if i < |s| && IsSpace(s[i]) then SkipSpaces(s, i + 1) else i
  }

  /** The position just after the last character before `j` that is not whitespace, but not below `i`. */
  function SkipSpacesBack(s: string, i: nat, j: nat): (k: nat)
    requires i <= j <= |s|
    ensures i <= k <= j && (k == i || !IsSpace(s[k - 1]))
    decreases j
  {
    if i < j && IsSpace(s[j - 1]) then SkipSpacesBack(s, i, j - 1) else j
  }

  /** What `SkipSpaces` passes over is whitespace. */
  lemma {:induction false} SkipSpacesSkipped(s: string, i: nat)
    requires i <= |s|
    ensures forall q :: i <= q < SkipSpaces(s, i) ==> IsSpace(s[q])
    decreases |s| - i
  {
    if i < |s| && IsSpace(s[i]) {
      SkipSpacesSkipped(s, i + 1);
    }
  }

  /** What `SkipSpacesBack` passes over is whitespace. */
  lemma {:induction false} SkipSpacesBackSkipped(s: string, i: nat, j: nat)
    requires i <= j <= |s|
    ensures forall q :: SkipSpacesBack(s, i, j) <= q < j ==> IsSpace(s[q])
    decreases j
  {
    if i < j && IsSpace(s[j - 1]) {
      SkipSpacesBackSkipped(s, i, j - 1);
    }
  }

  /** A run of whitespace followed by a non-whitespace character or the end is what `SkipSpaces` passes over. */
  lemma {:induction false} SkipSpacesUnique(s: string, i: nat, k: nat)
    requires i <= k <= |s| && (k == |s| || !IsSpace(s[k]))
    requires forall q :: i <= q < k ==> IsSpace(s[q])
    ensures SkipSpaces(s, i) == k
    decreases k - i
  {
    if i < k {
      SkipSpacesUnique(s, i + 1, k);
    }
  }

  lemma {:induction false} SkipSpacesBackUnique(s: string, i: nat, k: nat, j: nat)
    requires i <= k <= j <= |s| && (k == i || !IsSpace(s[k - 1]))
    requires forall q :: k <= q < j ==> IsSpace(s[q])
    ensures SkipSpacesBack(s, i, j) == k
    decreases j - k
  {
    if k < j {
      SkipSpacesBackUnique(s, i, k, j - 1);
    }
  }

  /** `s.strip()`: the part of `s` between its leading and its trailing whitespace. */
  function Strip(s: string): (r: string)
    ensures |r| <= |s|
    ensures IsStripped(r)
  {
    var a := SkipSpaces(s, 0);
    s[a..SkipSpacesBack(s, a, |s|)]
  }

  /** `strip` removes exactly the whitespace around a stripped middle. */
  lemma {:induction false} StripOf(a: string, m: string, b: string)
    requires AllSpace(a) && AllSpace(b) && IsStripped(m)
    ensures Strip(a + m + b) == m
  {
    var t := a + m + b;
    if m == [] {
      SkipSpacesUnique(t, 0, |t|);
    } else {
      SkipSpacesUnique(t, 0, |a|);
      SkipSpacesBackUnique(t, |a|, |a| + |m|, |t|);
      assert t[|a|..|a| + |m|] == m;
    }
  }

  /** `s.strip()` is empty exactly when `s` is blank. */
  lemma {:induction false} StripEmptyIff(s: string)
    ensures Strip(s) == [] <==> AllSpace(s)
  {
    var a := SkipSpaces(s, 0);
    SkipSpacesSkipped(s, 0);
    SkipSpacesBackSkipped(s, a, |s|);
    if AllSpace(s) {
      SkipSpacesUnique(s, 0, |s|);
    }
  }

  /** A stripped string is its own strip. */
  lemma {:induction false} StripStripped(m: string)
    requires IsStripped(m)
    ensures Strip(m) == m
  {
    assert m == [] + m + [];
    StripOf([], m, []);
  }

  /** `sep.join(parts)` */
  function Join(parts: seq<string>, sep: string): string {
    if |parts| == 0 then []
    else if |parts| == 1 then parts[0]
    else parts[0] + sep + Join(parts[1..], sep)
  }

  /** `s.split(sep)` for a one-character separator. */
  function Split(s: string, sep: char): (parts: seq<string>)
    ensures |parts| >= 1
    ensures forall k :: 0 <= k < |parts| ==> sep !in parts[k]
  {
    if s == [] then [[]]
    else
      var rest := Split(s[1..], sep);
      if s[0] == sep then [[]] + rest
      else [[s[0]] + rest[0]] + rest[1..]
  }

  /** Joining the pieces of a split with the separator gives the string back. */
  lemma {:induction false} JoinSplit(s: string, sep: char)
    ensures Join(Split(s, sep), [sep]) == s
  {
    if s != [] {
      var rest := Split(s[1..], sep);
      JoinSplit(s[1..], sep);
      if s[0] != sep && |rest| > 1 {
        assert Join(rest, [sep]) == rest[0] + [sep] + Join(rest[1..], [sep]);
      }
    }
  }

  lemma {:induction false} SplitNoSeparator(a: string, sep: char)
    requires sep !in a
    ensures Split(a, sep) == [a]
  {
    if a != [] {
      assert a[0] != sep && sep !in a[1..];
      SplitNoSeparator(a[1..], sep);
      assert [a[0]] + a[1..] == a;
    }
  }

  /** Splitting at a separator splits the two sides independently. */
  lemma {:induction false} SplitAppend(a: string, b: string, sep: char)
    ensures Split(a + [sep] + b, sep) == Split(a, sep) + Split(b, sep)
  {
    if a == [] {
      assert (a + [sep] + b)[1..] == b;
    } else {
      assert (a + [sep] + b)[1..] == a[1..] + [sep] + b;
      SplitAppend(a[1..], b, sep);
    }
  }

  /** Splitting a join gives the pieces back when no piece holds the separator. */
  lemma {:induction false} SplitJoin(parts: seq<string>, sep: char)
    requires |parts| >= 1
    requires forall k :: 0 <= k < |parts| ==> sep !in parts[k]
    ensures Split(Join(parts, [sep]), sep) == parts
  {
    SplitNoSeparator(parts[0], sep);
    if |parts| > 1 {
      SplitJoin(parts[1..], sep);
      SplitAppend(parts[0], Join(parts[1..], [sep]), sep);
      assert parts == [parts[0]] + parts[1..];
    }
  }
}
