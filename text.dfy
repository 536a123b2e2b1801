/**
  String primitives the application relies on, stated with JavaScript's meaning:
  the white space of the regular-expression class `\s` and of `String.prototype.trim`,
  literal occurrences, `toLowerCase` restricted to ASCII, and `Array.prototype.join`
  with a splitter that undoes it.
 */
module Text {

  /** ECMAScript white space and line terminators: the characters `\s` matches and
      `trim` removes. */
  predicate IsSpace(c: char) {
    var n := c as int;
    || 9 <= n <= 13 || n == 32 || n == 0xA0 || n == 0x1680 || 0x2000 <= n <= 0x200A
    || n == 0x2028 || n == 0x2029 || n == 0x202F || n == 0x205F || n == 0x3000 || n == 0xFEFF
  }

  predicate AllSpace(s: string) {
    forall k :: 0 <= k < |s| ==> IsSpace(s[k])
  }

  /** No white space at either end. */
  predicate IsTrimmed(s: string) {
    s == [] || (!IsSpace(s[0]) && !IsSpace(s[|s| - 1]))
  }

  /** `s[i..j]` is all white space, stated one character at a time from the right. */
  predicate Blank(s: string, i: nat, j: nat)
    decreases j
  {
    i <= j <= |s| && (i == j || (Blank(s, i, j - 1) && IsSpace(s[j - 1])))
  }

  /** Every character of a blank stretch is white space. */
  lemma {:induction false} BlankAt(s: string, i: nat, j: nat, k: nat)
    requires Blank(s, i, j) && i <= k < j
    ensures IsSpace(s[k])
    decreases j
  {
    if k < j - 1 {
      BlankAt(s, i, j - 1, k);
    }
  }

  /** A white-space character in front of a blank stretch extends it. */
  lemma {:induction false} BlankPrepend(s: string, i: nat, j: nat)
    requires i < j <= |s| && IsSpace(s[i]) && Blank(s, i + 1, j)
    ensures Blank(s, i, j)
    decreases j
  {
    if i + 1 < j {
      BlankPrepend(s, i, j - 1);
    }
  }

  /** A blank stretch, cut out, is all white space. */
  lemma BlankSlice(s: string, i: nat, j: nat)
    requires Blank(s, i, j)
    ensures AllSpace(s[i..j])
  {
    forall k | 0 <= k < j - i
      ensures IsSpace(s[i..j][k])
    {
      BlankAt(s, i, j, i + k);
    }
  }

  /** Length of the run of white space that starts at `i` (what a greedy `\s*` takes first). */
  function SpaceRun(s: string, i: nat): (n: nat)
    requires i <= |s|
    ensures i + n <= |s| && Blank(s, i, i + n)
    ensures i + n == |s| || !IsSpace(s[i + n])
    decreases |s| - i
  {
    if i < |s| && IsSpace(s[i]) then
      var n := SpaceRun(s, i + 1);
      BlankPrepend(s, i, i + 1 + n);
      1 + n
    else 0
  }

  /** Every blank stretch from `i` lies within the run the greedy `\s*` takes first. */
  lemma SpaceRunCovers(s: string, i: nat, j: nat)
    requires Blank(s, i, j)
    ensures j <= i + SpaceRun(s, i)
  {
    var n := SpaceRun(s, i);
    if i + n < j {
      BlankAt(s, i, j, i + n);
    }
  }

  /** Length of the run of white space that ends just before `j`. */
  function SpaceRunBefore(s: string, j: nat): (n: nat)
    requires j <= |s|
    ensures n <= j
    ensures forall k :: j - n <= k < j ==> IsSpace(s[k])
    ensures n == j || !IsSpace(s[j - n - 1])
  {
    if 0 < j && IsSpace(s[j - 1]) then 1 + SpaceRunBefore(s, j - 1) else 0
  }

  /** `String.prototype.trim`: drops the white space at both ends and nothing else. */
  function Trim(s: string): (r: string)
    ensures IsTrimmed(r)
    ensures exists i, j :: 0 <= i <= j <= |s| && r == s[i..j] && AllSpace(s[..i]) && AllSpace(s[j..])
    ensures r == [] <==> AllSpace(s)
    ensures IsTrimmed(s) ==> r == s
  {
    var i := SpaceRun(s, 0);
    if i == |s| then
      BlankSlice(s, 0, i);
      assert s[..i] == s[0..i] == s && s[i..] == [];
      []
    else
      var j := |s| - SpaceRunBefore(s, |s|);
      assert i < j;
      BlankSlice(s, 0, i);
      assert s[..i] == s[0..i];
      assert AllSpace(s[..i]) && AllSpace(s[j..]);
      assert !IsSpace(s[i]);
      s[i..j]
  }

  /** `lit` stands in `s` starting at index `i`. */
  predicate Occurs(s: string, i: int, lit: string) {
    0 <= i && i + |lit| <= |s| && AgreeFrom(s, i, lit, 0)
  }

  /** The characters of `lit` from index `k` on stand in `s` at `i + k` onwards,
      checked one character at a time. */
  predicate AgreeFrom(s: string, i: nat, lit: string, k: nat)
    requires i + |lit| <= |s|
    decreases |s| - i - k
  {
    k >= |lit| || (s[i + k] == lit[k] && AgreeFrom(s, i, lit, k + 1))
  }

  /** `s.includes(lit)`. */
  predicate Contains(s: string, lit: string) {
    exists i | 0 <= i <= |s| :: Occurs(s, i, lit)
  }

  /** Agreement from `k` on is agreement of every character from `k` on. */
  lemma {:induction false} AgreeFromChars(s: string, i: nat, lit: string, k: nat)
    requires i + |lit| <= |s|
    ensures AgreeFrom(s, i, lit, k) <==> forall t :: k <= t < |lit| ==> s[i + t] == lit[t]
    decreases |lit| - k
  {
    if k < |lit| {
      AgreeFromChars(s, i, lit, k + 1);
    }
  }

  /** An occurrence is a run of `|lit|` characters of `s` equal to those of `lit`. */
  lemma OccursChars(s: string, i: int, lit: string)
    ensures Occurs(s, i, lit) <==>
      0 <= i && i + |lit| <= |s| && forall k :: 0 <= k < |lit| ==> s[i + k] == lit[k]
  {
    if 0 <= i && i + |lit| <= |s| {
      AgreeFromChars(s, i, lit, 0);
    }
  }

  /** Where the slice of `s` at `i` is `lit`, `lit` occurs at `i`. */
  lemma SliceOccurs(s: string, i: nat, lit: string)
    requires i + |lit| <= |s| && s[i..i + |lit|] == lit
    ensures Occurs(s, i, lit)
  {
    forall k | 0 <= k < |lit|
      ensures s[i + k] == lit[k]
    {
      assert s[i..i + |lit|][k] == s[i + k];
    }
    OccursChars(s, i, lit);
  }

  /** An occurrence of `lit` in a slice of `s` is an occurrence in `s`. */
  lemma OccursInSlice(s: string, lo: nat, hi: nat, i: int, lit: string)
    requires lo <= hi <= |s|
    requires Occurs(s[lo..hi], i, lit)
    ensures Occurs(s, lo + i, lit)
  {
    OccursChars(s[lo..hi], i, lit);
    forall k | 0 <= k < |lit|
      ensures s[lo + i + k] == lit[k]
    {
      assert s[lo..hi][i + k] == lit[k];
    }
    OccursChars(s, lo + i, lit);
  }

  /** An occurrence of `lit` lying inside `s[lo..hi]` is an occurrence in that slice. */
  lemma OccursWithin(s: string, lo: nat, hi: nat, i: int, lit: string)
    requires lo <= i && i + |lit| <= hi <= |s|
    requires Occurs(s, i, lit)
    ensures Occurs(s[lo..hi], i - lo, lit)
  {
    OccursChars(s, i, lit);
    forall k | 0 <= k < |lit|
      ensures s[lo..hi][i - lo + k] == lit[k]
    {
      assert s[i + k] == lit[k];
    }
    OccursChars(s[lo..hi], i - lo, lit);
  }

  /** An occurrence of `lit` lying inside the left part of `x + y` is one in `x`. */
  lemma OccursInLeft(x: string, y: string, i: int, lit: string)
    requires Occurs(x + y, i, lit) && i + |lit| <= |x|
    ensures Occurs(x, i, lit)
  {
    OccursChars(x + y, i, lit);
    forall k | 0 <= k < |lit|
      ensures x[i + k] == lit[k]
    {
      assert (x + y)[i + k] == lit[k];
    }
    OccursChars(x, i, lit);
  }

  /** An occurrence of `lit` starting inside the right part of `x + y` is one in `y`. */
  lemma OccursInRight(x: string, y: string, i: int, lit: string)
    requires Occurs(x + y, i, lit) && |x| <= i
    ensures Occurs(y, i - |x|, lit)
  {
    OccursChars(x + y, i, lit);
    forall k | 0 <= k < |lit|
      ensures y[i - |x| + k] == lit[k]
    {
      assert (x + y)[i + k] == lit[k];
    }
    OccursChars(y, i - |x|, lit);
  }

  /** An occurrence in `s` is one in `x + s`, shifted by `|x|`. */
  lemma OccursShift(x: string, s: string, i: int, lit: string)
    requires Occurs(s, i, lit)
    ensures Occurs(x + s, |x| + i, lit)
  {
    OccursChars(s, i, lit);
    forall k | 0 <= k < |lit|
      ensures (x + s)[|x| + i + k] == lit[k]
    {
      assert s[i + k] == lit[k];
    }
    OccursChars(x + s, |x| + i, lit);
  }

  /** An occurrence in `s` is one in `s + y`. */
  lemma OccursExtend(s: string, y: string, i: int, lit: string)
    requires Occurs(s, i, lit)
    ensures Occurs(s + y, i, lit)
  {
    OccursChars(s, i, lit);
    forall k | 0 <= k < |lit|
      ensures (s + y)[i + k] == lit[k]
    {
      assert s[i + k] == lit[k];
    }
    OccursChars(s + y, i, lit);
  }

  /** Every string stands in itself at 0. */
  lemma OccursSelf(lit: string)
    ensures Occurs(lit, 0, lit)
  {
    OccursChars(lit, 0, lit);
  }

  /** An occurrence of `lit` starting before `hi` and reaching past it would put
      `s[hi]` inside `lit` after its first character. */
  lemma NotAcross(s: string, i: int, hi: nat, lit: string)
    requires 0 <= i < hi < |s| && hi < i + |lit|
    requires forall k :: 1 <= k < |lit| ==> lit[k] != s[hi]
    ensures !Occurs(s, i, lit)
  {
    OccursChars(s, i, lit);
    if i + |lit| <= |s| {
      assert lit[hi - i] != s[hi];
    }
  }

  /** A string without the first character of `lit` cannot contain `lit`. */
  lemma NoFirstCharNoOccurrence(s: string, lit: string)
    requires |lit| > 0 && lit[0] !in s
    ensures !Contains(s, lit)
  {
    forall i | 0 <= i <= |s|
      ensures !Occurs(s, i, lit)
    {
      if i < |s| {
        assert s[i] in s;
      }
    }
  }

  /** ASCII case folding; every other character is left as it is. */
  function LowerChar(c: char): char {
    if 'A' <= c <= 'Z' then (c as int + 32) as char else c
  }

  /** `toLowerCase`, restricted to ASCII letters. */
  function Lower(s: string): (r: string)
    ensures |r| == |s|
  {
    seq(|s|, k requires 0 <= k < |s| => LowerChar(s[k]))
  }

  /** `a.toLowerCase() === b.toLowerCase()`. */
  predicate SameIgnoringCase(a: string, b: string) {
    Lower(a) == Lower(b)
  }

  /** `parts.join(sep)`: `""` for no parts, no separator after the last part. */
  function Join(parts: seq<string>, sep: string): (r: string)
  {
    if |parts| == 0 then ""
    else if |parts| == 1 then parts[0]
    else parts[0] + sep + Join(parts[1..], sep)
  }

  /** The joined text begins with the first part and ends with the last one: the
      separator goes only between parts. */
  lemma {:induction false} JoinEnds(parts: seq<string>, sep: string)
    requires |parts| > 0
    ensures var r := Join(parts, sep);
      && |r| >= |parts[0]| && |r| >= |parts[|parts| - 1]|
      && r[..|parts[0]|] == parts[0]
      && r[|r| - |parts[|parts| - 1]|..] == parts[|parts| - 1]
  {
    if |parts| > 1 {
      JoinEnds(parts[1..], sep);
      var rest := Join(parts[1..], sep);
      var last := parts[|parts| - 1];
      assert parts[1..][|parts| - 2] == last;
      var r := parts[0] + sep + rest;
      assert r[..|parts[0]|] == parts[0];
      assert r[|r| - |last|..] == rest[|rest| - |last|..];
    }
  }

  /** A character that is in no part and not in the separator is not in the joined text. */
  lemma {:induction false} JoinAvoids(parts: seq<string>, sep: string, c: char)
    requires forall k :: 0 <= k < |parts| ==> c !in parts[k]
    requires c !in sep
    ensures c !in Join(parts, sep)
  {
    if |parts| > 1 {
      JoinAvoids(parts[1..], sep, c);
    }
  }

  /** Index of the first `c` in `s`. */
  function IndexOf(s: string, c: char): (i: nat)
    requires c in s
    ensures i < |s| && s[i] == c
    ensures forall k :: 0 <= k < i ==> s[k] != c
  {
    if s[0] == c then 0
    else
      assert c in s[1..] by { var k :| 0 <= k < |s| && s[k] == c; assert s[1..][k - 1] == c; }
      var i := 1 + IndexOf(s[1..], c);
      assert forall k :: 1 <= k < i ==> s[k] == s[1..][k - 1];
      i
  }

  /** `s.split(sep)` for a one-character separator: the pieces between separators. */
  function Split(s: string, sep: char): (r: seq<string>)
    ensures |r| > 0
    ensures forall k :: 0 <= k < |r| ==> sep !in r[k]
    decreases |s|
  {
    if sep !in s then [s]
    else
      var i := IndexOf(s, sep);
      [s[..i]] + Split(s[i + 1..], sep)
  }

  /** The first `c` in `s` is at `i` when `s[i]` is `c` and no `c` comes before it. */
  lemma {:induction false} IndexOfAt(s: string, c: char, i: nat)
    requires i < |s| && s[i] == c
    requires forall k :: 0 <= k < i ==> s[k] != c
    ensures IndexOf(s, c) == i
  {
    if i > 0 {
      assert s[1..][i - 1] == c;
      assert forall k :: 0 <= k < i - 1 ==> s[1..][k] == s[k + 1];
      IndexOfAt(s[1..], c, i - 1);
    }
  }

  /** Joining with a one-character separator and splitting on it gives the parts back,
      provided no part contains the separator. */
  lemma {:induction false} SplitJoin(parts: seq<string>, sep: char)
    requires |parts| > 0
    requires forall k :: 0 <= k < |parts| ==> sep !in parts[k]
    ensures Split(Join(parts, [sep]), sep) == parts
  {
    if |parts| > 1 {
      var first, rest := parts[0], Join(parts[1..], [sep]);
      var s := first + [sep] + rest;
      assert Join(parts, [sep]) == s;
      forall k | 0 <= k < |first|
        ensures s[k] != sep
      {
        assert s[k] == first[k];
      }
      IndexOfAt(s, sep, |first|);
      assert s[..|first|] == first && s[|first| + 1..] == rest;
      assert Split(s, sep) == [first] + Split(rest, sep);
      forall k | 0 <= k < |parts| - 1
        ensures sep !in parts[1..][k]
      {
        assert parts[1..][k] == parts[k + 1];
      }
      SplitJoin(parts[1..], sep);
      assert parts == [first] + parts[1..];
    }
  }
}
