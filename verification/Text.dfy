/** String helpers used by the rule steps and by the error messages: the `fmt`
    truncation, decimal rendering of counts, joining, and the splitting, quote
    stripping and lower-casing applied to the value list of a file-level check. */
module Text {

  /** Longest rendering `fmt` leaves untouched. */
  const MaxShown := 35

  /** `fmt(x)` for anything that is not an edge: `str(x)` is kept when it has at most 35
      characters; a longer one is cut to its first 25 and last 7 characters around "...". */
  function Fmt(v: string): (r: string)
    ensures |r| <= MaxShown
    ensures |v| <= MaxShown ==> r == v
    ensures |v| > MaxShown ==> |r| == MaxShown && r[..25] == v[..25] && r[25..28] == "..." &&
                               r[28..] == v[|v| - 7..]
  {
    if |v| > MaxShown then v[..25] + "..." + v[|v| - 7..] else v
  }

  /** Shortening is done once: a shortened rendering is short enough to be kept. */
  lemma FmtIdempotent(v: string)
    ensures Fmt(Fmt(v)) == Fmt(v)
  {
  }

  function DigitChar(d: nat): (c: char)
    requires d < 10
    ensures '0' <= c <= '9' && c as int - '0' as int == d
  {
    ('0' as int + d) as char
  }

  /** The number a string of decimal digits denotes, most significant digit first. */
  function DigitsValue(s: string): nat
    requires forall i :: 0 <= i < |s| ==> '0' <= s[i] <= '9'
  {
    if s == [] then 0 else 10 * DigitsValue(s[..|s| - 1]) + (s[|s| - 1] as int - '0' as int)
  }

  /** `str(n)` for a natural number: the decimal digits of `n`, with no leading zero. */
  function NatToString(n: nat): (r: string)
    ensures |r| >= 1
    ensures forall i :: 0 <= i < |r| ==> '0' <= r[i] <= '9'
    ensures DigitsValue(r) == n
    ensures |r| > 1 ==> r[0] != '0'
  {
    if n < 10 then [DigitChar(n)]
    else
      var front := NatToString(n / 10);
      var r := front + [DigitChar(n % 10)];
      assert r[..|r| - 1] == front;
      r
  }

  /** `sep.join(parts)`. */
  function Join(sep: string, parts: seq<string>): (r: string)
    ensures |parts| == 1 ==> r == parts[0]
  {
    if parts == [] then "" else if |parts| == 1 then parts[0] else parts[0] + sep + Join(sep, parts[1..])
  }

  /** `sep` occurs in `s` starting at position `i`. */
  predicate OccursAt(s: string, sep: string, i: nat)
  {
    i + |sep| <= |s| && s[i..i + |sep|] == sep
  }

  ghost predicate Contains(s: string, sep: string)
  {
    exists i: nat :: OccursAt(s, sep, i)
  }

  /** Position of the first occurrence of `sep` at or after `i`, or `|s|` when there is none. */
  function FindFrom(s: string, sep: string, i: nat): (k: nat)
    requires |sep| > 0 && i <= |s|
    ensures i <= k <= |s|
    ensures k < |s| ==> OccursAt(s, sep, k)
    ensures forall j: nat :: i <= j < k ==> !OccursAt(s, sep, j)
    decreases |s| - i
  {
    if i + |sep| > |s| then |s|
    else if s[i..i + |sep|] == sep then i
    else FindFrom(s, sep, i + 1)
  }

  /** `s.split(sep)`: the pieces between the leftmost non-overlapping occurrences of `sep`.
      No piece contains the separator. */
  function Split(s: string, sep: string): (parts: seq<string>)
    requires |sep| > 0
    ensures |parts| >= 1
    ensures forall p :: p in parts ==> !Contains(p, sep)
    decreases |s|
  {
    var k := FindFrom(s, sep, 0);
    assert s[..k] + s[k..] == s;
    PrefixFree(s[..k], s[k..], sep);
    if k == |s| then [s]
    else [s[..k]] + Split(s[k + |sep|..], sep)
  }

  /** A prefix `a` contains the separator when the whole text has an occurrence of it
      starting inside `a`; so with none there, `a` has none. */
  lemma PrefixFree(a: string, rest: string, sep: string)
    requires |sep| > 0
    requires forall j: nat :: j < |a| ==> !OccursAt(a + rest, sep, j)
    ensures !Contains(a, sep)
  {
    forall j: nat
      ensures !OccursAt(a, sep, j)
    {
      if j + |sep| <= |a| {
        assert !OccursAt(a + rest, sep, j);
        assert (a + rest)[j..j + |sep|] == a[j..j + |sep|];
      }
    }
  }

  /** Splitting loses nothing: joining the pieces with the separator gives the text back. */
  lemma {:induction false} JoinSplit(s: string, sep: string)
    requires |sep| > 0
    ensures Join(sep, Split(s, sep)) == s
    decreases |s|
  {
    var k := FindFrom(s, sep, 0);
    if k == |s| {
      assert Split(s, sep) == [s];
    } else {
      var rest := s[k + |sep|..];
      assert Split(s, sep) == [s[..k]] + Split(rest, sep);
      JoinSplit(rest, sep);
      JoinCons(sep, s[..k], Split(rest, sep));
      assert s[k..k + |sep|] == sep;
      assert s == s[..k] + s[k..k + |sep|] + rest;
    }
  }

  lemma JoinCons(sep: string, p: string, tail: seq<string>)
    requires |tail| >= 1
    ensures Join(sep, [p] + tail) == p + sep + Join(sep, tail)
  {
    assert ([p] + tail)[1..] == tail;
  }

  /** The end of the run of `c` that starts at `k`: the first index from `k` on that does
      not hold `c`, or `|s|`. */
  function RunEnd(s: string, c: char, k: nat): (n: nat)
    requires k <= |s|
    ensures k <= n <= |s|
    ensures forall j :: k <= j < n ==> s[j] == c
    ensures n == |s| || s[n] != c
    decreases |s| - k
  {
    if k < |s| && s[k] == c then RunEnd(s, c, k + 1) else k
  }

  /** The start of the run of `c` that ends at `n`: the smallest index from which up to `n`
      every character is `c`. */
  function RunStart(s: string, c: char, n: nat): (k: nat)
    requires n <= |s|
    ensures k <= n
    ensures forall j :: k <= j < n ==> s[j] == c
    ensures k == 0 || s[k - 1] != c
  {
    if n > 0 && s[n - 1] == c then RunStart(s, c, n - 1) else n
  }

  /** Everything of `s` outside the slice of length `n` at `i` is a copy of `c`. */
  predicate OnlyAround(s: string, c: char, i: nat, n: nat)
  {
    i + n <= |s| && (forall j :: 0 <= j < i ==> s[j] == c) && (forall j :: i + n <= j < |s| ==> s[j] == c)
  }

  /** `s.strip(c)`: the slice of `s` that starts after its leading run of `c`; it neither
      starts nor ends with `c`, and everything around it is a copy of `c`. */
  function Strip(s: string, c: char): (r: string)
    ensures |r| <= |s|
    ensures r == [] || (r[0] != c && r[|r| - 1] != c)
    ensures var i := RunEnd(s, c, 0);
            i + |r| <= |s| && r == s[i..i + |r|] && OnlyAround(s, c, i, |r|)
  {
    var i := RunEnd(s, c, 0);
    if i == |s| then []
    else
      var e := RunStart(s, c, |s|);
      assert i < e;
      s[i..e]
  }

  /** The slice `s[i..i + n]` with only copies of `c` around it, and not starting or ending
      with `c`, is what stripping `c` leaves. */
  lemma StripExact(s: string, c: char, i: nat, n: nat)
    requires OnlyAround(s, c, i, n)
    requires n == 0 || (s[i] != c && s[i + n - 1] != c)
    ensures Strip(s, c) == s[i..i + n]
  {
  }

  /** `c.lower()` for an ASCII character: an upper-case letter becomes the lower-case letter
      32 code points further on; every other character is kept. */
  function LowerChar(ch: char): (r: char)
    ensures !('A' <= r <= 'Z')
    ensures !('A' <= ch <= 'Z') ==> r == ch
    ensures 'A' <= ch <= 'Z' ==> 'a' <= r <= 'z' && r as int == ch as int + 32
  {
    if 'A' <= ch <= 'Z' then (ch as int - 'A' as int + 'a' as int) as char else ch
  }

  /** `s.lower()` on ASCII letters: same length, every upper-case letter turned into its
      lower-case letter, every other character kept. */
  function Lower(s: string): (r: string)
    ensures |r| == |s|
    ensures forall i :: 0 <= i < |r| ==> !('A' <= r[i] <= 'Z')
    ensures forall i :: 0 <= i < |r| ==> (!('A' <= s[i] <= 'Z') ==> r[i] == s[i])
    ensures forall i :: 0 <= i < |r| ==> ('A' <= s[i] <= 'Z' ==> 'a' <= r[i] <= 'z' && r[i] as int == s[i] as int + 32)
  {
    seq(|s|, i requires 0 <= i < |s| => LowerChar(s[i]))
  }

  /** `v` is, character by character, the lower-cased slice of `s` starting at `i`. */
  predicate LowerOfSlice(v: string, s: string, i: nat)
  {
    i + |v| <= |s| && forall k :: 0 <= k < |v| ==> v[k] == LowerChar(s[i + k])
  }

  /** Lower-casing what `Strip` leaves lower-cases, character by character, the slice it
      took, and everything cut off around that slice is a copy of `c`. */
  lemma LowerStrip(s: string, c: char)
    ensures var i := RunEnd(s, c, 0);
            LowerOfSlice(Lower(Strip(s, c)), s, i) && OnlyAround(s, c, i, |Lower(Strip(s, c))|)
  {
  }

  /** Lower-casing twice is lower-casing once. */
  lemma LowerIdempotent(s: string)
    ensures Lower(Lower(s)) == Lower(s)
  {
  }
}
