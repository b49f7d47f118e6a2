/**
 * The pieces of Python's string handling the chat analysis relies on:
 * whitespace as `str.isspace` (and the regex `\s`) sees it, `str.strip()`,
 * `str.split()` with no separator, `str.lower()` and the `in` substring test.
 */
module Text {

  /** Python's `str.isspace()`; `\s`, `strip()` and `split()` use the same set. */
  predicate IsSpace(c: char) {
    var n := c as int;
    (9 <= n <= 13) || (28 <= n <= 32) || n == 0x85 || n == 0xA0 || n == 0x1680
    || (0x2000 <= n <= 0x200A) || n == 0x2028 || n == 0x2029 || n == 0x202F
    || n == 0x205F || n == 0x3000
  }

  predicate IsNotSpace(c: char) { !IsSpace(c) }

  /** The regex class `\d`, restricted to the ASCII digits. */
  predicate IsDigit(c: char) { '0' <= c <= '9' }

  predicate NoSpace(s: string) { forall k | 0 <= k < |s| :: !IsSpace(s[k]) }

  predicate AllSpace(s: string) { forall k | 0 <= k < |s| :: IsSpace(s[k]) }

  /** Length of the longest run of characters satisfying `p` that starts at `i`. */
  function RunLength(s: string, i: nat, p: char -> bool): (n: nat)
    requires i <= |s|
    ensures i + n <= |s|
    ensures forall k | i <= k < i + n :: p(s[k])
    ensures i + n == |s| || !p(s[i + n])
    decreases |s| - i
  {
    if i == |s| || !p(s[i]) then 0 else 1 + RunLength(s, i + 1, p)
  }

  /** Length of the longest run of characters satisfying `p` that ends just before `j`. */
  function RunBackLength(s: string, j: nat, p: char -> bool): (n: nat)
    requires j <= |s|
    ensures n <= j
    ensures forall k | j - n <= k < j :: p(s[k])
    ensures n == j || !p(s[j - n - 1])
  {
    if j == 0 || !p(s[j - 1]) then 0 else 1 + RunBackLength(s, j - 1, p)
  }

  /** A maximal run is determined by where it starts: any run with the same
      three properties has the same length. */
  lemma {:induction false} RunLengthUnique(s: string, i: nat, p: char -> bool, n: nat)
    requires i + n <= |s|
    requires forall k | i <= k < i + n :: p(s[k])
    requires i + n == |s| || !p(s[i + n])
    ensures RunLength(s, i, p) == n
    decreases n
  {
    if n > 0 {
      RunLengthUnique(s, i + 1, p, n - 1);
    }
  }

  /** `str.strip()`: the input without its leading and trailing whitespace. */
  function Strip(s: string): (r: string)
    ensures StripStart(s) + |r| <= |s|
    ensures r == s[StripStart(s)..StripStart(s) + |r|]
    ensures forall k | 0 <= k < |s| && !(StripStart(s) <= k < StripStart(s) + |r|) :: IsSpace(s[k])
    ensures r != [] ==> !IsSpace(r[0]) && !IsSpace(r[|r| - 1])
    ensures r == [] <==> AllSpace(s)
  {
    var a := StripStart(s);
    if a == |s| then []
    else
      var t := RunBackLength(s, |s|, IsSpace);
      assert !IsSpace(s[a]);
      s[a..|s| - t]
  }

  /** Where the stripped text begins: the number of leading whitespace characters. */
  function StripStart(s: string): (a: nat)
    ensures a <= |s|
  {
    RunLength(s, 0, IsSpace)
  }

  /** A string that has no whitespace at its ends is its own strip. */
  lemma StripTrimmed(s: string)
    requires s != [] ==> !IsSpace(s[0]) && !IsSpace(s[|s| - 1])
    ensures Strip(s) == s
  {
    if s != [] {
      RunLengthUnique(s, 0, IsSpace, 0);
      assert RunBackLength(s, |s|, IsSpace) == 0;
    }
  }

  /** Stripping twice is stripping once. */
  lemma StripIdempotent(s: string)
    ensures Strip(Strip(s)) == Strip(s)
  {
    StripTrimmed(Strip(s));
  }

  /** `s` with its whitespace characters deleted. */
  function RemoveSpaces(s: string): (r: string)
    ensures |r| <= |s|
  {
    if s == [] then []
    else (if IsSpace(s[0]) then [] else [s[0]]) + RemoveSpaces(s[1..])
  }

  lemma {:induction false} RemoveSpacesAppend(a: string, b: string)
    ensures RemoveSpaces(a + b) == RemoveSpaces(a) + RemoveSpaces(b)
  {
    if a == [] {
      assert a + b == b;
    } else {
      var head := if IsSpace(a[0]) then [] else [a[0]];
      assert (a + b)[0] == a[0];
      assert (a + b)[1..] == a[1..] + b;
      RemoveSpacesAppend(a[1..], b);
      calc {
        RemoveSpaces(a + b);
        head + RemoveSpaces(a[1..] + b);
        head + (RemoveSpaces(a[1..]) + RemoveSpaces(b));
        (head + RemoveSpaces(a[1..])) + RemoveSpaces(b);
      }
    }
  }

  lemma {:induction false} RemoveSpacesOfWord(w: string)
    requires NoSpace(w)
    ensures RemoveSpaces(w) == w
  {
    if w != [] {
      RemoveSpacesOfWord(w[1..]);
    }
  }

  /** Concatenation of a sequence of strings. */
  function Concat(ts: seq<string>): string {
    if ts == [] then [] else ts[0] + Concat(ts[1..])
  }

  /**
   * `str.split()` with no separator: the maximal runs of non-whitespace
   * characters, in order. Every token is non-empty and free of whitespace,
   * and together they spell out the input minus its whitespace.
   */
  function Tokens(s: string): (ts: seq<string>)
    ensures forall t | t in ts :: t != [] && NoSpace(t)
    ensures Concat(ts) == RemoveSpaces(s)
    decreases |s|
  {
    if s == [] then []
    else if IsSpace(s[0]) then
      assert s == [s[0]] + s[1..];
      RemoveSpacesAppend([s[0]], s[1..]);
      Tokens(s[1..])
    else
      var n := RunLength(s, 0, IsNotSpace);
      var rest := Tokens(s[n..]);
      assert s == s[..n] + s[n..];
      RemoveSpacesAppend(s[..n], s[n..]);
      RemoveSpacesOfWord(s[..n]);
      assert ([s[..n]] + rest)[1..] == rest;
      [s[..n]] + rest
  }

  /** A whitespace-free, non-empty string is one token. */
  lemma TokensOfWord(w: string)
    requires w != [] && NoSpace(w)
    ensures Tokens(w) == [w]
  {
    RunLengthUnique(w, 0, IsNotSpace, |w|);
    assert w[..|w|] == w && w[|w|..] == [];
  }

  /** A whitespace character splits the input into two independent halves; with
      `TokensOfWord` and `Tokens([]) == []` this fixes every token boundary. */
  lemma {:induction false} TokensSplitAtSpace(a: string, c: char, b: string)
    requires IsSpace(c)
    ensures Tokens(a + [c] + b) == Tokens(a) + Tokens(b)
    decreases |a|
  {
    var s := a + [c] + b;
    if a == [] {
      assert s == [c] + b && s[1..] == b;
    } else if IsSpace(a[0]) {
      assert s[1..] == a[1..] + [c] + b;
      TokensSplitAtSpace(a[1..], c, b);
    } else {
      var n := RunLength(a, 0, IsNotSpace);
      assert forall k | 0 <= k < n :: s[k] == a[k];
      assert n < |a| ==> s[n] == a[n];
      assert n == |a| ==> s[n] == c;
      RunLengthUnique(s, 0, IsNotSpace, n);
      assert s[..n] == a[..n];
      assert s[n..] == a[n..] + [c] + b;
      TokensSplitAtSpace(a[n..], c, b);
    }
  }

  /** `"ab cd".split()` is `["ab", "cd"]`: the split falls at the space and nowhere else. */
  lemma ExampleSplit()
    ensures Tokens("ab cd") == ["ab", "cd"]
  {
    var s, a, b := "ab cd", "ab", "cd";
    assert s == a + [' '] + b;
    assert NoSpace(a) && NoSpace(b) by {
      assert a[0] == 'a' && a[1] == 'b' && b[0] == 'c' && b[1] == 'd';
    }
    TokensSplitAtSpace(a, ' ', b);
    TokensOfWord(a);
    TokensOfWord(b);
  }

  /** `split()` yields nothing exactly for an all-whitespace string. */
  lemma {:induction false} TokensEmpty(s: string)
    ensures Tokens(s) == [] <==> AllSpace(s)
    decreases |s|
  {
    if s != [] && IsSpace(s[0]) {
      TokensEmpty(s[1..]);
      assert AllSpace(s[1..]) ==> AllSpace(s) by {
        if AllSpace(s[1..]) {
          assert forall k | 1 <= k < |s| :: s[k] == s[1..][k - 1];
        }
      }
    }
  }

  /**
   * Counting words another way, one character at a time: a word begins at every
   * non-whitespace character that is first or follows whitespace.
   */
  function WordStarts(s: string, afterSpace: bool): nat {
    if s == [] then 0
    else (if afterSpace && !IsSpace(s[0]) then 1 else 0) + WordStarts(s[1..], IsSpace(s[0]))
  }

  lemma {:induction false} WordStartsInsideWord(s: string, k: nat, n: nat)
    requires 1 <= k <= n <= |s|
    requires forall j | 0 <= j < n :: !IsSpace(s[j])
    requires n == |s| || IsSpace(s[n])
    ensures WordStarts(s[k..], false) == WordStarts(s[n..], true)
    decreases n - k
  {
    if k < n {
      assert s[k..][1..] == s[k + 1..];
      WordStartsInsideWord(s, k + 1, n);
    } else if n < |s| {
      assert s[n..][1..] == s[n + 1..];
    }
  }

  /** The number of tokens `split()` yields is the number of word starts. */
  lemma {:induction false} TokenCountIsWordStarts(s: string)
    ensures |Tokens(s)| == WordStarts(s, true)
    decreases |s|
  {
    if s == [] {
    } else if IsSpace(s[0]) {
      TokenCountIsWordStarts(s[1..]);
    } else {
      var n := RunLength(s, 0, IsNotSpace);
      TokenCountIsWordStarts(s[n..]);
      WordStartsInsideWord(s, 1, n);
    }
  }

  /** `str.lower()` on one character, as far as it can reach an ASCII letter:
      A-Z, and the KELVIN SIGN, which Python lowers to `k`. */
  function LowerChar(c: char): (d: char)
    ensures 'a' <= d <= 'z' ==> ('A' <= c <= 'Z' && d as int == c as int + 32) || c == d || c == 'K'
  {
    if 'A' <= c <= 'Z' then (c as int + 32) as char
    else if c == 'K' then 'k'
    else c
  }

  function Lower(s: string): (r: string)
    ensures |r| == |s|
    ensures forall k | 0 <= k < |s| :: r[k] == LowerChar(s[k])
  {
    if s == [] then [] else [LowerChar(s[0])] + Lower(s[1..])
  }

  /** `p` occurs at position `i` of `s`. */
  predicate OccursAt(s: string, i: nat, p: string) {
    i + |p| <= |s| && s[i..i + |p|] == p
  }

  /** Python's `p in s`. */
  predicate Contains(s: string, p: string) {
    exists i | 0 <= i <= |s| :: OccursAt(s, i, p)
  }
}
