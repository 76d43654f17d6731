/**
 * The Python string primitives the core relies on (`strip`, `split`, `join`,
 * `rstrip(chars)`, `startswith`, `endswith`, slicing and `str(int)`), over
 * strings of Unicode code points, as Python 3 counts them.
 */
module Text {

  /** Python's `str.isspace()` for one character: the set `strip()` and `split()` remove. */
  predicate IsSpace(c: char) {
    || c == ' '
    || '\t' <= c <= '\r'
    || '\U{1C}' <= c <= '\U{1F}'
    || c == '\U{85}' || c == '\U{A0}' || c == '\U{1680}'
    || '\U{2000}' <= c <= '\U{200A}'
    || c == '\U{2028}' || c == '\U{2029}' || c == '\U{202F}' || c == '\U{205F}' || c == '\U{3000}'
  }

  predicate AllSpace(s: string) {
    forall k :: 0 <= k < |s| ==> IsSpace(s[k])
  }

  predicate NoSpace(s: string) {
    forall k :: 0 <= k < |s| ==> !IsSpace(s[k])
  }

  /** Python's `s.startswith(prefix)`. */
  predicate StartsWith(s: string, prefix: string) {
    |prefix| <= |s| && s[..|prefix|] == prefix
  }

  /**
   * The same test as `StartsWith`, by recursion on the prefix, so that a
   * literal prefix is compared one character at a time.
   */
  predicate HasPrefix(s: string, prefix: string)
    decreases |prefix|
  {
    prefix == [] || (s != [] && s[0] == prefix[0] && HasPrefix(s[1..], prefix[1..]))
  }

  lemma {:induction false} HasPrefixIsStartsWith(s: string, prefix: string)
    ensures HasPrefix(s, prefix) <==> StartsWith(s, prefix)
    decreases |prefix|
  {
    if prefix != [] && s != [] {
      HasPrefixIsStartsWith(s[1..], prefix[1..]);
      if |prefix| <= |s| {
        assert s[..|prefix|] == [s[0]] + s[1..][..|prefix| - 1];
        assert prefix == [prefix[0]] + prefix[1..];
      }
    }
  }

  /** A character that does not occur in `prefix` can be dropped from the end without losing the prefix. */
  lemma {:induction false} HasPrefixDropLast(s: string, c: char, prefix: string)
    requires c !in prefix
    ensures HasPrefix(s + [c], prefix) ==> HasPrefix(s, prefix)
    decreases |prefix|
  {
    if prefix != [] && HasPrefix(s + [c], prefix) {
      assert prefix[0] in prefix;
      assert s != [];
      assert (s + [c])[1..] == s[1..] + [c];
      assert c !in prefix[1..];
      HasPrefixDropLast(s[1..], c, prefix[1..]);
    }
  }

  /** Python's `s.endswith(suffix)`. */
  predicate EndsWith(s: string, suffix: string) {
    |suffix| <= |s| && s[|s| - |suffix|..] == suffix
  }

  /** How many whitespace characters `s` starts with. */
  function LeadingSpace(s: string): (n: nat)
    ensures n <= |s|
    ensures forall k :: 0 <= k < n ==> IsSpace(s[k])
    ensures n < |s| ==> !IsSpace(s[n])
    decreases |s|
  {
    if s != [] && IsSpace(s[0]) then 1 + LeadingSpace(s[1..]) else 0
  }

  /** How many whitespace characters `s` ends with. */
  function TrailingSpace(s: string): (n: nat)
    ensures n <= |s|
    ensures forall k :: |s| - n <= k < |s| ==> IsSpace(s[k])
    ensures n < |s| ==> !IsSpace(s[|s| - 1 - n])
    decreases |s|
  {
    if s != [] && IsSpace(s[|s| - 1]) then 1 + TrailingSpace(s[..|s| - 1]) else 0
  }

  /** Python's `s.strip()`: the middle of `s` between leading and trailing whitespace. */
  function Strip(s: string): (r: string)
    ensures |r| <= |s|
    ensures r == [] <==> AllSpace(s)
    ensures r != [] ==> !IsSpace(r[0]) && !IsSpace(r[|r| - 1])
    ensures r != [] ==> r == s[LeadingSpace(s)..|s| - TrailingSpace(s)]
  {
    var i := LeadingSpace(s);
    if i == |s| then
      []
    else
      assert !IsSpace(s[i]);
      s[i..|s| - TrailingSpace(s)]
  }

  /** A string without whitespace at either end is its own `strip()`. */
  lemma StripUnchanged(s: string)
    requires s != [] ==> !IsSpace(s[0]) && !IsSpace(s[|s| - 1])
    ensures Strip(s) == s
  {
    if s != [] {
      assert LeadingSpace(s) == 0;
      assert TrailingSpace(s) == 0;
    }
  }

  /**
   * Python's `s.rstrip(chars)`: drops every trailing character that occurs
   * ANYWHERE in `chars`, not one trailing copy of `chars`.
   */
  function RStripChars(s: string, chars: string): (r: string)
    ensures |r| <= |s| && r == s[..|r|]
    ensures forall k :: |r| <= k < |s| ==> s[k] in chars
    ensures r != [] ==> r[|r| - 1] !in chars
    decreases |s|
  {
    if s != [] && s[|s| - 1] in chars then RStripChars(s[..|s| - 1], chars) else s
  }

  /** Python's `sep.join(parts)`. */
  function Join(parts: seq<string>, sep: string): string
    decreases |parts|
  {
    if |parts| == 0 then ""
    else if |parts| == 1 then parts[0]
    else parts[0] + sep + Join(parts[1..], sep)
  }

  /** Position of the first occurrence of `c` in `s`. */
  function IndexOf(s: string, c: char): (i: nat)
    requires c in s
    ensures i < |s| && s[i] == c && c !in s[..i]
  {
    if s[0] == c then 0
    else
      var i := 1 + IndexOf(s[1..], c);
      assert s[..i] == [s[0]] + s[1..][..i - 1];
      i
  }

  /**
   * Python's `s.split(sep)` for a one-character separator: the pieces between
   * separators, empty ones included, so that joining them back gives `s`.
   */
  function SplitOn(s: string, sep: char): (r: seq<string>)
    ensures |r| >= 1
    ensures forall i :: 0 <= i < |r| ==> sep !in r[i]
    ensures Join(r, [sep]) == s
    decreases |s|
  {
    if sep !in s then [s]
    else
      var i := IndexOf(s, sep);
      var rest := SplitOn(s[i + 1..], sep);
      assert s == s[..i] + [sep] + s[i + 1..];
      [s[..i]] + rest
  }

  /** In `a + [c] + b`, the first `c` is the one after `a` when `a` has none. */
  lemma IndexOfFirst(a: string, c: char, b: string)
    requires c !in a
    ensures IndexOf(a + [c] + b, c) == |a|
  {
    var s := a + [c] + b;
    var i := IndexOf(s, c);
    assert s[|a|] == c;
    assert forall k :: 0 <= k < i ==> s[k] != c by {
      forall k | 0 <= k < i ensures s[k] != c {
        assert s[..i][k] == s[k];
      }
    }
    assert forall k :: 0 <= k < |a| ==> s[k] == a[k];
  }

  /** `split(sep)` undoes `sep.join(parts)` when no part holds the separator. */
  lemma {:induction false} SplitOnJoin(parts: seq<string>, sep: char)
    requires |parts| >= 1
    requires forall i :: 0 <= i < |parts| ==> sep !in parts[i]
    ensures SplitOn(Join(parts, [sep]), sep) == parts
    decreases |parts|
  {
    if |parts| > 1 {
      var rest := Join(parts[1..], [sep]);
      var s := parts[0] + [sep] + rest;
      assert Join(parts, [sep]) == s;
      IndexOfFirst(parts[0], sep, rest);
      assert s[..|parts[0]|] == parts[0];
      assert s[|parts[0]| + 1..] == rest;
      assert forall i :: 0 <= i < |parts[1..]| ==> parts[1..][i] == parts[i + 1];
      SplitOnJoin(parts[1..], sep);
      assert parts == [parts[0]] + parts[1..];
    }
  }

  /** Length of the run of non-whitespace characters that starts `s`. */
  function WordLength(s: string): (n: nat)
    requires s != [] && !IsSpace(s[0])
    ensures 1 <= n <= |s|
    ensures NoSpace(s[..n])
    ensures n == |s| || IsSpace(s[n])
    decreases |s|
  {
    if |s| == 1 || IsSpace(s[1]) then 1
    else
      var n := 1 + WordLength(s[1..]);
      assert s[..n] == [s[0]] + s[1..][..n - 1];
      n
  }

  /** Python's `s.split()` with no argument: the maximal runs of non-whitespace, in order. */
  function Words(s: string): (r: seq<string>)
    ensures forall i :: 0 <= i < |r| ==> r[i] != [] && NoSpace(r[i])
    ensures r == [] <==> AllSpace(s)
    ensures s != [] && NoSpace(s) ==> r == [s]
    decreases |s|
  {
    if s == [] then []
    else if IsSpace(s[0]) then
      var r := Words(s[1..]);
      assert AllSpace(s) <==> AllSpace(s[1..]) by {
        if AllSpace(s[1..]) {
          forall k | 0 <= k < |s| ensures IsSpace(s[k]) {
            if k > 0 { assert s[k] == s[1..][k - 1]; }
          }
        }
      }
      r
    else
      var n := WordLength(s);
      assert NoSpace(s) ==> n == |s| && s[..n] == s && s[n..] == [];
      [s[..n]] + Words(s[n..])
  }

  /** The first word of `x` ends where it did when `x + y` continues after that end. */
  lemma WordLengthAppend(x: string, y: string)
    requires x != [] && !IsSpace(x[0])
    requires WordLength(x) < |x| || (y != [] && IsSpace(y[0]))
    ensures WordLength(x + y) == WordLength(x)
  {
    var s := x + y;
    var n := WordLength(x);
    var m := WordLength(s);
    assert forall k :: 0 <= k < m ==> !IsSpace(s[k]) by {
      forall k | 0 <= k < m ensures !IsSpace(s[k]) {
        assert s[..m][k] == s[k];
      }
    }
    assert forall k :: 0 <= k < n ==> !IsSpace(s[k]) by {
      forall k | 0 <= k < n ensures !IsSpace(s[k]) {
        assert x[..n][k] == s[k];
      }
    }
    if n < |x| {
      assert IsSpace(s[n]);
    } else {
      assert s[n] == y[0];
    }
  }

  /** A whitespace character separates words: `split()` of `a + [c] + b` is the words of `a`, then those of `b`. */
  lemma {:induction false} WordsSplit(a: string, c: char, b: string)
    requires IsSpace(c)
    ensures Words(a + [c] + b) == Words(a) + Words(b)
    decreases |a|
  {
    var s := a + [c] + b;
    if a == [] {
      assert s[1..] == b;
      assert [] + Words(b) == Words(b);
    } else if IsSpace(a[0]) {
      assert s[1..] == a[1..] + [c] + b;
      WordsSplit(a[1..], c, b);
    } else {
      var n := WordLength(a);
      assert s == a + ([c] + b);
      WordLengthAppend(a, [c] + b);
      assert s[..n] == a[..n];
      assert s[n..] == a[n..] + [c] + b;
      WordsSplit(a[n..], c, b);
    }
  }

  /** `w` sits in `line` at `i`, at the start of the line or after whitespace, with only whitespace after it. */
  predicate IsLastWordAt(line: string, w: string, i: int) {
    && 0 <= i && i + |w| <= |line|
    && line[i..i + |w|] == w
    && AllSpace(line[i + |w|..])
    && (i == 0 || IsSpace(line[i - 1]))
  }

  /** A last word of `s[k..]` is one of `s` when it starts `s[k..]` after whitespace, or `s[k..]` itself starts after whitespace. */
  lemma ShiftLastWord(s: string, k: nat, t: string, w: string, i: nat)
    requires k <= |s| && t == s[k..] && IsLastWordAt(t, w, i)
    requires i > 0 || k == 0 || IsSpace(s[k - 1])
    ensures IsLastWordAt(s, w, k + i)
  {
    assert s[k + i..k + i + |w|] == t[i..i + |w|];
    assert s[k + i + |w|..] == t[i + |w|..];
    assert i > 0 ==> s[k + i - 1] == t[i - 1];
  }

  /** Leading whitespace yields no word. */
  lemma WordsAfterSpace(s: string)
    requires s != [] && IsSpace(s[0]) && !AllSpace(s)
    ensures Words(s) == Words(s[1..]) && !AllSpace(s[1..])
  {
    var k :| 0 <= k < |s| && !IsSpace(s[k]);
    assert s[1..][k - 1] == s[k];
  }

  /** A leading non-whitespace run is the first word. */
  lemma WordsAfterWord(s: string)
    requires s != [] && !IsSpace(s[0])
    ensures Words(s) == [s[..WordLength(s)]] + Words(s[WordLength(s)..])
  {
  }

  /** The last word of what follows the first word is the last word of the whole string. */
  lemma LastOfRest(s: string)
    requires s != [] && !IsSpace(s[0])
    requires Words(s[WordLength(s)..]) != []
    ensures Words(s) != []
    ensures Words(s)[|Words(s)| - 1] == Words(s[WordLength(s)..])[|Words(s[WordLength(s)..])| - 1]
  {
    WordsAfterWord(s);
  }

  /** A word found after a leading whitespace character is found one position later in the whole string. */
  lemma ShiftPastSpace(s: string, t: string, w: string, j: nat)
    requires s != [] && IsSpace(s[0]) && t == s[1..] && IsLastWordAt(t, w, j)
    ensures IsLastWordAt(s, w, j + 1)
  {
    ShiftLastWord(s, 1, t, w, j);
  }

  /** A word found after whitespace that follows position `n` is found `n` positions later in the whole string. */
  lemma ShiftPastWord(s: string, n: nat, t: string, w: string, j: nat)
    requires 0 < n < |s| && t == s[n..] && IsSpace(t[0])
    requires w != [] && NoSpace(w) && IsLastWordAt(t, w, j)
    ensures IsLastWordAt(s, w, n + j)
  {
    assert j > 0 by {
      assert w[0] == t[j..j + |w|][0];
    }
    ShiftLastWord(s, n, t, w, j);
  }

  /** A first word followed by whitespace only is the last word. */
  lemma OnlyWord(s: string)
    requires s != [] && !IsSpace(s[0]) && AllSpace(s[WordLength(s)..])
    ensures Words(s) != [] && IsLastWordAt(s, Words(s)[|Words(s)| - 1], 0)
  {
    var n := WordLength(s);
    WordsAfterWord(s);
    assert Words(s) == [s[..n]];
    assert s[0..0 + n] == s[..n];
  }

  /** The last word `w` that `split()` returns is the last whitespace-separated token of the string; `i` is where it starts. */
  lemma {:induction false} WordsLast(s: string, w: string) returns (i: nat)
    requires !AllSpace(s) && w == Words(s)[|Words(s)| - 1]
    ensures IsLastWordAt(s, w, i)
    decreases |s|, 1
  {
    if IsSpace(s[0]) {
      i := WordsLastAfterSpace(s, w);
    } else if AllSpace(s[WordLength(s)..]) {
      OnlyWord(s);
      i := 0;
    } else {
      i := WordsLastAfterWord(s, w);
    }
  }

  /** `WordsLast` for a string that starts with whitespace. */
  lemma {:induction false} WordsLastAfterSpace(s: string, w: string) returns (i: nat)
    requires s != [] && IsSpace(s[0]) && !AllSpace(s) && w == Words(s)[|Words(s)| - 1]
    ensures IsLastWordAt(s, w, i)
    decreases |s|, 0
  {
    WordsAfterSpace(s);
    var t := s[1..];
    var j := WordsLast(t, w);
    ShiftPastSpace(s, t, w, j);
    i := j + 1;
  }

  /** `WordsLast` for a string whose first word has more words after it. */
  lemma {:induction false} WordsLastAfterWord(s: string, w: string) returns (i: nat)
    requires s != [] && !IsSpace(s[0]) && !AllSpace(s[WordLength(s)..])
    requires w == Words(s)[|Words(s)| - 1]
    ensures IsLastWordAt(s, w, i)
    decreases |s|, 0
  {
    var n := WordLength(s);
    LastOfRest(s);
    var t := s[n..];
    var j := WordsLast(t, w);
    ShiftPastWord(s, n, t, w, j);
    i := n + j;
  }

  /** Python's `s[:n]` for a non-negative `n`. */
  function Head(s: string, n: nat): (r: string)
    ensures |r| <= n && |r| <= |s| && r == s[..|r|]
    ensures |r| < n ==> r == s
  {
    if n < |s| then s[..n] else s
  }

  /** Python's `s[-n:]` for a positive `n`. */
  function Tail(s: string, n: nat): (r: string)
    ensures |r| <= n && |r| <= |s| && r == s[|s| - |r|..]
    ensures |r| < n ==> r == s
  {
    if n < |s| then s[|s| - n..] else s
  }

  predicate IsDigit(c: char) {
    '0' <= c <= '9'
  }

  function DigitChar(d: nat): (c: char)
    requires d < 10
    ensures IsDigit(c) && c as int - '0' as int == d
  {
    (48 + d) as char
  }

  /** Python's `str(n)` for a natural number: decimal digits, no leading zero. */
  function NatToString(n: nat): (r: string)
    ensures r != []
    ensures forall k :: 0 <= k < |r| ==> IsDigit(r[k])
    ensures r[0] == '0' ==> n == 0
    decreases n
  {
    if n < 10 then [DigitChar(n)] else NatToString(n / 10) + [DigitChar(n % 10)]
  }

  /** Python's `str(i)` for any integer. */
  function IntToString(i: int): string {
    if i < 0 then "-" + NatToString(-i) else NatToString(i)
  }

  /** The number a string of decimal digits denotes. */
  function DigitsValue(s: string): nat
    requires forall k :: 0 <= k < |s| ==> IsDigit(s[k])
  {
    if s == [] then 0
    else
      assert IsDigit(s[|s| - 1]);
      DigitsValue(s[..|s| - 1]) * 10 + (s[|s| - 1] as int - '0' as int)
  }

  /** `str(n)` loses nothing: its digits denote `n` again. */
  lemma {:induction false} NatToStringRoundTrip(n: nat)
    ensures DigitsValue(NatToString(n)) == n
    decreases n
  {
    if n >= 10 {
      var r := NatToString(n);
      NatToStringRoundTrip(n / 10);
      assert r[..|r| - 1] == NatToString(n / 10);
    }
  }
}
