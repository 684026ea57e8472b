/** Python string operations used throughout the dialogue pipeline, over `string` (a sequence
    of Unicode scalar values, as Python's `str` is a sequence of code points). */
module Text {

  /** Python's whitespace (`str.isspace`), which `str.split()`, `str.strip()` and the regex
      class `\s` all use. */
  predicate IsSpace(c: char) {
    || c == ' ' || c == '\t' || c == '\n' || c == '\r' || c == '\U{B}' || c == '\U{C}'
    || ('\U{1C}' <= c <= '\U{1F}') || c == '\U{85}' || c == '\U{A0}' || c == '\U{1680}'
    || ('\U{2000}' <= c <= '\U{200A}') || c == '\U{2028}' || c == '\U{2029}'
    || c == '\U{202F}' || c == '\U{205F}' || c == '\U{3000}'
  }

  predicate NoSpace(s: string) {
    forall i :: 0 <= i < |s| ==> !IsSpace(s[i])
  }

  /** A string with no leading and no trailing whitespace. */
  predicate Stripped(s: string) {
    s == [] || (!IsSpace(s[0]) && !IsSpace(s[|s| - 1]))
  }

  /** The characters of `s` that are not whitespace, in order. */
  function NonSpace(s: string): string {
    if s == [] then [] else (if IsSpace(s[0]) then [] else [s[0]]) + NonSpace(s[1..])
  }

  function Concat(parts: seq<string>): string {
    if parts == [] then [] else parts[0] + Concat(parts[1..])
  }

  /** Python's `sep.join(parts)`. */
  function Join(parts: seq<string>, sep: string): string {
    if parts == [] then []
    else if |parts| == 1 then parts[0]
    else parts[0] + sep + Join(parts[1..], sep)
  }

  /** Length of the leading run of non-whitespace characters. */
  function WordLength(s: string): (n: nat)
    ensures n <= |s|
    ensures forall i :: 0 <= i < n ==> !IsSpace(s[i])
    ensures n < |s| ==> IsSpace(s[n])
  {
    if s == [] || IsSpace(s[0]) then 0 else 1 + WordLength(s[1..])
  }

  /** Length of the leading run of whitespace characters. */
  function SpaceLength(s: string): (n: nat)
    ensures n <= |s|
    ensures forall i :: 0 <= i < n ==> IsSpace(s[i])
    ensures n < |s| ==> !IsSpace(s[n])
  {
    if s != [] && IsSpace(s[0]) then 1 + SpaceLength(s[1..]) else 0
  }

  /** Python's `s.split()`: the maximal runs of non-whitespace characters. */
  function Split(s: string): (words: seq<string>)
    ensures forall k :: 0 <= k < |words| ==> |words[k]| > 0 && NoSpace(words[k])
    decreases |s|
  {
    if s == [] then []
    else if IsSpace(s[0]) then Split(s[1..])
    else
      var n := WordLength(s);
      [s[..n]] + Split(s[n..])
  }

  /** Python's `s.lstrip()`. */
  function LStrip(s: string): (r: string)
    ensures |r| <= |s|
    ensures r == [] || !IsSpace(r[0])
    ensures forall i :: 0 <= i < |s| - |r| ==> IsSpace(s[i])
  {
    s[SpaceLength(s)..]
  }

  /** Left-stripping a string that ends in a non-space keeps that last character. */
  lemma LStripKeepsLast(s: string)
    requires s != [] && !IsSpace(s[|s| - 1])
    ensures LStrip(s) != [] && LStrip(s)[|LStrip(s)| - 1] == s[|s| - 1]
  {
    var n := SpaceLength(s);
    assert n < |s|;
    assert LStrip(s) == s[n..];
  }

  /** Python's `s.rstrip()`. */
  function RStrip(s: string): (r: string)
    ensures |r| <= |s| && r == s[..|r|]
    ensures r == [] || !IsSpace(r[|r| - 1])
    ensures forall i :: |r| <= i < |s| ==> IsSpace(s[i])
  {
    if s != [] && IsSpace(s[|s| - 1]) then RStrip(s[..|s| - 1]) else s
  }

  /** Python's `s.strip()`: removes exactly the leading and trailing whitespace. */
  function Strip(s: string): (r: string)
    ensures Stripped(r)
    ensures |r| <= |s|
    ensures NoSpace(s) ==> r == s
  {
    var l := LStrip(s);
    var r := RStrip(l);
    assert r == [] || r[0] == l[0];
    r
  }

  /** Stripping keeps characters of the string only, and leaves a stripped string alone. */
  lemma StripFacts(s: string)
    ensures forall i :: 0 <= i < |Strip(s)| ==> Strip(s)[i] in s
    ensures Stripped(s) ==> Strip(s) == s
  {
    var l := LStrip(s);
    var r := RStrip(l);
    assert forall i :: 0 <= i < |r| ==> r[i] == l[i];
    assert forall i :: 0 <= i < |l| ==> l[i] == s[|s| - |l| + i];
  }

  function LowerChar(c: char): char {
    if 'A' <= c <= 'Z' then (c as int + 32) as char else c
  }

  /** Python's `s.lower()` (ASCII letters only). */
  function Lower(s: string): (r: string)
    ensures |r| == |s|
    ensures forall i :: 0 <= i < |r| ==> !('A' <= r[i] <= 'Z')
  {
    seq(|s|, i requires 0 <= i < |s| => LowerChar(s[i]))
  }

  /** Python's `s.replace(a, b)` for single characters. */
  function ReplaceChar(s: string, a: char, b: char): (r: string)
    ensures |r| == |s|
    ensures a != b ==> a !in r
  {
    seq(|s|, i requires 0 <= i < |s| => if s[i] == a then b else s[i])
  }

  /** `re.sub(r'\s+', ' ', s)`: every maximal run of whitespace becomes one space. */
  function CollapseSpaces(s: string): (r: string)
    ensures forall i :: 0 <= i < |r| ==> IsSpace(r[i]) ==> r[i] == ' '
    ensures forall i :: 0 <= i < |r| - 1 ==> !(IsSpace(r[i]) && IsSpace(r[i + 1]))
    ensures s != [] ==> r != [] && IsSpace(r[0]) == IsSpace(s[0])
    decreases |s|
  {
    if s == [] then []
    else if IsSpace(s[0]) then
      var n := SpaceLength(s);
      var rest := CollapseSpaces(s[n..]);
      assert rest != [] ==> !IsSpace(rest[0]);
      [' '] + rest
    else [s[0]] + CollapseSpaces(s[1..])
  }

  /** First index of `c` in `s`, if any. */
  function IndexOf(s: string, c: char): (r: nat)
    ensures r <= |s|
    ensures r < |s| ==> s[r] == c
    ensures forall i :: 0 <= i < r ==> s[i] != c
  {
    if s == [] || s[0] == c then 0 else 1 + IndexOf(s[1..], c)
  }

  /** Python's `s.split('\n')`: the pieces between newlines (always at least one). */
  function SplitLines(s: string): (lines: seq<string>)
    ensures |lines| >= 1
    ensures forall k :: 0 <= k < |lines| ==> '\n' !in lines[k]
    decreases |s|
  {
    var i := IndexOf(s, '\n');
    if i == |s| then [s] else [s[..i]] + SplitLines(s[i + 1..])
  }

  /** `s` without any occurrence of `c`. */
  function RemoveChar(s: string, c: char): (r: string)
    ensures c !in r && |r| <= |s|
  {
    if s == [] then [] else (if s[0] == c then [] else [s[0]]) + RemoveChar(s[1..], c)
  }

  // ---------------------------------------------------------------------------------------
  // Lemmas
  // ---------------------------------------------------------------------------------------

  lemma {:induction false} NonSpaceOfSpaces(s: string)
    requires forall i :: 0 <= i < |s| ==> IsSpace(s[i])
    ensures NonSpace(s) == []
  {
    if s != [] {
      NonSpaceOfSpaces(s[1..]);
    }
  }

  /** Collapsing whitespace runs keeps every other character, in order. */
  lemma {:induction false} NonSpaceCollapse(s: string)
    ensures NonSpace(CollapseSpaces(s)) == NonSpace(s)
    decreases |s|
  {
    if s != [] {
      if IsSpace(s[0]) {
        var n := SpaceLength(s);
        var rest := CollapseSpaces(s[n..]);
        NonSpaceCollapse(s[n..]);
        assert s == s[..n] + s[n..];
        NonSpaceAppend(s[..n], s[n..]);
        NonSpaceOfSpaces(s[..n]);
        assert ([' '] + rest)[1..] == rest;
      } else {
        NonSpaceCollapse(s[1..]);
        assert ([s[0]] + CollapseSpaces(s[1..]))[1..] == CollapseSpaces(s[1..]);
      }
    }
  }

  /** Turning a non-whitespace character into spaces drops it from the non-whitespace text. */
  lemma {:induction false} NonSpaceReplace(s: string, c: char)
    requires !IsSpace(c)
    ensures NonSpace(ReplaceChar(s, c, ' ')) == RemoveChar(NonSpace(s), c)
  {
    if s != [] {
      NonSpaceReplace(s[1..], c);
      var t := ReplaceChar(s, c, ' ');
      assert t[1..] == ReplaceChar(s[1..], c, ' ');
      if IsSpace(s[0]) {
        assert t[0] == s[0];
        assert NonSpace(t) == NonSpace(t[1..]);
        assert NonSpace(s) == NonSpace(s[1..]);
      } else if s[0] == c {
        assert NonSpace(t) == NonSpace(t[1..]);
        assert ([s[0]] + NonSpace(s[1..]))[1..] == NonSpace(s[1..]);
      } else {
        assert NonSpace(t) == [s[0]] + NonSpace(t[1..]);
        assert ([s[0]] + NonSpace(s[1..]))[1..] == NonSpace(s[1..]);
      }
    }
  }

  lemma {:induction false} NonSpaceLStrip(s: string)
    ensures NonSpace(LStrip(s)) == NonSpace(s)
  {
    if s != [] && IsSpace(s[0]) {
      NonSpaceLStrip(s[1..]);
    }
  }

  lemma {:induction false} NonSpaceRStrip(s: string)
    ensures NonSpace(RStrip(s)) == NonSpace(s)
  {
    if s != [] && IsSpace(s[|s| - 1]) {
      NonSpaceRStrip(s[..|s| - 1]);
      assert s == s[..|s| - 1] + [s[|s| - 1]];
      NonSpaceAppend(s[..|s| - 1], [s[|s| - 1]]);
    }
  }

  /** Stripping removes whitespace only. */
  lemma NonSpaceStrip(s: string)
    ensures NonSpace(Strip(s)) == NonSpace(s)
  {
    NonSpaceLStrip(s);
    NonSpaceRStrip(LStrip(s));
  }

  lemma NonSpaceAppend(a: string, b: string)
    ensures NonSpace(a + b) == NonSpace(a) + NonSpace(b)
  {
    if a != [] {
      var head := if IsSpace(a[0]) then [] else [a[0]];
      assert (a + b)[0] == a[0];
      assert (a + b)[1..] == a[1..] + b;
      NonSpaceAppend(a[1..], b);
      calc {
        NonSpace(a + b);
        head + NonSpace(a[1..] + b);
        head + (NonSpace(a[1..]) + NonSpace(b));
        (head + NonSpace(a[1..])) + NonSpace(b);
      }
    } else {
      assert a + b == b;
    }
  }

  lemma NonSpaceOfWord(w: string)
    requires NoSpace(w)
    ensures NonSpace(w) == w
  {
    if w != [] {
      NonSpaceOfWord(w[1..]);
    }
  }

  /** Splitting drops exactly the whitespace: the words run together are the non-space text. */
  lemma {:induction false} ConcatSplit(s: string)
    ensures Concat(Split(s)) == NonSpace(s)
    decreases |s|
  {
    if s == [] {
    } else if IsSpace(s[0]) {
      ConcatSplit(s[1..]);
    } else {
      var n := WordLength(s);
      ConcatSplit(s[n..]);
      assert s == s[..n] + s[n..];
      NonSpaceAppend(s[..n], s[n..]);
      NonSpaceOfWord(s[..n]);
      assert Split(s) == [s[..n]] + Split(s[n..]);
    }
  }

  lemma SplitOfWordThen(w: string, rest: string)
    requires |w| > 0 && NoSpace(w)
    requires rest == [] || IsSpace(rest[0])
    ensures Split(w + rest) == [w] + Split(rest)
  {
    var s := w + rest;
    WordLengthOfWordThen(w, rest);
    assert s[..|w|] == w;
    assert s[|w|..] == rest;
  }

  lemma WordLengthOfWordThen(w: string, rest: string)
    requires NoSpace(w)
    requires rest == [] || IsSpace(rest[0])
    ensures WordLength(w + rest) == |w|
  {
    if w != [] {
      assert (w + rest)[1..] == w[1..] + rest;
      WordLengthOfWordThen(w[1..], rest);
    }
  }

  /** Joining non-empty, space-free words with single spaces and splitting again gives the words back. */
  lemma {:induction false} SplitJoin(words: seq<string>)
    requires forall k :: 0 <= k < |words| ==> |words[k]| > 0 && NoSpace(words[k])
    ensures Split(Join(words, " ")) == words
  {
    if |words| == 0 {
    } else if |words| == 1 {
      SplitOfWordThen(words[0], []);
      assert words[0] + [] == words[0];
    } else {
      var tail := Join(words[1..], " ");
      SplitJoin(words[1..]);
      assert Join(words, " ") == words[0] + (" " + tail);
      SplitOfWordThen(words[0], " " + tail);
      assert (" " + tail)[1..] == tail;
    }
  }

  lemma IndexOfAppend(a: string, b: string, c: char)
    requires c !in a
    ensures IndexOf(a + b, c) == |a| + IndexOf(b, c)
  {
    if a != [] {
      assert (a + b)[0] == a[0] != c;
      assert (a + b)[1..] == a[1..] + b;
      IndexOfAppend(a[1..], b, c);
    } else {
      assert a + b == b;
    }
  }

  /** Python's `'\n'.join(s.split('\n')) == s`. */
  lemma {:induction false} JoinSplitLines(s: string)
    ensures Join(SplitLines(s), "\n") == s
    decreases |s|
  {
    var i := IndexOf(s, '\n');
    if i < |s| {
      var head, tail := s[..i], s[i + 1..];
      JoinSplitLines(tail);
      var rest := SplitLines(tail);
      assert SplitLines(s) == [head] + rest;
      JoinCons(head, rest, "\n");
      assert s == head + "\n" + tail;
    }
  }

  /** Joining a first part before a non-empty list puts one separator between them. */
  lemma JoinCons(x: string, rest: seq<string>, sep: string)
    requires rest != []
    ensures Join([x] + rest, sep) == x + sep + Join(rest, sep)
  {
    assert ([x] + rest)[1..] == rest;
  }

  /** Lines without newlines, joined with newlines, split back into the same lines. */
  lemma {:induction false} SplitLinesJoin(lines: seq<string>)
    requires |lines| >= 1
    requires forall k :: 0 <= k < |lines| ==> '\n' !in lines[k]
    ensures SplitLines(Join(lines, "\n")) == lines
  {
    if |lines| == 1 {
      IndexOfAppend(lines[0], [], '\n');
      assert lines[0] + [] == lines[0];
    } else {
      var tail := Join(lines[1..], "\n");
      SplitLinesJoin(lines[1..]);
      var s := lines[0] + ("\n" + tail);
      assert Join(lines, "\n") == s;
      IndexOfAppend(lines[0], "\n" + tail, '\n');
      assert s[..|lines[0]|] == lines[0];
      assert s[|lines[0]| + 1..] == tail;
    }
  }

  /** A decimal digit character. */
  predicate IsDigit(c: char) {
    '0' <= c <= '9'
  }

  /** `str(n)` for a natural number: its decimal digits, most significant first. */
  function NatToDecimal(n: nat): (s: string)
    ensures |s| >= 1 && forall k :: 0 <= k < |s| ==> IsDigit(s[k])
    decreases n
  {
    var digit := ['0' + (n % 10) as char];
    if n < 10 then digit else NatToDecimal(n / 10) + digit
  }

  /** The number a string of decimal digits denotes. */
  function DecimalValue(s: string): nat
    requires forall k :: 0 <= k < |s| ==> IsDigit(s[k])
  {
    if |s| == 0 then 0
    else
      assert IsDigit(s[|s| - 1]);
      10 * DecimalValue(s[..|s| - 1]) + (s[|s| - 1] as int - '0' as int)
  }

  /** Reading back the decimal rendering gives the number again. */
  lemma {:induction false} DecimalRoundTrip(n: nat)
    ensures DecimalValue(NatToDecimal(n)) == n
    decreases n
  {
    var s := NatToDecimal(n);
    if n >= 10 {
      DecimalRoundTrip(n / 10);
      assert s[..|s| - 1] == NatToDecimal(n / 10);
    }
  }

  /** Distinct numbers have distinct decimal renderings. */
  lemma DecimalInjective(m: nat, n: nat)
    requires NatToDecimal(m) == NatToDecimal(n)
    ensures m == n
  {
    DecimalRoundTrip(m);
    DecimalRoundTrip(n);
  }

  /** Every character of a word of `s.split()` is a character of `s`. */
  lemma {:induction false} SplitChars(s: string)
    ensures forall k, i :: 0 <= k < |Split(s)| && 0 <= i < |Split(s)[k]| ==> Split(s)[k][i] in s
    decreases |s|
  {
    if s != [] {
      if IsSpace(s[0]) {
        SplitChars(s[1..]);
        assert forall c :: c in s[1..] ==> c in s;
      } else {
        var n := WordLength(s);
        SplitChars(s[n..]);
        assert forall c :: c in s[n..] ==> c in s;
        assert forall c :: c in s[..n] ==> c in s;
        var words := Split(s);
        assert words == [s[..n]] + Split(s[n..]);
        forall k, i | 0 <= k < |words| && 0 <= i < |words[k]|
          ensures words[k][i] in s
        {
          if k == 0 {
            assert words[k][i] in s[..n];
          } else {
            assert words[k] == Split(s[n..])[k - 1];
          }
        }
      }
    }
  }

  /** Characters satisfying `p` appear only with whitespace (or an end of the string) on both
      sides. */
  predicate Isolated(s: string, p: char -> bool) {
    forall k :: 0 <= k < |s| ==> IsolatedAt(s, p, k)
  }

  predicate IsolatedAt(s: string, p: char -> bool, k: int)
    requires 0 <= k < |s|
  {
    p(s[k]) ==> (k == 0 || IsSpace(s[k - 1])) && (k == |s| - 1 || IsSpace(s[k + 1]))
  }

  lemma IsolatedSuffix(s: string, p: char -> bool, n: int)
    requires Isolated(s, p) && 0 <= n <= |s|
    ensures Isolated(s[n..], p)
  {
    forall k | 0 <= k < |s[n..]|
      ensures IsolatedAt(s[n..], p, k)
    {
      assert IsolatedAt(s, p, n + k);
    }
  }

  /** An isolated character inside a run of non-whitespace is that whole run. */
  lemma IsolatedInWord(s: string, p: char -> bool, i: int, n: int)
    requires Isolated(s, p) && 0 <= i < n <= |s| && p(s[i])
    requires forall j :: 0 <= j < n ==> !IsSpace(s[j])
    ensures i == 0 && n == 1
  {
    assert IsolatedAt(s, p, i);
  }

  /** In a string whose `p`-characters are isolated, a word of `s.split()` containing one is
      that single character. */
  lemma {:induction false} SplitIsolated(s: string, p: char -> bool)
    requires Isolated(s, p)
    ensures forall k, i :: 0 <= k < |Split(s)| && 0 <= i < |Split(s)[k]| && p(Split(s)[k][i]) ==>
              Split(s)[k] == [Split(s)[k][i]]
    decreases |s|
  {
    if s != [] {
      if IsSpace(s[0]) {
        IsolatedSuffix(s, p, 1);
        SplitIsolated(s[1..], p);
      } else {
        var n := WordLength(s);
        IsolatedSuffix(s, p, n);
        SplitIsolated(s[n..], p);
        var words := Split(s);
        assert words == [s[..n]] + Split(s[n..]);
        forall k, i | 0 <= k < |words| && 0 <= i < |words[k]| && p(words[k][i])
          ensures words[k] == [words[k][i]]
        {
          if k == 0 {
            assert words[0][i] == s[i];
            IsolatedInWord(s, p, i, n);
          } else {
            assert words[k] == Split(s[n..])[k - 1];
          }
        }
      }
    }
  }
}
