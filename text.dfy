/**
  The standard-library string operations the source relies on (Go `strings`,
  Python `str`), written out over `seq<char>`. Case mapping and whitespace are
  the ASCII ones; see README for what that leaves out.
 */
module Text {

  /** `p` is a prefix of `s` (Go `strings.HasPrefix`, Python `startswith`). */
  predicate IsPrefix(p: string, s: string)
  {
    |p| <= |s| && s[..|p|] == p
  }

  /** A text whose first character differs from the first of `p` does not start with `p`. */
  lemma NotPrefixByFirst(p: string, t: string)
    requires |p| > 0 && |t| > 0 && p[0] != t[0]
    ensures !IsPrefix(p, t)
  {
    if |p| <= |t| {
      assert t[..|p|][0] == t[0];
    }
  }

  /** `p` is a suffix of `s` (Go `strings.HasSuffix`, Python `endswith`). */
  predicate IsSuffix(p: string, s: string)
  {
    |p| <= |s| && s[|s| - |p|..] == p
  }

  /** `t` occurs in `s` (Go `strings.Contains`, Python `t in s`). */
  predicate Contains(s: string, t: string)
    decreases |s|
  {
    IsPrefix(t, s) || (|s| > 0 && Contains(s[1..], t))
  }

  lemma {:induction false} ContainsAt(s: string, t: string, i: nat)
    requires i + |t| <= |s| && s[i..i + |t|] == t
    ensures Contains(s, t)
    decreases i
  {
    if i > 0 {
      assert s[1..][i - 1..i - 1 + |t|] == s[i..i + |t|];
      ContainsAt(s[1..], t, i - 1);
    }
  }

  lemma {:induction false} ContainsWitness(s: string, t: string) returns (i: nat)
    requires Contains(s, t)
    ensures i + |t| <= |s| && s[i..i + |t|] == t
    decreases |s|
  {
    if IsPrefix(t, s) {
      i := 0;
    } else {
      var j := ContainsWitness(s[1..], t);
      assert s[1..][j..j + |t|] == s[j + 1..j + 1 + |t|];
      i := j + 1;
    }
  }

  /** A string holding a character that `s` lacks does not occur in `s`. */
  lemma {:induction false} NotContainsChar(s: string, t: string, c: char)
    requires c in t && c !in s
    ensures !Contains(s, t)
    decreases |s|
  {
    if |t| <= |s| {
      assert c !in s[..|t|];
    }
    if |s| > 0 {
      NotContainsChar(s[1..], t, c);
    }
  }

  /** A string that is a substring of `s` cannot be longer than it. */
  lemma ContainsLength(s: string, t: string)
    requires Contains(s, t)
    ensures |t| <= |s|
  {
    var i := ContainsWitness(s, t);
  }

  /** Anything that contains `s` contains every substring of `s`. */
  lemma ContainsTransitive(a: string, b: string, c: string)
    requires Contains(a, b) && Contains(b, c)
    ensures Contains(a, c)
  {
    var i := ContainsWitness(a, b);
    var j := ContainsWitness(b, c);
    SliceOfSlice(a, i, i + |b|, j, |c|);
    ContainsAt(a, c, i + j);
  }

  /** What a suffix contains, the whole text contains. */
  lemma ContainsSuffix(s: string, off: nat, t: string)
    requires off <= |s| && Contains(s[off..], t)
    ensures Contains(s, t)
  {
    var i := ContainsWitness(s[off..], t);
    SliceOfSlice(s, off, |s|, i, |t|);
    ContainsAt(s, t, off + i);
  }

  /** A slice of a slice is a slice. */
  lemma SliceOfSlice(s: string, lo: nat, hi: nat, i: nat, n: nat)
    requires lo + i + n <= hi <= |s|
    ensures s[lo..hi][i..i + n] == s[lo + i..lo + i + n]
  {
    var u, w := s[lo..hi][i..i + n], s[lo + i..lo + i + n];
    assert forall k :: 0 <= k < n ==> u[k] == w[k];
  }

  /** ASCII upper case to lower case; every other character is unchanged. */
  function LowerChar(c: char): char
  {
    if 'A' <= c <= 'Z' then (c as int + 32) as char else c
  }

  /** Go `strings.ToLower` / Python `str.lower`, restricted to ASCII letters. */
  function ToLower(s: string): string
  {
    seq(|s|, i requires 0 <= i < |s| => LowerChar(s[i]))
  }

  /** A string without upper-case ASCII letters is its own lower case. */
  lemma ToLowerNoUpper(s: string)
    requires forall i :: 0 <= i < |s| ==> !('A' <= s[i] <= 'Z')
    ensures ToLower(s) == s
  {
  }

  lemma ToLowerIdempotent(s: string)
    ensures ToLower(ToLower(s)) == ToLower(s)
  {
  }

  /** ASCII white space: what Go `strings.TrimSpace` and Python `str.strip` remove. */
  predicate IsSpace(c: char)
  {
    c == ' ' || c == '\t' || c == '\n' || c == '\r' || c as int == 11 || c as int == 12
  }

  function TrimLeft(s: string): string
    decreases |s|
  {
    if |s| > 0 && IsSpace(s[0]) then TrimLeft(s[1..]) else s
  }

  function TrimRight(s: string): string
    decreases |s|
  {
    if |s| > 0 && IsSpace(s[|s| - 1]) then TrimRight(s[..|s| - 1]) else s
  }

  /** Trimming on the left leaves a suffix that does not start with white space. */
  lemma {:induction false} TrimLeftSuffix(s: string)
    ensures |TrimLeft(s)| <= |s| && TrimLeft(s) == s[|s| - |TrimLeft(s)|..]
    ensures TrimLeft(s) == [] || !IsSpace(TrimLeft(s)[0])
    decreases |s|
  {
    if |s| > 0 && IsSpace(s[0]) {
      TrimLeftSuffix(s[1..]);
    }
  }

  /** Trimming on the right leaves a prefix that does not end with white space. */
  lemma {:induction false} TrimRightPrefix(s: string)
    ensures |TrimRight(s)| <= |s| && TrimRight(s) == s[..|TrimRight(s)|]
    ensures TrimRight(s) == [] || !IsSpace(TrimRight(s)[|TrimRight(s)| - 1])
    decreases |s|
  {
    if |s| > 0 && IsSpace(s[|s| - 1]) {
      TrimRightPrefix(s[..|s| - 1]);
    }
  }

  /** Go `strings.TrimSpace` / Python `str.strip()`. */
  function Trim(s: string): string
  {
    TrimRight(TrimLeft(s))
  }

  lemma TrimLeftSpaces(w: string, s: string)
    requires forall i :: 0 <= i < |w| ==> IsSpace(w[i])
    ensures TrimLeft(w + s) == TrimLeft(s)
    decreases |w|
  {
    if |w| > 0 {
      assert (w + s)[1..] == w[1..] + s;
      TrimLeftSpaces(w[1..], s);
    } else {
      assert w + s == s;
    }
  }

  /** A string that neither starts nor ends with white space is its own trim. */
  lemma TrimUnchanged(s: string)
    requires s != [] && !IsSpace(s[0]) && !IsSpace(s[|s| - 1])
    ensures Trim(s) == s
  {
  }

  /** Trimming on the right keeps a first character that is not white space. */
  lemma {:induction false} TrimRightKeepsFirst(s: string)
    requires s != [] && !IsSpace(s[0])
    ensures TrimRight(s) != [] && TrimRight(s)[0] == s[0]
    decreases |s|
  {
    if |s| > 1 && IsSpace(s[|s| - 1]) {
      TrimRightKeepsFirst(s[..|s| - 1]);
    }
  }

  /** Trimming twice is trimming once. */
  lemma TrimIdempotent(s: string)
    ensures Trim(Trim(s)) == Trim(s)
  {
    TrimLeftSuffix(s);
    var l := TrimLeft(s);
    TrimRightPrefix(l);
    var t := TrimRight(l);
    if t != [] {
      assert t[0] == l[0];
      TrimUnchanged(t);
    }
  }

  /** Index of the first `c` in `s`. */
  function IndexOf(s: string, c: char): (i: nat)
    requires c in s
    ensures i < |s| && s[i] == c && c !in s[..i]
  {
    if s[0] == c then 0 else 1 + IndexOf(s[1..], c)
  }

  /** The first `c` is the one position holding `c` with no `c` before it. */
  lemma {:induction false} IndexOfUnique(s: string, c: char, k: nat)
    requires k < |s| && s[k] == c && c !in s[..k]
    ensures IndexOf(s, c) == k
  {
    if k > 0 {
      assert s[0] in s[..k];
      assert s[1..][..k - 1] == s[1..k];
      IndexOfUnique(s[1..], c, k - 1);
    }
  }

  /** Go `strings.Split(s, sep)` / Python `s.split(sep)` for a one-character separator. */
  function Split(s: string, sep: char): (parts: seq<string>)
    ensures |parts| > 0
    decreases |s|
  {
    if sep in s then
      var i := IndexOf(s, sep);
      [s[..i]] + Split(s[i + 1..], sep)
    else
      [s]
  }

  /** Glue the parts back together with the separator between them. */
  function Join(parts: seq<string>, sep: char): string
  {
    if |parts| == 0 then [] else if |parts| == 1 then parts[0] else parts[0] + [sep] + Join(parts[1..], sep)
  }

  /** Splitting and joining on the same separator gives the string back. */
  lemma {:induction false} SplitJoin(s: string, sep: char)
    ensures Join(Split(s, sep), sep) == s
    decreases |s|
  {
    if sep in s {
      var i := IndexOf(s, sep);
      SplitJoin(s[i + 1..], sep);
      assert s == s[..i] + [sep] + s[i + 1..];
    }
  }

  /** No part of a split contains the separator. */
  lemma {:induction false} SplitNoSeparator(s: string, sep: char)
    ensures forall k :: 0 <= k < |Split(s, sep)| ==> sep !in Split(s, sep)[k]
    decreases |s|
  {
    if sep in s {
      var i := IndexOf(s, sep);
      SplitNoSeparator(s[i + 1..], sep);
    }
  }

  /** Splitting peels off the text before the first separator. */
  lemma SplitCons(a: string, sep: char, b: string)
    requires sep !in a
    ensures Split(a + [sep] + b, sep) == [a] + Split(b, sep)
  {
    var s := a + [sep] + b;
    assert s[|a|] == sep;
    assert s[..|a|] == a;
    var i := IndexOf(s, sep);
    assert i == |a|;
    assert s[i + 1..] == b;
  }

  /** Joining parts free of the separator and splitting again gives the parts back. */
  lemma {:induction false} JoinSplit(parts: seq<string>, sep: char)
    requires |parts| > 0 && forall k :: 0 <= k < |parts| ==> sep !in parts[k]
    ensures Split(Join(parts, sep), sep) == parts
    decreases |parts|
  {
    if |parts| == 1 {
      SplitNoSep(parts[0], sep);
    } else {
      JoinSplit(parts[1..], sep);
      SplitCons(parts[0], sep, Join(parts[1..], sep));
    }
  }

  lemma SplitNoSep(a: string, sep: char)
    requires sep !in a
    ensures Split(a, sep) == [a]
  {
  }

  /** Length of the leading run of non-space characters. */
  function WordLength(s: string): (n: nat)
    ensures n <= |s|
    ensures forall i :: 0 <= i < n ==> !IsSpace(s[i])
    ensures n == |s| || IsSpace(s[n])
    decreases |s|
  {
    if |s| == 0 || IsSpace(s[0]) then 0 else 1 + WordLength(s[1..])
  }

  /** Go `strings.Fields` / Python `str.split()`: the maximal runs of non-space characters. */
  function Fields(s: string): (fs: seq<string>)
    decreases |s|
  {
    TrimLeftSuffix(s);
    var t := TrimLeft(s);
    if t == [] then []
    else
      var w := WordLength(t);
      [t[..w]] + Fields(t[w..])
  }

  /** A non-empty run of non-space characters. */
  predicate IsWord(w: string)
  {
    w != [] && forall i :: 0 <= i < |w| ==> !IsSpace(w[i])
  }

  /** A word is read whole. */
  lemma {:induction false} WordLengthOfWord(w: string, rest: string)
    requires IsWord(w) && (rest == [] || IsSpace(rest[0]))
    ensures WordLength(w + rest) == |w|
    decreases |w|
  {
    assert (w + rest)[0] == w[0];
    if |w| > 1 {
      assert (w + rest)[1..] == w[1..] + rest;
      WordLengthOfWord(w[1..], rest);
    } else {
      assert (w + rest)[1..] == rest;
    }
  }

  /** White space followed by one word splits into that word. */
  lemma FieldsOfWord(pad: string, w: string)
    requires forall i :: 0 <= i < |pad| ==> IsSpace(pad[i])
    requires IsWord(w)
    ensures Fields(pad + w) == [w]
  {
    TrimLeftSpaces(pad, w);
    assert TrimLeft(w) == w;
    WordLengthOfWord(w, []);
    assert w + [] == w;
    assert w[..|w|] == w && w[|w|..] == [];
  }

  /** Every field is non-empty and free of white space. */
  lemma {:induction false} FieldsAreWords(s: string)
    ensures forall w <- Fields(s) :: IsWord(w)
    decreases |s|
  {
    TrimLeftSuffix(s);
    var t := TrimLeft(s);
    if t != [] {
      var w := WordLength(t);
      FieldsAreWords(t[w..]);
      assert IsWord(t[..w]);
    }
  }

  /**
    Replace every occurrence of `t` in `s` by `v`, scanning left to right and
    never re-scanning replaced text (Go `ReplaceAllString` / Python `re.sub`
    on a literal pattern, with a literal replacement).
   */
  function ReplaceAll(s: string, t: string, v: string): string
    requires |t| > 0
    decreases |s|
  {
    if |s| < |t| then s
    else if s[..|t|] == t then v + ReplaceAll(s[|t|..], t, v)
    else [s[0]] + ReplaceAll(s[1..], t, v)
  }

  /** Text that cannot start an occurrence of `t` is copied through unchanged. */
  lemma {:induction false} ReplaceAllSkips(a: string, x: string, t: string, v: string)
    requires |t| > 0 && t[0] !in a
    ensures ReplaceAll(a + x, t, v) == a + ReplaceAll(x, t, v)
    decreases |a|
  {
    if |a| > 0 {
      var s := a + x;
      if |s| >= |t| {
        assert s[..|t|][0] == a[0];
        assert s[1..] == a[1..] + x;
        ReplaceAllSkips(a[1..], x, t, v);
      } else {
        assert ReplaceAll(x, t, v) == x;
      }
    } else {
      assert a + x == x;
    }
  }

  /** A string without occurrences of `t` is left as it is. */
  lemma {:induction false} ReplaceAllAbsent(s: string, t: string, v: string)
    requires |t| > 0 && !Contains(s, t)
    ensures ReplaceAll(s, t, v) == s
    decreases |s|
  {
    if |s| >= |t| {
      assert !IsPrefix(t, s);
      ReplaceAllAbsent(s[1..], t, v);
    }
  }

  /** Strict lexicographic order on code points (Python's `<` on `str`). */
  predicate LexLess(a: string, b: string)
    decreases |a|
  {
    |b| > 0 && (|a| == 0 || a[0] < b[0] || (a[0] == b[0] && LexLess(a[1..], b[1..])))
  }

  lemma {:induction false} LexLessIrreflexive(a: string)
    ensures !LexLess(a, a)
    decreases |a|
  {
    if |a| > 0 {
      LexLessIrreflexive(a[1..]);
    }
  }

  lemma {:induction false} LexLessTransitive(a: string, b: string, c: string)
    requires LexLess(a, b) && LexLess(b, c)
    ensures LexLess(a, c)
    decreases |a|
  {
    if |a| > 0 && a[0] == b[0] && b[0] == c[0] {
      LexLessTransitive(a[1..], b[1..], c[1..]);
    }
  }

  lemma {:induction false} LexLessTotal(a: string, b: string)
    requires a != b
    ensures LexLess(a, b) || LexLess(b, a)
    decreases |a|
  {
    if |a| > 0 && |b| > 0 && a[0] == b[0] {
      assert a == [a[0]] + a[1..] && b == [b[0]] + b[1..];
      LexLessTotal(a[1..], b[1..]);
    }
  }
}
