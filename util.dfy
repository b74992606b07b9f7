/** Character classes and the few Python string operations the commands rely on
    (`str.strip`, `str.split`, `str.split(sep)`, `sep.join`, `str.lower`,
    `startswith`, `endswith`, `in`, `find`), over strings as `seq<char>`. */
module Util {

  datatype Option<+T> = None | Some(value: T)

  /** Python's `str.isspace()` restricted to ASCII: space, \t \n \v \f \r and the
      four separators U+001C..U+001F. */
  predicate IsSpace(c: char) {
    c == ' ' || 9 <= c as int <= 13 || 28 <= c as int <= 31
  }

  predicate IsAsciiLetter(c: char) {
    'a' <= c <= 'z' || 'A' <= c <= 'Z'
  }

  predicate IsDigit(c: char) {
    '0' <= c <= '9'
  }

  /** The regular-expression class `\w`, restricted to ASCII. */
  predicate IsWordChar(c: char) {
    IsAsciiLetter(c) || IsDigit(c) || c == '_'
  }

  /** End of the run of word characters starting at `j` (a greedy `\w*`). */
  function WordRunEnd(text: string, j: nat): (e: nat)
    requires j <= |text|
    decreases |text| - j
    ensures j <= e <= |text|
    ensures forall k :: j <= k < e ==> IsWordChar(text[k])
    ensures e == |text| || !IsWordChar(text[e])
  {
    if j < |text| && IsWordChar(text[j]) then WordRunEnd(text, j + 1) else j
  }

  /** End of the run of whitespace starting at `j` (a greedy `\s*`). */
  function SpaceRunEnd(s: string, j: nat): (e: nat)
    requires j <= |s|
    decreases |s| - j
    ensures j <= e <= |s|
    ensures forall k :: j <= k < e ==> IsSpace(s[k])
    ensures e == |s| || !IsSpace(s[e])
  {
    if j < |s| && IsSpace(s[j]) then SpaceRunEnd(s, j + 1) else j
  }

  predicate StartsWith(s: string, prefix: string) {
    |prefix| <= |s| && s[..|prefix|] == prefix
  }

  predicate EndsWith(s: string, suffix: string) {
    |suffix| <= |s| && s[|s| - |suffix|..] == suffix
  }

  /** `pat` occurs in `s` at index `i`. */
  predicate OccursAt(s: string, pat: string, i: int) {
    0 <= i && i + |pat| <= |s| && s[i..i + |pat|] == pat
  }

  /** Python's `pat in s`. */
  predicate Contains(s: string, pat: string) {
    exists i :: 0 <= i <= |s| && OccursAt(s, pat, i)
  }

  lemma Regroup<T>(a: seq<T>, b: seq<T>, c: seq<T>, d: seq<T>)
    ensures a + b + c + d == a + (b + (c + d))
  {
  }

  lemma ConsTwo<T>(a: T, b: T, r: seq<T>)
    ensures [a] + ([b] + r) == [a, b] + r
  {
  }

  /** A prefix one element longer is the prefix followed by that element. */
  lemma TakeSnoc<T>(s: seq<T>, i: nat)
    requires i < |s|
    ensures s[..i + 1] == s[..i] + [s[i]]
  {
  }

  /** `s.find(pat, from)`: the first occurrence of `pat` at an index no smaller than `from`. */
  function Find(s: string, pat: string, from: nat): (r: Option<nat>)
    decreases |s| - from
    ensures r.Some? ==> from <= r.value && OccursAt(s, pat, r.value)
    ensures r.Some? ==> forall j :: from <= j < r.value ==> !OccursAt(s, pat, j)
    ensures r.None? ==> forall j :: from <= j ==> !OccursAt(s, pat, j)
  {
    if from + |pat| > |s| then None
    else if s[from..from + |pat|] == pat then Some(from)
    else Find(s, pat, from + 1)
  }

  lemma ContainsIffFind(s: string, pat: string)
    ensures Contains(s, pat) <==> Find(s, pat, 0).Some?
  {
    if Find(s, pat, 0).Some? {
      assert OccursAt(s, pat, Find(s, pat, 0).value);
    }
  }

  /** ASCII case folding, as `str.lower()` does on ASCII text. */
  function Lower(s: string): (r: string)
    ensures |r| == |s|
    ensures forall i :: 0 <= i < |s| ==> r[i] == LowerChar(s[i])
  {
    if s == [] then [] else [LowerChar(s[0])] + Lower(s[1..])
  }

  function LowerChar(c: char): char {
    if 'A' <= c <= 'Z' then (c as int + 32) as char else c
  }

  /** Number of leading whitespace characters. */
  function LeadingSpaces(s: string): (n: nat)
    ensures n <= |s|
    ensures forall i :: 0 <= i < n ==> IsSpace(s[i])
    ensures n < |s| ==> !IsSpace(s[n])
  {
    if s == [] || !IsSpace(s[0]) then 0 else 1 + LeadingSpaces(s[1..])
  }

  /** Number of trailing whitespace characters. */
  function TrailingSpaces(s: string): (n: nat)
    ensures n <= |s|
    ensures forall i :: |s| - n <= i < |s| ==> IsSpace(s[i])
    ensures n < |s| ==> !IsSpace(s[|s| - n - 1])
  {
    if s == [] || !IsSpace(s[|s| - 1]) then 0 else 1 + TrailingSpaces(s[..|s| - 1])
  }

  /** Number of leading NON-whitespace characters (the length of the first word). */
  function WordLength(s: string): (n: nat)
    ensures n <= |s|
    ensures forall i :: 0 <= i < n ==> !IsSpace(s[i])
    ensures n < |s| ==> IsSpace(s[n])
  {
    if s == [] || IsSpace(s[0]) then 0 else 1 + WordLength(s[1..])
  }

  function LStrip(s: string): (r: string)
    ensures r == s[LeadingSpaces(s)..]
  {
    s[LeadingSpaces(s)..]
  }

  predicate IsStripped(s: string) {
    s == [] || (!IsSpace(s[0]) && !IsSpace(s[|s| - 1]))
  }

  /** `s.strip()`: the slice of `s` left once leading and trailing whitespace are removed. */
  function Strip(s: string): (r: string)
    ensures IsStripped(r)
    ensures exists a, b :: 0 <= a <= b <= |s| && r == s[a..b]
                           && (forall i :: 0 <= i < a ==> IsSpace(s[i]))
                           && (forall i :: b <= i < |s| ==> IsSpace(s[i]))
  {
    var t := LStrip(s);
    var r := t[..|t| - TrailingSpaces(t)];
    assert r == s[LeadingSpaces(s)..LeadingSpaces(s) + |r|];
    r
  }

  /** A string is blank (`not s.strip()`) exactly when every character is whitespace. */
  lemma StripEmptyIffBlank(s: string)
    ensures Strip(s) == [] <==> forall i :: 0 <= i < |s| ==> IsSpace(s[i])
  {
    var t := LStrip(s);
    if forall i :: 0 <= i < |s| ==> IsSpace(s[i]) {
      assert LeadingSpaces(s) == |s|;
    }
    if Strip(s) == [] {
      assert TrailingSpaces(t) == |t|;
      assert t == [];
    }
  }

  predicate NoSpace(s: string) {
    forall i :: 0 <= i < |s| ==> !IsSpace(s[i])
  }

  lemma NoSpaceConcat(a: string, b: string)
    requires NoSpace(a) && NoSpace(b)
    ensures NoSpace(a + b)
  {
    forall i | 0 <= i < |a + b| ensures !IsSpace((a + b)[i]) {
      if i >= |a| { assert (a + b)[i] == b[i - |a|]; }
    }
  }

  lemma {:induction false} WordLengthAll(s: string)
    requires NoSpace(s)
    decreases |s|
    ensures WordLength(s) == |s|
  {
    if s != [] { WordLengthAll(s[1..]); }
  }

  /** The first word of `a + b` is `a` when `a` has no space and `b` starts with one. */
  lemma {:induction false} WordLengthPrefix(a: string, b: string)
    requires NoSpace(a) && b != [] && IsSpace(b[0])
    decreases |a|
    ensures WordLength(a + b) == |a|
  {
    if a != [] {
      assert (a + b)[1..] == a[1..] + b;
      WordLengthPrefix(a[1..], b);
    } else {
      assert a + b == b;
    }
  }

  /** A one-character pattern occurs exactly where that character is. */
  lemma OccursAtChar(s: string, c: char, j: int)
    requires 0 <= j
    ensures OccursAt(s, [c], j) <==> j < |s| && s[j] == c
  {
    if j < |s| {
      assert s[j..j + 1] == [s[j]];
    }
  }

  /** `s.find(c)` for a single character: the first index holding `c`. */
  lemma FindChar(s: string, c: char, k: nat)
    requires k <= |s| && (forall j :: 0 <= j < k ==> s[j] != c) && (k < |s| ==> s[k] == c)
    ensures Find(s, [c], 0) == if k < |s| then Some(k) else None
  {
    var r := Find(s, [c], 0);
    if r.Some? {
      var i := r.value;
      OccursAtChar(s, c, i);
      if k < i {
        OccursAtChar(s, c, k);
        assert false;
      }
    } else if k < |s| {
      OccursAtChar(s, c, k);
      assert false;
    }
  }

  /** `s.split()`: the maximal runs of non-whitespace characters, in order. */
  function SplitWs(s: string): (r: seq<string>)
    decreases |s|
    ensures forall k :: 0 <= k < |r| ==> r[k] != [] && forall i :: 0 <= i < |r[k]| ==> !IsSpace(r[k][i])
  {
    var t := LStrip(s);
    if t == [] then []
    else
      var n := WordLength(t);
      [t[..n]] + SplitWs(t[n..])
  }

  /** A string without surrounding whitespace is its own `strip()`. */
  lemma StripStripped(s: string)
    requires s != [] && !IsSpace(s[0]) && !IsSpace(s[|s| - 1])
    ensures Strip(s) == s
  {
    assert LeadingSpaces(s) == 0 && TrailingSpaces(s) == 0;
    assert LStrip(s) == s;
  }

  /** Leading whitespace does not change `split()`. */
  lemma SplitWsSpace(x: string)
    ensures SplitWs(" " + x) == SplitWs(x)
  {
    assert (" " + x)[1..] == x;
    assert LeadingSpaces(" " + x) == 1 + LeadingSpaces(x);
    assert LStrip(" " + x) == LStrip(x);
  }

  /** One space before a word-initial string is all that `lstrip` removes. */
  lemma LStripOneSpace(x: string)
    requires x != [] && !IsSpace(x[0])
    ensures LStrip(" " + x) == x
  {
    assert (" " + x)[1..] == x;
    assert LeadingSpaces(x) == 0;
    assert LeadingSpaces(" " + x) == 1;
  }

  /** A word followed by whitespace is the first token. */
  lemma SplitWsWord(a: string, b: string)
    requires a != [] && NoSpace(a) && b != [] && IsSpace(b[0])
    ensures SplitWs(a + b) == [a] + SplitWs(b)
  {
    assert LeadingSpaces(a + b) == 0;
    assert LStrip(a + b) == a + b;
    WordLengthPrefix(a, b);
    assert (a + b)[..|a|] == a && (a + b)[|a|..] == b;
  }

  /** A single word splits into itself. */
  lemma SplitWsSingle(a: string)
    requires a != [] && NoSpace(a)
    ensures SplitWs(a) == [a]
  {
    WordLengthAll(a);
    assert LeadingSpaces(a) == 0;
    assert a[|a|..] == [] && a[..|a|] == a;
    assert SplitWs([]) == [];
  }

  /** The whitespace run at the head of a string that ends in a non-space stops short of its end. */
  lemma LeadingSpacesShort(u: string)
    requires u != [] && !IsSpace(u[|u| - 1])
    ensures LeadingSpaces(u) < |u|
    ensures LStrip(u) != [] && !IsSpace(LStrip(u)[0])
  {
  }

  /** What `lstrip` leaves of a suffix of `t` that ends in a non-space: a non-empty suffix
      of `t` that starts with a non-space. */
  lemma LStripSuffix(t: string, n: nat)
    requires n < |t| && !IsSpace(t[|t| - 1])
    ensures var rest := LStrip(t[n..]); rest != [] && !IsSpace(rest[0]) && EndsWith(t, rest)
  {
    var u := t[n..];
    assert u[|u| - 1] == t[|t| - 1];
    LeadingSpacesShort(u);
    var l := LeadingSpaces(u);
    assert u[l..] == t[n + l..];
  }

  /** `t` is the word `a`, a non-empty run of whitespace, and the rest `b`, which starts
      with a non-space: the two parts `split(maxsplit=1)` gives. */
  predicate WordAndRest(t: string, a: string, b: string) {
    && a != [] && NoSpace(a) && b != [] && !IsSpace(b[0])
    && |a| + |b| < |t| && StartsWith(t, a) && EndsWith(t, b)
    && forall k :: |a| <= k < |t| - |b| ==> IsSpace(t[k])
  }

  /** A word of `n` non-spaces, a run of `l` spaces and a rest starting with a non-space
      that ends a string ending in a non-space. */
  lemma WordAndRestIntro(t: string, n: nat, l: nat)
    requires 0 < n && 0 < l && n + l < |t| && !IsSpace(t[|t| - 1])
    requires forall i :: 0 <= i < n ==> !IsSpace(t[i])
    requires forall k :: n <= k < n + l ==> IsSpace(t[k])
    requires !IsSpace(t[n + l])
    ensures WordAndRest(t, t[..n], t[n + l..])
  {
    var a, b := t[..n], t[n + l..];
    assert NoSpace(a) by {
      forall i | 0 <= i < |a| ensures !IsSpace(a[i]) { assert a[i] == t[i]; }
    }
    assert b[0] == t[n + l];
  }

  /** In a stripped string with a space, the first word and what `lstrip` leaves after it
      are a word and its rest. */
  lemma FirstWordSplit(t: string)
    requires IsStripped(t) && WordLength(t) < |t|
    ensures !NoSpace(t)
    ensures WordAndRest(t, t[..WordLength(t)], LStrip(t[WordLength(t)..]))
  {
    var n := WordLength(t);
    assert n > 0 by { assert !IsSpace(t[0]); }
    assert !NoSpace(t) by { assert IsSpace(t[n]); }
    WordThenRest(t, n);
  }

  /** The same, for a word of `n` non-spaces followed by a space. */
  lemma WordThenRest(t: string, n: nat)
    requires 0 < n < |t| && !IsSpace(t[|t| - 1])
    requires forall i :: 0 <= i < n ==> !IsSpace(t[i])
    requires IsSpace(t[n])
    ensures WordAndRest(t, t[..n], LStrip(t[n..]))
  {
    var u := t[n..];
    var l := LeadingSpaces(u);
    assert l > 0 by { assert u[0] == t[n]; }
    assert l < |u| && LStrip(u) == t[n + l..] && !IsSpace(t[n + l]) by {
      assert u[|u| - 1] == t[|t| - 1];
      LeadingSpacesShort(u);
      assert u[l] == t[n + l];
    }
    assert forall k :: n <= k < n + l ==> IsSpace(t[k]) by {
      forall k | n <= k < n + l ensures IsSpace(t[k]) { assert t[k] == u[k - n]; }
    }
    WordAndRestIntro(t, n, l);
  }

  /** `s.strip().split(maxsplit=1)`: at most two parts, the first word and the rest
      after the whitespace run that follows it. */
  function SplitOnce(s: string): (r: seq<string>)
    ensures |r| <= 2
    ensures r == [] <==> Strip(s) == []
    ensures |r| == 1 ==> r[0] == Strip(s) && NoSpace(r[0])
    ensures |r| == 2 <==> !NoSpace(Strip(s))
    ensures |r| == 2 ==> WordAndRest(Strip(s), r[0], r[1])
  {
    var t := Strip(s);
    if t == [] then []
    else
      var n := WordLength(t);
      if n == |t| then
        assert NoSpace(t);
        [t]
      else
        FirstWordSplit(t);
        [t[..n], LStrip(t[n..])]
  }

  /** A run of whitespace followed by a non-space is exactly the leading whitespace. */
  lemma {:induction false} LeadingSpacesRun(w: string, b: string)
    requires (forall k :: 0 <= k < |w| ==> IsSpace(w[k])) && b != [] && !IsSpace(b[0])
    decreases |w|
    ensures LeadingSpaces(w + b) == |w|
  {
    if w == [] {
      assert w + b == b;
    } else {
      assert (w + b)[1..] == w[1..] + b;
      LeadingSpacesRun(w[1..], b);
    }
  }

  /** A word and its rest are the first word of the string and what `lstrip` leaves after it. */
  lemma WordAndRestParts(t: string, a: string, b: string)
    requires WordAndRest(t, a, b)
    ensures WordLength(t) == |a| && t[..|a|] == a && LStrip(t[|a|..]) == b
  {
    var w := t[|a|..|t| - |b|];
    assert t == a + (w + b) by {
      assert t == t[..|a|] + t[|a|..|t| - |b|] + t[|t| - |b|..];
    }
    assert w != [] && IsSpace(w[0]) by { assert w[0] == t[|a|]; }
    WordLengthPrefix(a, w + b);
    assert t[|a|..] == w + b;
    assert forall k :: 0 <= k < |w| ==> IsSpace(w[k]) by {
      forall k | 0 <= k < |w| ensures IsSpace(w[k]) { assert w[k] == t[|a| + k]; }
    }
    LeadingSpacesRun(w, b);
    assert (w + b)[|w|..] == b;
  }

  /** A string is split into a word and its rest in one way only: the one `SplitOnce` gives. */
  lemma SplitOnceUnique(s: string, a: string, b: string)
    requires WordAndRest(Strip(s), a, b)
    ensures SplitOnce(s) == [a, b]
  {
    WordAndRestParts(Strip(s), a, b);
  }

  /** A word, one space and a stripped rest split back into the word and the rest. */
  lemma SplitOnceWords(a: string, b: string)
    requires a != [] && NoSpace(a) && b != [] && IsStripped(b)
    ensures SplitOnce(a + " " + b) == [a, b]
  {
    var s := a + " " + b;
    assert s == a + (" " + b);
    assert Strip(s) == s by {
      assert s[0] == a[0] && s[|s| - 1] == b[|b| - 1];
      StripStripped(s);
    }
    assert WordLength(s) == |a| by { WordLengthPrefix(a, " " + b); }
    assert s[..|a|] == a;
    assert LStrip(s[|a|..]) == b by {
      assert s[|a|..] == " " + b;
      LStripOneSpace(b);
    }
  }

  /** `sep.join(parts)`. */
  function Join(sep: string, parts: seq<string>): string
    decreases |parts|
  {
    if parts == [] then []
    else if |parts| == 1 then parts[0]
    else parts[0] + sep + Join(sep, parts[1..])
  }

  /** Five parts joined: each separator between two neighbours. */
  lemma JoinFive(sep: string, a: string, b: string, c: string, d: string, e: string)
    ensures Join(sep, [a, b, c, d, e]) == a + sep + b + sep + c + sep + d + sep + e
  {
    assert Join(sep, [d, e]) == d + sep + e by { assert [d, e][1..] == [e]; }
    assert Join(sep, [c, d, e]) == c + sep + Join(sep, [d, e]) by { assert [c, d, e][1..] == [d, e]; }
    assert Join(sep, [b, c, d, e]) == b + sep + Join(sep, [c, d, e]) by { assert [b, c, d, e][1..] == [c, d, e]; }
    assert Join(sep, [a, b, c, d, e]) == a + sep + Join(sep, [b, c, d, e]) by { assert [a, b, c, d, e][1..] == [b, c, d, e]; }
  }

  /** `s.split(sep)` for a non-empty separator: the pieces between successive occurrences. */
  function SplitOn(s: string, sep: string): (r: seq<string>)
    requires sep != []
    decreases |s|
    ensures |r| >= 1
    ensures Contains(s, sep) ==> |r| >= 2
  {
    match Find(s, sep, 0)
    case None => [s]
    case Some(i) =>
      ContainsIffFind(s, sep);
      [s[..i]] + SplitOn(s[i + |sep|..], sep)
  }

  /** The first piece of `s.split(sep)` is `s` up to the first occurrence of `sep`. */
  lemma SplitOnFirst(s: string, sep: string)
    requires sep != []
    ensures Find(s, sep, 0).Some? ==> SplitOn(s, sep)[0] == s[..Find(s, sep, 0).value]
    ensures Find(s, sep, 0).None? ==> SplitOn(s, sep) == [s]
  {
  }

  /** Splitting and re-joining with the same separator gives back the string. */
  lemma {:induction false} JoinSplitOn(s: string, sep: string)
    requires sep != []
    decreases |s|
    ensures Join(sep, SplitOn(s, sep)) == s
  {
    match Find(s, sep, 0)
    case None =>
    case Some(i) =>
      var rest := s[i + |sep|..];
      JoinSplitOn(rest, sep);
      assert SplitOn(s, sep) == [s[..i]] + SplitOn(rest, sep);
      assert s == s[..i] + sep + rest;
  }

  /** The first `", "` in a piece without one, followed by `", "`, is the one after it: the
      comma of the separator cannot start a second separator. */
  lemma FindCommaAfter(a: string, rest: string)
    requires !Contains(a, ", ")
    ensures Find(a + ", " + rest, ", ", 0) == Some(|a|)
  {
    var t := a + ", " + rest;
    assert OccursAt(t, ", ", |a|) by { assert t[|a|..|a| + 2] == ", "; }
    forall j | 0 <= j < |a| ensures !OccursAt(t, ", ", j) {
      if j + 2 <= |a| {
        assert t[j..j + 2] == a[j..j + 2];
        assert !OccursAt(a, ", ", j);
      } else {
        assert t[j + 1] == ',';
      }
    }
  }

  /** Splitting a piece free of `", "` off the front of `a, rest`. */
  lemma SplitOnCommaStep(a: string, rest: string)
    requires !Contains(a, ", ")
    ensures SplitOn(a + ", " + rest, ", ") == [a] + SplitOn(rest, ", ")
  {
    var t := a + ", " + rest;
    FindCommaAfter(a, rest);
    assert t[..|a|] == a;
    assert t[|a| + 2..] == rest;
  }

  /** `", ".join(parts).split(", ")` gives back the parts when none of them holds `", "`. */
  lemma {:induction false} SplitOnJoinComma(parts: seq<string>)
    requires parts != [] && forall k :: 0 <= k < |parts| ==> !Contains(parts[k], ", ")
    decreases |parts|
    ensures SplitOn(Join(", ", parts), ", ") == parts
  {
    if |parts| == 1 {
      ContainsIffFind(parts[0], ", ");
    } else {
      assert Join(", ", parts) == parts[0] + ", " + Join(", ", parts[1..]);
      SplitOnCommaStep(parts[0], Join(", ", parts[1..]));
      SplitOnJoinComma(parts[1..]);
      assert parts == [parts[0]] + parts[1..];
    }
  }
}
