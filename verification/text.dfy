/** The Python string operations the backend relies on: whitespace
    collapsing (`re.sub(r'\s+', ' ', s)`), `strip()`, `split()`,
    `split(sep)`, `sep.join(xs)`, `lower()`, `startswith` and the
    substring test `needle in hay`. */
module Text {

  /** Python's `str.isspace()`: the characters matched by `\s` and used by
      `split()` and `strip()` as separators. */
  predicate IsSpace(c: char) {
    || ('\U{9}' <= c <= '\U{D}')
    || ('\U{1C}' <= c <= '\U{20}')
    || c == '\U{85}' || c == '\U{A0}' || c == '\U{1680}'
    || ('\U{2000}' <= c <= '\U{200A}')
    || c == '\U{2028}' || c == '\U{2029}' || c == '\U{202F}'
    || c == '\U{205F}' || c == '\U{3000}'
  }

  predicate AllSpace(s: string) {
    forall i :: 0 <= i < |s| ==> IsSpace(s[i])
  }

  /** A token of `split()`: non-empty and free of whitespace. */
  predicate IsWord(w: string) {
    |w| > 0 && forall i :: 0 <= i < |w| ==> !IsSpace(w[i])
  }

  predicate IsPrefix(p: string, s: string) {
    |p| <= |s| && s[..|p|] == p
  }

  /** Python's `needle in hay`: `needle` is a prefix of some suffix of `hay`. */
  predicate Contains(hay: string, needle: string)
    decreases |hay|
  {
    IsPrefix(needle, hay) || (|hay| > 0 && Contains(hay[1..], needle))
  }

  predicate StartsWith(s: string, prefix: string) {
    IsPrefix(prefix, s)
  }

  // ---------------------------------------------------------------------
  // Whitespace runs

  /** Length of the leading run of whitespace. */
  function SpanSpaces(s: string): (n: nat)
    ensures n <= |s|
    ensures forall i :: 0 <= i < n ==> IsSpace(s[i])
    ensures n < |s| ==> !IsSpace(s[n])
  {
    if |s| == 0 || !IsSpace(s[0]) then 0 else 1 + SpanSpaces(s[1..])
  }

  /** Length of the leading run of non-whitespace. */
  function SpanWord(s: string): (n: nat)
    ensures n <= |s|
    ensures forall i :: 0 <= i < n ==> !IsSpace(s[i])
    ensures n < |s| ==> IsSpace(s[n])
  {
    if |s| == 0 || IsSpace(s[0]) then 0 else 1 + SpanWord(s[1..])
  }

  /** Positions `i` and `i + 1` both hold whitespace. */
  predicate SpacePair(s: string, i: int)
    requires 0 <= i < |s| - 1
  {
    IsSpace(s[i]) && IsSpace(s[i + 1])
  }

  /** Every whitespace character is a plain space and no two are adjacent:
      the shape `re.sub(r'\s+', ' ', s)` leaves behind. */
  predicate Collapsed(s: string) {
    && (forall i :: 0 <= i < |s| && IsSpace(s[i]) ==> s[i] == ' ')
    && (forall i :: 0 <= i < |s| - 1 ==> !SpacePair(s, i))
  }

  /** `re.sub(r'\s+', ' ', s)`: every maximal whitespace run becomes one space. */
  function Collapse(s: string): (r: string)
    ensures |r| == 0 <==> |s| == 0
    ensures |s| > 0 ==> (IsSpace(r[0]) <==> IsSpace(s[0]))
    ensures Collapsed(r)
    ensures AllSpace(r) <==> AllSpace(s)
    decreases |s|
  {
    if |s| == 0 then ""
    else if IsSpace(s[0]) then
      var rest := s[SpanSpaces(s)..];
      var t := Collapse(rest);
      // A non-empty rest starts with a non-space, so only an empty rest is all space.
      assert AllSpace(s) <==> |rest| == 0;
      assert |t| > 0 ==> !IsSpace(t[0]);
      assert AllSpace(" " + t) <==> AllSpace(t) by {
        if AllSpace(" " + t) {
          forall i | 0 <= i < |t| ensures IsSpace(t[i]) { assert t[i] == (" " + t)[i + 1]; }
        }
      }
      ConsCollapsed(' ', t);
      " " + t
    else
      var t := Collapse(s[1..]);
      assert !AllSpace(s);
      assert !AllSpace([s[0]] + t) by { assert ([s[0]] + t)[0] == s[0]; }
      ConsCollapsed(s[0], t);
      [s[0]] + t
  }

  /** Prefixing a collapsed string with a space or non-space keeps it
      collapsed as long as no second space is created. */
  lemma ConsCollapsed(c: char, t: string)
    requires Collapsed(t)
    requires IsSpace(c) ==> c == ' ' && (|t| > 0 ==> !IsSpace(t[0]))
    ensures Collapsed([c] + t)
  {
    var u := [c] + t;
    forall i | 0 <= i < |u| - 1 ensures !SpacePair(u, i) {
      if i > 0 { assert u[i] == t[i - 1] && u[i + 1] == t[i]; assert !SpacePair(t, i - 1); }
    }
    forall i | 0 <= i < |u| && IsSpace(u[i]) ensures u[i] == ' ' {
      if i > 0 { assert u[i] == t[i - 1]; }
    }
  }

  /** `lstrip()`. */
  function TrimStart(s: string): (r: string)
    ensures |r| <= |s|
    ensures r == s[|s| - |r|..]
    ensures AllSpace(s[..|s| - |r|])
    ensures |r| > 0 ==> !IsSpace(r[0])
  {
    s[SpanSpaces(s)..]
  }

  /** `rstrip()`. */
  function TrimEnd(s: string): (r: string)
    ensures |r| <= |s|
    ensures r == s[..|r|]
    ensures AllSpace(s[|r|..])
    ensures |r| > 0 ==> !IsSpace(r[|r| - 1])
    decreases |s|
  {
    if |s| == 0 || !IsSpace(s[|s| - 1]) then s
    else
      var r := TrimEnd(s[..|s| - 1]);
      assert s[|r|..] == s[..|s| - 1][|r|..] + [s[|s| - 1]];
      r
  }

  /** `strip()`. */
  function Strip(s: string): string {
    TrimEnd(TrimStart(s))
  }

  /** `re.sub(r'\s+', ' ', s).strip()`: the normalisation the chunker and the
      keyword retriever apply to their input. */
  function Normalize(s: string): string {
    Strip(Collapse(s))
  }

  /** A normalised string: its only whitespace is single inner spaces. */
  predicate IsNormal(s: string) {
    Collapsed(s) && (|s| > 0 ==> !IsSpace(s[0]) && !IsSpace(s[|s| - 1]))
  }

  /** `split()` with no argument: the maximal runs of non-whitespace. */
  function Words(s: string): (ws: seq<string>)
    ensures forall i :: 0 <= i < |ws| ==> IsWord(ws[i])
    decreases |s|
  {
    var t := s[SpanSpaces(s)..];
    if |t| == 0 then []
    else
      var n := SpanWord(t);
      [t[..n]] + Words(t[n..])
  }

  /** `sep.join(xs)`. */
  function Join(sep: string, xs: seq<string>): string {
    if |xs| == 0 then ""
    else if |xs| == 1 then xs[0]
    else xs[0] + sep + Join(sep, xs[1..])
  }

  // ---------------------------------------------------------------------
  // Splitting on a separator

  /** `s.find(pat)`: the first index at which `pat` occurs, or -1
      (`IndexOfSpec` states that it is the first and that -1 means absent). */
  function IndexOf(s: string, pat: string): (r: int)
    ensures -1 <= r <= |s|
    ensures r >= 0 ==> IsPrefix(pat, s[r..])
    decreases |s|
  {
    if IsPrefix(pat, s) then 0
    else if |s| == 0 then -1
    else
      var k := IndexOf(s[1..], pat);
      if k < 0 then -1 else (assert s[1..][k..] == s[k + 1..]; k + 1)
  }

  /** `s.split(sep)` for a non-empty separator (Python rejects an empty one). */
  function SplitOn(s: string, sep: string): (parts: seq<string>)
    requires |sep| > 0
    ensures |parts| >= 1
    decreases |s|
  {
    var k := IndexOf(s, sep);
    if k < 0 then [s] else [s[..k]] + SplitOn(s[k + |sep|..], sep)
  }

  // ---------------------------------------------------------------------
  // Case

  /** `lower()` on one character; only ASCII letters are mapped. */
  function LowerChar(c: char): char {
    if 'A' <= c <= 'Z' then (c as int + 32) as char else c
  }

  function Lower(s: string): (r: string)
    ensures |r| == |s|
    ensures forall i :: 0 <= i < |s| ==> r[i] == LowerChar(s[i])
  {
    seq(|s|, i requires 0 <= i < |s| => LowerChar(s[i]))
  }

  /** Number of occurrences of `c` in `s`. */
  function Count(c: char, s: string): nat {
    if |s| == 0 then 0 else (if s[0] == c then 1 else 0) + Count(c, s[1..])
  }

  // ---------------------------------------------------------------------
  // Facts

  lemma CollapsedSlice(s: string, lo: nat, hi: nat)
    requires lo <= hi <= |s| && Collapsed(s)
    ensures Collapsed(s[lo..hi])
  {
    var t := s[lo..hi];
    forall i | 0 <= i < |t| - 1 ensures !SpacePair(t, i) {
      assert t[i] == s[lo + i] && t[i + 1] == s[lo + i + 1];
      assert !SpacePair(s, lo + i);
    }
    forall i | 0 <= i < |t| && IsSpace(t[i]) ensures t[i] == ' ' {
      assert t[i] == s[lo + i];
    }
  }

  /** Collapsing and then stripping leaves only single inner spaces. */
  lemma NormalizeIsNormal(s: string)
    ensures IsNormal(Normalize(s))
  {
    var c := Collapse(s);
    var a := TrimStart(c);
    CollapsedSlice(c, |c| - |a|, |c|);
    assert a == c[|c| - |a|..|c|];
    var b := TrimEnd(a);
    CollapsedSlice(a, 0, |b|);
    assert b == a[0..|b|];
    assert |b| > 0 ==> b[0] == a[0];
  }

  /** Normalisation yields the empty string exactly for all-whitespace input. */
  lemma NormalizeEmptyIff(s: string)
    ensures Normalize(s) == "" <==> AllSpace(s)
  {
    var c := Collapse(s);
    var a := TrimStart(c);
    var b := TrimEnd(a);
    if b == "" {
      assert a[0..] == a;
      assert |a| == 0;
      assert c[..|c|] == c;
    }
  }

  /** `split()` finds no word exactly in all-whitespace text. */
  lemma WordsEmptyIff(s: string)
    ensures Words(s) == [] <==> AllSpace(s)
  {
    var k := SpanSpaces(s);
    if !AllSpace(s) {
      var i :| 0 <= i < |s| && !IsSpace(s[i]);
      assert k <= i;
    }
  }

  lemma SplitAround(s: string, k: nat, sep: string)
    requires k + |sep| <= |s| && IsPrefix(sep, s[k..])
    ensures s == s[..k] + sep + s[k + |sep|..]
  {
    assert s == s[..k] + s[k..][..|sep|] + s[k + |sep|..];
  }

  lemma JoinCons(sep: string, x: string, xs: seq<string>)
    requires |xs| > 0
    ensures Join(sep, [x] + xs) == x + sep + Join(sep, xs)
  {
    assert ([x] + xs)[1..] == xs;
  }

  /** One step of `split()` on text that starts with a word. */
  lemma WordsStep(n: string)
    requires |n| > 0 && !IsSpace(n[0])
    ensures Words(n) == [n[..SpanWord(n)]] + Words(n[SpanWord(n)..])
  {
    assert n[SpanSpaces(n)..] == n;
  }

  /** `split()` skips a single separating space. */
  lemma WordsSkipSpace(r: string)
    requires |r| > 1 && IsSpace(r[0]) && !IsSpace(r[1])
    ensures Words(r) == Words(r[1..])
  {
    assert SpanSpaces(r) == 1;
    assert r[1..][SpanSpaces(r[1..])..] == r[1..];
  }

  lemma NormalAfterSpace(n: string, k: nat)
    requires IsNormal(n) && k < |n| && IsSpace(n[k])
    ensures 0 < k && k + 1 < |n| && n[k] == ' ' && IsNormal(n[k + 1..])
  {
    assert !SpacePair(n, k);
    CollapsedSlice(n, k + 1, |n|);
    assert n[k + 1..] == n[k + 1..|n|];
  }

  /** A normalised text made of one word is its own `split()`. */
  lemma WordsOfWord(n: string)
    requires |n| > 0 && !IsSpace(n[0]) && SpanWord(n) == |n|
    ensures Words(n) == [n]
  {
    WordsStep(n);
    assert n[..|n|] == n;
    assert n[|n|..] == "";
    assert Words("") == [];
  }

  /** A normalised text whose first word ends at `k` splits into that word
      and the words after the separating space. */
  lemma WordsOfNormalStep(n: string, k: nat)
    requires IsNormal(n) && |n| > 0 && k == SpanWord(n) < |n|
    ensures k + 1 < |n| && IsNormal(n[k + 1..]) && n[k] == ' '
    ensures Words(n) == [n[..k]] + Words(n[k + 1..])
    ensures |Words(n[k + 1..])| > 0
  {
    NormalAfterSpace(n, k);
    var m := n[k + 1..];
    WordsStep(n);
    assert n[k..][1..] == m;
    WordsSkipSpace(n[k..]);
    WordsStep(m);
  }

  /** On normalised text, joining the words of `split()` with single
      spaces gives the text back. */
  lemma {:induction false} JoinWordsOfNormal(n: string)
    requires IsNormal(n)
    ensures Join(" ", Words(n)) == n
    decreases |n|
  {
    if |n| > 0 {
      var k := SpanWord(n);
      if k == |n| {
        WordsOfWord(n);
      } else {
        WordsOfNormalStep(n, k);
        var m := n[k + 1..];
        JoinWordsOfNormal(m);
        JoinCons(" ", n[..k], Words(m));
        SplitAround(n, k, " ");
      }
    }
  }

  /** `sep.join(s.split(sep)) == s`. */
  lemma {:induction false} JoinSplitOn(s: string, sep: string)
    requires |sep| > 0
    ensures Join(sep, SplitOn(s, sep)) == s
    decreases |s|
  {
    var k := IndexOf(s, sep);
    if k >= 0 {
      var rest := s[k + |sep|..];
      var ps := SplitOn(rest, sep);
      assert SplitOn(s, sep) == [s[..k]] + ps;
      JoinSplitOn(rest, sep);
      JoinCons(sep, s[..k], ps);
      SplitAround(s, k, sep);
    }
  }

  lemma {:induction false} CountConcat(c: char, a: string, b: string)
    ensures Count(c, a + b) == Count(c, a) + Count(c, b)
    decreases |a|
  {
    if |a| == 0 {
      assert a + b == b;
    } else {
      assert (a + b)[1..] == a[1..] + b;
      CountConcat(c, a[1..], b);
    }
  }

  /** A string without `c` holds no copy of it. */
  lemma {:induction false} CountAbsent(c: char, s: string)
    requires c !in s
    ensures Count(c, s) == 0
  {
    if |s| > 0 {
      assert s == [s[0]] + s[1..];
      CountAbsent(c, s[1..]);
    }
  }

  /** Joining pieces that each hold `q` (0 or 1) copies of `c` with a
      separator that holds none yields `q` copies per piece. */
  lemma {:induction false} CountJoin(c: char, sep: string, xs: seq<string>, q: nat)
    requires q <= 1
    requires Count(c, sep) == 0
    requires forall i :: 0 <= i < |xs| ==> Count(c, xs[i]) == q
    ensures Count(c, Join(sep, xs)) == if q == 0 then 0 else |xs|
    decreases |xs|
  {
    if |xs| == 1 {
      assert Count(c, Join(sep, xs)) == Count(c, xs[0]);
    } else if |xs| > 1 {
      var tail := Join(sep, xs[1..]);
      CountJoin(c, sep, xs[1..], q);
      assert Join(sep, xs) == xs[0] + sep + tail;
      CountConcat(c, xs[0] + sep, tail);
      CountConcat(c, xs[0], sep);
      assert Count(c, xs[0]) == q;
    }
  }

  /** `find` returns the first occurrence, and -1 exactly when `in` is false. */
  lemma {:induction false} IndexOfSpec(s: string, pat: string)
    ensures IndexOf(s, pat) < 0 <==> !Contains(s, pat)
    ensures forall j :: 0 <= j < IndexOf(s, pat) ==> !IsPrefix(pat, s[j..])
    decreases |s|
  {
    if !IsPrefix(pat, s) && |s| > 0 {
      IndexOfSpec(s[1..], pat);
      var k := IndexOf(s[1..], pat);
      forall j | 0 <= j < IndexOf(s, pat) ensures !IsPrefix(pat, s[j..]) {
        if j > 0 { assert s[1..][j - 1..] == s[j..]; }
      }
    }
  }

  /** `s.split(sep)` has a single piece exactly when `sep` does not occur. */
  lemma SplitOnSingle(s: string, sep: string)
    requires |sep| > 0
    ensures |SplitOn(s, sep)| == 1 <==> !Contains(s, sep)
  {
    IndexOfSpec(s, sep);
  }

  /** No piece of `s.split(sep)` contains `sep`. */
  lemma {:induction false} SplitOnPiecesFree(s: string, sep: string)
    requires |sep| > 0
    ensures forall i :: 0 <= i < |SplitOn(s, sep)| ==> !Contains(SplitOn(s, sep)[i], sep)
    decreases |s|
  {
    var k := IndexOf(s, sep);
    IndexOfSpec(s, sep);
    if k >= 0 {
      var rest := s[k + |sep|..];
      SplitOnPiecesFree(rest, sep);
      PrefixFree(s, sep, k);
      assert SplitOn(s, sep) == [s[..k]] + SplitOn(rest, sep);
    }
  }

  /** A prefix that ends before the first occurrence of `sep` does not contain it. */
  lemma {:induction false} PrefixFree(s: string, sep: string, k: nat)
    requires |sep| > 0 && k <= |s|
    requires forall j :: 0 <= j < k ==> !IsPrefix(sep, s[j..])
    ensures !Contains(s[..k], sep)
    decreases k
  {
    if k > 0 {
      assert !IsPrefix(sep, s[..k]) by {
        if |sep| <= k { assert s[..k][..|sep|] == s[0..][..|sep|]; }
      }
      assert s[..k][1..] == s[1..][..k - 1];
      forall j | 0 <= j < k - 1 ensures !IsPrefix(sep, s[1..][j..]) {
        assert s[1..][j..] == s[j + 1..];
      }
      PrefixFree(s[1..], sep, k - 1);
    }
  }

  // ---------------------------------------------------------------------
  // Single words and literal text

  lemma {:induction false} SpanWordOfWord(w: string)
    requires forall i :: 0 <= i < |w| ==> !IsSpace(w[i])
    ensures SpanWord(w) == |w|
    decreases |w|
  {
    if |w| > 0 { SpanWordOfWord(w[1..]); }
  }

  /** A single word splits into itself. */
  lemma WordsOfSingle(w: string)
    requires IsWord(w)
    ensures Words(w) == [w]
  {
    SpanWordOfWord(w);
    WordsOfWord(w);
  }

  /** Text without whitespace is left alone by collapsing and stripping. */
  lemma {:induction false} NormalizeWord(w: string)
    requires IsWord(w)
    ensures Collapse(w) == w && Strip(w) == w
    decreases |w|
  {
    if |w| > 1 {
      NormalizeWord(w[1..]);
      assert w == [w[0]] + w[1..];
    }
    assert SpanSpaces(w) == 0;
    assert w[0..] == w;
  }

  /** Lowercasing text without ASCII capitals changes nothing. */
  lemma LowerUnchanged(s: string)
    requires forall i :: 0 <= i < |s| ==> !('A' <= s[i] <= 'Z')
    ensures Lower(s) == s
  {
  }

  /** An occurrence at position `k` makes `needle in hay` true. */
  lemma {:induction false} ContainsAt(hay: string, needle: string, k: nat)
    requires k + |needle| <= |hay| && hay[k..k + |needle|] == needle
    ensures Contains(hay, needle)
    decreases k
  {
    if k > 0 {
      assert hay[1..][k - 1..k - 1 + |needle|] == needle;
      ContainsAt(hay[1..], needle, k - 1);
    }
  }

  /** A needle whose first character never occurs in `hay` is not in it. */
  lemma {:induction false} NotContainsFirst(hay: string, needle: string)
    requires |needle| > 0 && forall i :: 0 <= i < |hay| ==> hay[i] != needle[0]
    ensures !Contains(hay, needle)
    decreases |hay|
  {
    if |hay| > 0 {
      assert !IsPrefix(needle, hay) by {
        if |needle| <= |hay| { assert hay[..|needle|][0] == hay[0]; }
      }
      NotContainsFirst(hay[1..], needle);
    }
  }

  /** A piece of a concatenation occurs in it. */
  lemma ContainsInfix(a: string, b: string, c: string)
    ensures Contains(a + b + c, b)
  {
    var s := a + b + c;
    assert s[|a|..|a| + |b|] == b;
    ContainsAt(s, b, |a|);
  }

  /** Text found in a suffix is found in the whole. */
  lemma {:induction false} ContainsInSuffix(a: string, b: string, needle: string)
    requires Contains(b, needle)
    ensures Contains(a + b, needle)
    decreases |a|
  {
    if |a| > 0 {
      assert (a + b)[1..] == a[1..] + b;
      ContainsInSuffix(a[1..], b, needle);
    } else {
      assert a + b == b;
    }
  }

  /** `find` stops at the first separator when the text before it cannot
      start one. */
  lemma {:induction false} IndexOfAfter(a: string, sep: string, b: string)
    requires |sep| > 0 && sep[0] !in a
    ensures IndexOf(a + sep + b, sep) == |a|
    decreases |a|
  {
    var s := a + sep + b;
    if |a| == 0 {
      assert s == sep + b && s[..|sep|] == sep;
    } else {
      assert s[..|sep|][0] == a[0];
      assert s[1..] == a[1..] + sep + b;
      IndexOfAfter(a[1..], sep, b);
    }
  }

  /** `find` fails when the separator's first character never occurs. */
  lemma {:induction false} IndexOfAbsent(s: string, sep: string)
    requires |sep| > 0 && sep[0] !in s
    ensures IndexOf(s, sep) == -1
    decreases |s|
  {
    if |s| > 0 {
      assert |sep| <= |s| ==> s[..|sep|][0] == s[0];
      IndexOfAbsent(s[1..], sep);
    }
  }

  /** Splitting `a + sep + b` yields `a` first, then the pieces of `b`. */
  lemma SplitOnAfter(a: string, sep: string, b: string)
    requires |sep| > 0 && sep[0] !in a
    ensures SplitOn(a + sep + b, sep) == [a] + SplitOn(b, sep)
  {
    var s := a + sep + b;
    IndexOfAfter(a, sep, b);
    assert s[..|a|] == a && s[|a| + |sep|..] == b;
  }

  /** Text without the separator's first character splits into itself. */
  lemma SplitOnAbsent(s: string, sep: string)
    requires |sep| > 0 && sep[0] !in s
    ensures SplitOn(s, sep) == [s]
  {
    IndexOfAbsent(s, sep);
  }
}
