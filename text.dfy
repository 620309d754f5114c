/**
 * The JavaScript string primitives the editing screen relies on:
 * `String.prototype.trim`, `split(/\s+/)` followed by `filter(word => word)`,
 * and `String.prototype.length`, which counts UTF-16 code units.
 *
 * A Dafny `char` is a Unicode scalar value; a JavaScript string is a sequence
 * of UTF-16 code units. `trim` and `\s` are defined over the same set of code
 * points (ECMAScript WhiteSpace and LineTerminator), none of which is a
 * surrogate, so they act alike on either representation. Only the length
 * differs, and `Utf16Length` accounts for it.
 */
module Text {

  /**
   * The code points that `trim` strips and `\s` matches: ECMAScript
   * WhiteSpace (TAB, VT, FF, SP, NBSP, ZWNBSP and the other Zs spaces) and
   * LineTerminator (LF, CR, LS, PS).
   */
  predicate IsWhitespace(c: char) {
    || c == ' ' || c == '\t' || c == '\n' || c == '\r' || c == '\U{000B}' || c == '\U{000C}'
    || c == '\U{00A0}' || c == '\U{1680}' || ('\U{2000}' <= c <= '\U{200A}')
    || c == '\U{2028}' || c == '\U{2029}' || c == '\U{202F}' || c == '\U{205F}'
    || c == '\U{3000}' || c == '\U{FEFF}'
  }

  predicate AllWhitespace(s: string) {
    forall i :: 0 <= i < |s| ==> IsWhitespace(s[i])
  }

  predicate NoWhitespace(s: string) {
    forall i :: 0 <= i < |s| ==> !IsWhitespace(s[i])
  }

  /** Neither begins nor ends with whitespace. */
  predicate IsTrimmed(s: string) {
    s == [] || (!IsWhitespace(s[0]) && !IsWhitespace(s[|s| - 1]))
  }

  /** Number of whitespace characters `s` starts with. */
  function LeadingGap(s: string): (n: nat)
    ensures n <= |s|
    ensures forall i :: 0 <= i < n ==> IsWhitespace(s[i])
    ensures n < |s| ==> !IsWhitespace(s[n])
  {
    if s == [] || !IsWhitespace(s[0]) then 0 else 1 + LeadingGap(s[1..])
  }

  /** Number of whitespace characters `s` ends with. */
  function TrailingGap(s: string): (n: nat)
    ensures n <= |s|
    ensures forall i :: |s| - n <= i < |s| ==> IsWhitespace(s[i])
    ensures n < |s| ==> !IsWhitespace(s[|s| - n - 1])
  {
    if s == [] || !IsWhitespace(s[|s| - 1]) then 0 else 1 + TrailingGap(s[..|s| - 1])
  }

  /** Number of non-whitespace characters `s` starts with. */
  function LeadingWord(s: string): (n: nat)
    ensures n <= |s|
    ensures forall i :: 0 <= i < n ==> !IsWhitespace(s[i])
    ensures n < |s| ==> IsWhitespace(s[n])
  {
    if s == [] || IsWhitespace(s[0]) then 0 else 1 + LeadingWord(s[1..])
  }

  /**
   * `s.trim()`: drops the leading whitespace, then the trailing whitespace of
   * what is left.
   */
  function Trim(s: string): (r: string)
    ensures IsTrimmed(r)
    ensures LeadingGap(s) + |r| <= |s| && r == s[LeadingGap(s)..LeadingGap(s) + |r|]
    ensures forall i :: LeadingGap(s) + |r| <= i < |s| ==> IsWhitespace(s[i])
    ensures r == [] <==> AllWhitespace(s)
  {
    var t := s[LeadingGap(s)..];
    TrimShape(s, t);
    t[..|t| - TrailingGap(t)]
  }

  lemma TrimShape(s: string, t: string)
    requires t == s[LeadingGap(s)..]
    ensures var r := t[..|t| - TrailingGap(t)];
      && IsTrimmed(r)
      && (forall i :: LeadingGap(s) + |r| <= i < |s| ==> IsWhitespace(s[i]))
      && (r == [] <==> AllWhitespace(s))
  {
    var a := LeadingGap(s);
    var r := t[..|t| - TrailingGap(t)];
    if r != [] {
      assert r[0] == t[0] == s[a];
    }
    forall i | a + |r| <= i < |s| ensures IsWhitespace(s[i]) {
      assert s[i] == t[i - a];
    }
  }

  /** Trimming twice is trimming once. */
  lemma TrimIdempotent(s: string)
    ensures Trim(Trim(s)) == Trim(s)
  {
    TrimmedIsFixed(Trim(s));
  }

  /** A string that neither begins nor ends with whitespace is its own trim. */
  lemma TrimmedIsFixed(s: string)
    requires IsTrimmed(s)
    ensures Trim(s) == s
  {
    assert LeadingGap(s) == 0;
    assert TrailingGap(s) == 0;
    assert s[0..][..|s|] == s;
  }

  /** The characters of `s` that are not whitespace, in order. */
  function NonWhitespace(s: string): (r: string)
    ensures NoWhitespace(r)
  {
    if s == [] then []
    else if IsWhitespace(s[0]) then NonWhitespace(s[1..])
    else [s[0]] + NonWhitespace(s[1..])
  }

  lemma {:induction false} NonWhitespaceAppend(a: string, b: string)
    ensures NonWhitespace(a + b) == NonWhitespace(a) + NonWhitespace(b)
  {
    if a == [] {
      assert a + b == b;
    } else {
      assert (a + b)[0] == a[0];
      assert (a + b)[1..] == a[1..] + b;
      NonWhitespaceAppend(a[1..], b);
    }
  }

  lemma NonWhitespaceSplit(s: string, i: nat)
    requires i <= |s|
    ensures NonWhitespace(s) == NonWhitespace(s[..i]) + NonWhitespace(s[i..])
  {
    assert s == s[..i] + s[i..];
    NonWhitespaceAppend(s[..i], s[i..]);
  }

  lemma {:induction false} NonWhitespaceOfWord(s: string)
    requires NoWhitespace(s)
    ensures NonWhitespace(s) == s
  {
    if s != [] { NonWhitespaceOfWord(s[1..]); }
  }

  lemma {:induction false} NonWhitespaceOfGap(s: string)
    requires AllWhitespace(s)
    ensures NonWhitespace(s) == []
  {
    if s != [] { NonWhitespaceOfGap(s[1..]); }
  }

  lemma {:induction false} NonWhitespaceOfText(s: string, k: nat)
    requires k < |s| && !IsWhitespace(s[k])
    ensures NonWhitespace(s) != []
  {
    if IsWhitespace(s[0]) { NonWhitespaceOfText(s[1..], k - 1); }
  }

  /** Trimming removes only whitespace. */
  lemma TrimKeepsText(s: string)
    ensures NonWhitespace(Trim(s)) == NonWhitespace(s)
  {
    var a := LeadingGap(s);
    var t := Trim(s);
    var mid := s[a..];
    NonWhitespaceSplit(s, a);
    GapPrefix(s);
    NonWhitespaceSplit(mid, |t|);
    assert mid[..|t|] == t;
    NonWhitespaceOfGap(mid[|t|..]);
  }

  function Concat(parts: seq<string>): string {
    if parts == [] then [] else parts[0] + Concat(parts[1..])
  }

  /**
   * `s.split(/\s+/)`: the pieces between maximal runs of whitespace, so a
   * leading or trailing run yields an empty first or last piece, and the
   * empty string yields one empty piece.
   */
  function SplitWhitespace(s: string): (parts: seq<string>)
    ensures |parts| >= 1
    ensures forall k :: 0 <= k < |parts| ==> NoWhitespace(parts[k])
    ensures forall k :: 0 < k < |parts| - 1 ==> parts[k] != []
    decreases |s|
  {
    var n := LeadingWord(s);
    if n == |s| then [s]
    else
      var rest := s[n..];
      [s[..n]] + SplitWhitespace(rest[LeadingGap(rest)..])
  }

  /** The pieces of a split, put back together, are the non-whitespace characters. */
  lemma {:induction false} SplitKeepsText(s: string)
    ensures Concat(SplitWhitespace(s)) == NonWhitespace(s)
    decreases |s|
  {
    var n := LeadingWord(s);
    if n == |s| {
      NonWhitespaceOfWord(s);
      assert Concat([s]) == s + Concat([]);
    } else {
      var rest := s[n..];
      var tail := rest[LeadingGap(rest)..];
      SplitKeepsText(tail);
      assert SplitWhitespace(s) == [s[..n]] + SplitWhitespace(tail);
      assert Concat([s[..n]] + SplitWhitespace(tail)) == s[..n] + Concat(SplitWhitespace(tail));
      WordThenGap(s, n, rest, tail);
    }
  }

  /** Peeling one word and the gap after it off the non-whitespace characters. */
  lemma WordThenGap(s: string, n: nat, rest: string, tail: string)
    requires n == LeadingWord(s) < |s| && rest == s[n..] && tail == rest[LeadingGap(rest)..]
    ensures NonWhitespace(s) == s[..n] + NonWhitespace(tail)
  {
    NonWhitespaceSplit(s, n);
    WordPrefix(s);
    NonWhitespaceSplit(rest, LeadingGap(rest));
    GapPrefix(rest);
    assert NonWhitespace(rest) == NonWhitespace(tail);
  }

  lemma WordPrefix(s: string)
    ensures NonWhitespace(s[..LeadingWord(s)]) == s[..LeadingWord(s)]
  {
    var w := s[..LeadingWord(s)];
    assert NoWhitespace(w) by {
      forall i | 0 <= i < |w| ensures !IsWhitespace(w[i]) { assert w[i] == s[i]; }
    }
    NonWhitespaceOfWord(w);
  }

  lemma GapPrefix(s: string)
    ensures NonWhitespace(s[..LeadingGap(s)]) == []
  {
    var g := s[..LeadingGap(s)];
    assert AllWhitespace(g) by {
      forall i | 0 <= i < |g| ensures IsWhitespace(g[i]) { assert g[i] == s[i]; }
    }
    NonWhitespaceOfGap(g);
  }

  /** `parts.filter(word => word)`: drops the empty pieces. */
  function NonEmpty(parts: seq<string>): (r: seq<string>)
    ensures |r| <= |parts|
    ensures forall k :: 0 <= k < |r| ==> r[k] != [] && r[k] in parts
    ensures Concat(r) == Concat(parts)
    ensures |parts| == 1 ==> r == if parts[0] == [] then [] else parts
  {
    if parts == [] then []
    else if parts[0] == [] then NonEmpty(parts[1..])
    else [parts[0]] + NonEmpty(parts[1..])
  }

  /** `s.trim().split(/\s+/).filter(word => word)`: the words of `s`. */
  function Words(s: string): (ws: seq<string>)
    ensures forall k :: 0 <= k < |ws| ==> ws[k] != [] && NoWhitespace(ws[k])
    ensures ws == Runs(s)
  {
    FilteredSplitIsRuns(Trim(s));
    RunsIgnoreTrim(s);
    NonEmpty(SplitWhitespace(Trim(s)))
  }

  /** The words, joined, are exactly the non-whitespace characters of the text. */
  lemma WordsKeepText(s: string)
    ensures Concat(Words(s)) == NonWhitespace(s)
  {
    SplitKeepsText(Trim(s));
    TrimKeepsText(s);
  }

  /** There are no words exactly when the text is empty or whitespace only. */
  lemma NoWordsIffBlank(s: string)
    ensures Words(s) == [] <==> AllWhitespace(s)
  {
    WordsKeepText(s);
    if AllWhitespace(s) {
      NonWhitespaceOfGap(s);
    } else {
      var k :| 0 <= k < |s| && !IsWhitespace(s[k]);
      NonWhitespaceOfText(s, k);
    }
  }

  /** Two words with one space between them are two words. */
  lemma TwoWords(w1: string, w2: string)
    requires w1 != [] && w2 != [] && NoWhitespace(w1) && NoWhitespace(w2)
    ensures Words(w1 + " " + w2) == [w1, w2]
  {
    var s := w1 + " " + w2;
    assert s[0] == w1[0] && s[|s| - 1] == w2[|w2| - 1];
    TrimmedIsFixed(s);
    LeadingWordOf(w1, " " + w2);
    assert s == w1 + (" " + w2);
    var rest := s[|w1|..];
    assert rest == " " + w2;
    assert LeadingGap(rest) == 1 by {
      assert rest[0] == ' ' && rest[1..] == w2 && w2[0] == rest[1];
    }
    assert rest[1..] == w2;
    LeadingWordOf(w2, []);
    assert w2 + [] == w2;
    assert SplitWhitespace(w2) == [w2];
    assert SplitWhitespace(s) == [w1, w2];
    assert NonEmpty([w2]) == [w2];
    assert NonEmpty([w1, w2]) == [w1] + NonEmpty([w2]);
  }

  /** A whitespace-free word followed by nothing or by whitespace is the leading word. */
  lemma {:induction false} LeadingWordOf(w: string, rest: string)
    requires NoWhitespace(w) && (rest == [] || IsWhitespace(rest[0]))
    ensures LeadingWord(w + rest) == |w|
  {
    if w == [] {
      assert w + rest == rest;
    } else {
      assert (w + rest)[0] == w[0];
      assert (w + rest)[1..] == w[1..] + rest;
      LeadingWordOf(w[1..], rest);
    }
  }

  /** Filtering a list is filtering each part of it: the kept pieces stay in order. */
  lemma {:induction false} NonEmptyKeepsOrder(a: seq<string>, b: seq<string>)
    ensures NonEmpty(a + b) == NonEmpty(a) + NonEmpty(b)
  {
    if a == [] {
      assert a + b == b;
    } else {
      assert (a + b)[0] == a[0];
      assert (a + b)[1..] == a[1..] + b;
      NonEmptyKeepsOrder(a[1..], b);
    }
  }

  /** `parts[0] + gaps[0] + parts[1] + ... + parts[|parts| - 1]`. */
  function Interleave(parts: seq<string>, gaps: seq<string>): string
    requires |parts| == |gaps| + 1
    decreases |gaps|
  {
    if gaps == [] then parts[0] else parts[0] + gaps[0] + Interleave(parts[1..], gaps[1..])
  }

  /** The runs of whitespace that `s.split(/\s+/)` cuts `s` at, in order. */
  function Gaps(s: string): (gaps: seq<string>)
    ensures forall k :: 0 <= k < |gaps| ==> gaps[k] != [] && AllWhitespace(gaps[k])
    decreases |s|
  {
    var n := LeadingWord(s);
    if n == |s| then []
    else
      var rest := s[n..];
      var g := LeadingGap(rest);
      assert g >= 1 && AllWhitespace(rest[..g]) by {
        assert rest[0] == s[n];
        forall i | 0 <= i < g ensures IsWhitespace(rest[..g][i]) { assert rest[..g][i] == rest[i]; }
      }
      [rest[..g]] + Gaps(rest[g..])
  }

  /**
   * A split is undone by putting back the whitespace it cut out: the
   * pieces, which hold no whitespace, alternate with non-empty runs of
   * whitespace and together make up `s` again.
   */
  lemma {:induction false} SplitRoundTrip(s: string)
    ensures |Gaps(s)| == |SplitWhitespace(s)| - 1
    ensures Interleave(SplitWhitespace(s), Gaps(s)) == s
    decreases |s|
  {
    var n := LeadingWord(s);
    if n < |s| {
      var rest := s[n..];
      var g := LeadingGap(rest);
      var tail := rest[g..];
      SplitRoundTrip(tail);
      var parts := [s[..n]] + SplitWhitespace(tail);
      var gaps := [rest[..g]] + Gaps(tail);
      assert SplitWhitespace(s) == parts;
      assert Gaps(s) == gaps;
      assert parts[1..] == SplitWhitespace(tail) && gaps[1..] == Gaps(tail);
      calc {
        Interleave(parts, gaps);
        parts[0] + gaps[0] + Interleave(parts[1..], gaps[1..]);
        s[..n] + rest[..g] + tail;
        { Reassemble(s, n, g); }
        s;
      }
    }
  }

  lemma Reassemble(s: string, n: nat, g: nat)
    requires n + g <= |s|
    ensures s[..n] + s[n..][..g] + s[n..][g..] == s
  {
    var rest := s[n..];
    assert rest[..g] + rest[g..] == rest;
    assert s[..n] + rest == s;
  }

  /**
   * The maximal runs of non-whitespace characters of `s`, in order: its
   * whitespace-separated tokens, defined without `trim`, `split` or
   * `filter`.
   */
  function Runs(s: string): (runs: seq<string>)
    ensures forall k :: 0 <= k < |runs| ==> runs[k] != [] && NoWhitespace(runs[k])
    decreases |s|
  {
    var t := s[LeadingGap(s)..];
    if t == [] then []
    else
      var n := LeadingWord(t);
      assert n >= 1 && NoWhitespace(t[..n]) by {
        assert t[0] == s[LeadingGap(s)];
        forall i | 0 <= i < n ensures !IsWhitespace(t[..n][i]) { assert t[..n][i] == t[i]; }
      }
      [t[..n]] + Runs(t[n..])
  }

  /** Leading whitespace holds no token. */
  lemma RunsSkipGap(s: string)
    ensures Runs(s[LeadingGap(s)..]) == Runs(s)
  {
    var t := s[LeadingGap(s)..];
    assert LeadingGap(t) == 0 by {
      if t != [] { assert t[0] == s[LeadingGap(s)]; }
    }
    assert t[0..] == t;
  }

  /** `LeadingGap(s)` is the one length its contract describes. */
  lemma GapIs(s: string, m: nat)
    requires m <= |s| && (forall i :: 0 <= i < m ==> IsWhitespace(s[i]))
    requires m < |s| ==> !IsWhitespace(s[m])
    ensures LeadingGap(s) == m
  {
  }

  /** `LeadingWord(s)` is the one length its contract describes. */
  lemma WordIs(s: string, m: nat)
    requires m <= |s| && (forall i :: 0 <= i < m ==> !IsWhitespace(s[i]))
    requires m < |s| ==> IsWhitespace(s[m])
    ensures LeadingWord(s) == m
  {
  }

  /** Trailing whitespace holds no token. */
  lemma {:induction false} RunsTrailingBlank(u: string, w: string)
    requires AllWhitespace(w)
    ensures Runs(u + w) == Runs(u)
    decreases |u|
  {
    var s := u + w;
    var g := LeadingGap(u);
    if g == |u| {
      GapIs(s, |s|);
    } else {
      GapIs(s, g);
      var t := u[g..];
      assert s[g..] == t + w;
      assert t[0] == u[g];
      WordThenBlank(t, w);
      RunsTrailingBlank(t[LeadingWord(t)..], w);
    }
  }

  /** Whitespace appended after a text does not change its leading word. */
  lemma WordThenBlank(t: string, w: string)
    requires AllWhitespace(w)
    ensures var n := LeadingWord(t);
      && LeadingWord(t + w) == n
      && (t + w)[..n] == t[..n]
      && (t + w)[n..] == t[n..] + w
  {
    var n := LeadingWord(t);
    WordIs(t + w, n);
    assert (t + w)[..n] == t[..n];
    assert (t + w)[n..] == t[n..] + w;
  }

  /** `trim` does not change the tokens. */
  lemma RunsIgnoreTrim(s: string)
    ensures Runs(Trim(s)) == Runs(s)
  {
    var a := LeadingGap(s);
    var r := Trim(s);
    var w := s[a + |r|..];
    assert s[a..] == r + w;
    RunsSkipGap(s);
    RunsTrailingBlank(r, w);
  }

  /** Filtering the empty pieces out of a split leaves exactly the tokens. */
  lemma {:induction false} FilteredSplitIsRuns(x: string)
    ensures NonEmpty(SplitWhitespace(x)) == Runs(x)
    decreases |x|
  {
    var n := LeadingWord(x);
    if x == [] {
    } else if IsWhitespace(x[0]) {
      var tail := x[LeadingGap(x)..];
      FilteredSplitIsRuns(tail);
      assert x[0..] == x && x[..0] == [];
      var parts := [[]] + SplitWhitespace(tail);
      assert SplitWhitespace(x) == parts;
      assert parts[1..] == SplitWhitespace(tail);
      RunsSkipGap(x);
    } else {
      GapIs(x, 0);
      assert x[0..] == x;
      if n == |x| {
        assert x[..n] == x && x[n..] == [];
        assert SplitWhitespace(x) == [x];
        assert Runs(x) == [x] + Runs([]);
      } else {
        var rest := x[n..];
        var tail := rest[LeadingGap(rest)..];
        FilteredSplitIsRuns(tail);
        var parts := [x[..n]] + SplitWhitespace(tail);
        assert SplitWhitespace(x) == parts;
        assert parts[1..] == SplitWhitespace(tail);
        RunsSkipGap(rest);
      }
    }
  }

  /**
   * Position `i` begins a token: a non-whitespace character at the start of
   * `s` or right after whitespace.
   */
  predicate IsWordStart(s: string, i: int)
    requires 0 <= i < |s|
  {
    !IsWhitespace(s[i]) && (i == 0 || IsWhitespace(s[i - 1]))
  }

  /**
   * The number of token starts in `s`, scanning from the left, where
   * `afterGap` says whether the character before `s` is whitespace (or
   * there is none).
   */
  function StartsAfter(s: string, afterGap: bool): nat
    decreases |s|
  {
    if s == [] then 0
    else (if afterGap && !IsWhitespace(s[0]) then 1 else 0) + StartsAfter(s[1..], IsWhitespace(s[0]))
  }

  lemma {:induction false} StartsSkipGap(s: string)
    ensures StartsAfter(s[LeadingGap(s)..], true) == StartsAfter(s, true)
    decreases |s|
  {
    if s != [] && IsWhitespace(s[0]) {
      StartsSkipGap(s[1..]);
      assert s[1..][LeadingGap(s[1..])..] == s[LeadingGap(s)..];
    } else {
      assert s[0..] == s;
    }
  }

  lemma {:induction false} StartsSkipWord(s: string)
    ensures StartsAfter(s[LeadingWord(s)..], false) == StartsAfter(s, false)
    decreases |s|
  {
    if s != [] && !IsWhitespace(s[0]) {
      StartsSkipWord(s[1..]);
      assert s[1..][LeadingWord(s[1..])..] == s[LeadingWord(s)..];
    } else {
      assert s[0..] == s;
    }
  }

  /** There are as many tokens as token starts. */
  lemma {:induction false} RunsCount(s: string)
    ensures |Runs(s)| == StartsAfter(s, true)
    decreases |s|
  {
    StartsSkipGap(s);
    var t := s[LeadingGap(s)..];
    if t != [] {
      assert !IsWhitespace(t[0]) by { assert t[0] == s[LeadingGap(s)]; }
      var n := LeadingWord(t);
      StartsSkipWord(t);
      var after := t[n..];
      RunsCount(after);
      assert after == [] || IsWhitespace(after[0]);
      assert StartsAfter(after, false) == StartsAfter(after, true);
    }
  }

  /** The scan counts the positions where a token begins. */
  lemma {:induction false} StartsAfterCounts(s: string, i: nat)
    requires i <= |s|
    ensures StartsAfter(s[i..], i == 0 || IsWhitespace(s[i - 1]))
            == |set j | i <= j < |s| && IsWordStart(s, j)|
    decreases |s| - i
  {
    if i < |s| {
      StartsAfterCounts(s, i + 1);
      assert s[i..][1..] == s[i + 1..];
      StartSetStep(s, i);
    }
  }

  /** The token starts from `i` on are those from `i + 1` on, plus `i` if it is one. */
  lemma StartSetStep(s: string, i: nat)
    requires i < |s|
    ensures |set j | i <= j < |s| && IsWordStart(s, j)|
            == (if IsWordStart(s, i) then 1 else 0) + |set j | i + 1 <= j < |s| && IsWordStart(s, j)|
  {
    var all := set j | i <= j < |s| && IsWordStart(s, j);
    var later := set j | i + 1 <= j < |s| && IsWordStart(s, j);
    if IsWordStart(s, i) {
      assert all == later + {i};
    } else {
      assert all == later;
    }
  }

  /** The number of words of `s` is the number of positions where a token begins. */
  lemma WordsCountStarts(s: string)
    ensures |Words(s)| == |set i | 0 <= i < |s| && IsWordStart(s, i)|
  {
    RunsCount(s);
    StartsAfterCounts(s, 0);
    assert s[0..] == s;
  }

  /** `s.length`: the number of UTF-16 code units, two for a code point above U+FFFF. */
  function Utf16Length(s: string): (n: nat)
    ensures |s| <= n <= 2 * |s|
    ensures n == |s| <==> forall i :: 0 <= i < |s| ==> s[i] <= '\U{FFFF}'
  {
    if s == [] then 0
    else (if s[0] <= '\U{FFFF}' then 1 else 2) + Utf16Length(s[1..])
  }
}
