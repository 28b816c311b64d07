/** Character classes of JavaScript regular expressions, literal matching at a
    position, and `String.prototype.trim`, shared by the rewrite passes. */
module Text {

  datatype Option<T> = None | Some(value: T)

  /** JavaScript's `\s`: the WhiteSpace and LineTerminator code points of
      ECMA-262 (TAB, VT, FF, SP, NBSP, ZWNBSP, the other space separators,
      LF, CR, LINE SEPARATOR, PARAGRAPH SEPARATOR). `trim` removes the same set. */
  predicate IsWhitespace(c: char) {
    || c == '\t' || c == '\n' || c == '\U{000B}' || c == '\U{000C}' || c == '\r'
    || c == ' ' || c == '\U{00A0}' || c == '\U{1680}'
    || ('\U{2000}' <= c <= '\U{200A}')
    || c == '\U{2028}' || c == '\U{2029}' || c == '\U{202F}' || c == '\U{205F}'
    || c == '\U{3000}' || c == '\U{FEFF}'
  }

  /** The characters JavaScript's `.` does not match without the `s` flag. */
  predicate IsLineTerminator(c: char) {
    c == '\n' || c == '\r' || c == '\U{2028}' || c == '\U{2029}'
  }

  /** The class `[\r\n]`. */
  predicate IsCrOrLf(c: char) {
    c == '\r' || c == '\n'
  }

  /** The class `[^\S\r\n]`: whitespace other than CR and LF. */
  predicate IsIndent(c: char) {
    IsWhitespace(c) && !IsCrOrLf(c)
  }

  predicate IsLf(c: char) {
    c == '\n'
  }

  predicate AllWhitespace(s: string) {
    forall i | 0 <= i < |s| :: IsWhitespace(s[i])
  }

  /** The literal `lit` occurs in `s` starting at position `i`. */
  predicate LiteralAt(s: string, i: nat, lit: string) {
    i + |lit| <= |s| && s[i..i + |lit|] == lit
  }

  /** JavaScript's `s.includes(lit)`. */
  predicate Contains(s: string, lit: string) {
    exists i: nat | i <= |s| :: LiteralAt(s, i, lit)
  }

  /** `x` is one line break `\r?\n`. */
  predicate IsLineBreak(x: string) {
    x == "\n" || x == "\r\n"
  }

  /** Length of the line break `\r?\n` at position `i` (greedy `\r?`), or 0 if none starts there. */
  function LineBreakAt(s: string, i: nat): (n: nat)
    ensures n == 0 || n == 1 || n == 2
    ensures n == 1 ==> i < |s| && s[i] == '\n'
    ensures n == 2 ==> i + 1 < |s| && s[i] == '\r' && s[i + 1] == '\n'
    ensures n == 0 ==> !LiteralAt(s, i, "\n") && !LiteralAt(s, i, "\r\n")
  {
    if i + 1 < |s| && s[i] == '\r' && s[i + 1] == '\n' then 2
    else if i < |s| && s[i] == '\n' then 1
    else 0
  }

  /** The text of a line break found at `i`. */
  lemma {:induction false} LineBreakSlice(s: string, i: nat)
    requires LineBreakAt(s, i) > 0
    ensures IsLineBreak(s[i..i + LineBreakAt(s, i)])
    ensures i == 0 ==> IsLineBreak(s[..LineBreakAt(s, 0)])
  {
    if LineBreakAt(s, i) == 2 {
      assert s[i..i + 2] == "\r\n";
    } else {
      assert s[i..i + 1] == "\n";
    }
  }

  /** Number of positions of `s` at which `lit` starts. */
  function Occurrences(s: string, lit: string): (n: nat)
    decreases |s|
  {
    if |s| == 0 then 0
    else (if LiteralAt(s, 0, lit) then 1 else 0) + Occurrences(s[1..], lit)
  }

  /** Characters that cannot start `lit` may be skipped when counting it. */
  lemma {:induction false} OccurrencesSkip(s: string, lit: string, k: nat)
    requires |lit| > 0 && k <= |s|
    requires forall i | 0 <= i < k :: s[i] != lit[0]
    ensures Occurrences(s, lit) == Occurrences(s[k..], lit)
  {
    if k > 0 {
      assert !LiteralAt(s, 0, lit) by {
        if |lit| <= |s| {
          assert s[..|lit|][0] == s[0];
        }
      }
      assert s[1..][k - 1..] == s[k..];
      OccurrencesSkip(s[1..], lit, k - 1);
    }
  }

  /** A literal whose first character does not recur in it is counted once
      where it starts, and not again before its end. */
  lemma {:induction false} OccurrencesOfLeadingLiteral(s: string, lit: string)
    requires |lit| > 0 && LiteralAt(s, 0, lit)
    requires forall i | 1 <= i < |lit| :: lit[i] != lit[0]
    ensures Occurrences(s, lit) == 1 + Occurrences(s[|lit|..], lit)
  {
    forall i | 0 <= i < |lit| - 1 ensures s[1..][i] != lit[0] {
      assert s[1..][i] == s[..|lit|][i + 1];
    }
    OccurrencesSkip(s[1..], lit, |lit| - 1);
    assert s[1..][|lit| - 1..] == s[|lit|..];
  }

  /** A literal that is absent from `s` is not counted anywhere in it. */
  lemma {:induction false} OccurrencesAbsent(s: string, lit: string)
    requires !Contains(s, lit)
    ensures Occurrences(s, lit) == 0
  {
    if |s| > 0 {
      assert !LiteralAt(s, 0, lit);
      AbsentFromSuffix(s, lit, 1);
      OccurrencesAbsent(s[1..], lit);
    }
  }

  /** A literal absent from `s` is absent from every suffix of `s`. */
  lemma {:induction false} AbsentFromSuffix(s: string, lit: string, k: nat)
    requires k <= |s| && !Contains(s, lit)
    ensures !Contains(s[k..], lit)
  {
    forall i: nat | i <= |s[k..]| ensures !LiteralAt(s[k..], i, lit) {
      assert !LiteralAt(s, k + i, lit);
      if k + i + |lit| <= |s| {
        assert s[k..][i..i + |lit|] == s[k + i..k + i + |lit|];
      }
    }
  }

  /** `r` arises from `s` by deleting some (possibly none) of the characters
      that satisfy `drop`, keeping the order of all the others. */
  ghost predicate Erased(s: string, r: string, drop: char -> bool)
    decreases |s|
  {
    if |s| == 0 then r == []
    else
      || (drop(s[0]) && Erased(s[1..], r, drop))
      || (|r| > 0 && r[0] == s[0] && Erased(s[1..], r[1..], drop))
  }

  lemma {:induction false} ErasedNothing(s: string, drop: char -> bool)
    ensures Erased(s, s, drop)
  {
    if |s| > 0 {
      ErasedNothing(s[1..], drop);
    }
  }

  /** Deletions in two pieces make a deletion in their concatenation. */
  lemma {:induction false} ErasedAppend(a: string, b: string, c: string, d: string, drop: char -> bool)
    requires Erased(a, b, drop) && Erased(c, d, drop)
    ensures Erased(a + c, b + d, drop)
  {
    if |a| > 0 {
      assert (a + c)[1..] == a[1..] + c;
      if drop(a[0]) && Erased(a[1..], b, drop) {
        ErasedAppend(a[1..], b, c, d, drop);
      } else {
        assert (b + d)[1..] == b[1..] + d;
        ErasedAppend(a[1..], b[1..], c, d, drop);
      }
    } else {
      assert a + c == c;
      assert b == [];
      assert b + d == d;
    }
  }

  /** Two adjacent slices make the slice that spans both. */
  lemma {:induction false} SliceJoin(s: string, a: nat, b: nat, c: nat)
    requires a <= b <= c <= |s|
    ensures s[a..b] + s[b..c] == s[a..c]
  {
  }

  /** Three adjacent slices make the slice that spans them. */
  lemma {:induction false} SliceJoin3(s: string, a: nat, b: nat, c: nat, d: nat, x: string, y: string, z: string)
    requires a <= b <= c <= d <= |s| && s[a..b] == x && s[b..c] == y && s[c..d] == z
    ensures s[a..d] == x + y + z
  {
    SliceJoin(s, a, b, c);
    SliceJoin(s, a, c, d);
  }

  /** A slice made only of deletable characters can be deleted entirely. */
  lemma {:induction false} ErasedSliceEntirely(s: string, a: nat, b: nat, drop: char -> bool)
    requires a <= b <= |s|
    requires forall p | a <= p < b :: drop(s[p])
    ensures Erased(s[a..b], [], drop)
  {
    var gap := s[a..b];
    forall i | 0 <= i < |gap| ensures drop(gap[i]) {
      assert gap[i] == s[a + i];
    }
    ErasedEverything(gap, drop);
  }

  /** Deleting what lies before `s[a..b]` and what lies after it up to `e`
      leaves `s[a..b]`. */
  lemma {:induction false} ErasedAround(s: string, a: nat, b: nat, e: nat, drop: char -> bool)
    requires a <= b <= e <= |s|
    requires forall p | 0 <= p < a :: drop(s[p])
    requires forall p | b <= p < e :: drop(s[p])
    ensures Erased(s[..e], s[a..b], drop)
  {
    var pre, mid, post := s[0..a], s[a..b], s[b..e];
    ErasedSliceEntirely(s, 0, a, drop);
    ErasedSliceEntirely(s, b, e, drop);
    assert Erased(mid + post, mid, drop) by {
      ErasedNothing(mid, drop);
      ErasedAppend(mid, mid, post, [], drop);
      assert mid + [] == mid;
    }
    assert Erased(pre + (mid + post), mid, drop) by {
      ErasedAppend(pre, [], mid + post, mid, drop);
      assert [] + mid == mid;
    }
    assert pre + (mid + post) == s[..e] by {
      SliceJoin(s, a, b, e);
      SliceJoin(s, 0, a, e);
      assert s[..e] == s[0..e];
    }
  }

  /** Deleting all of `s[a..b]` and nothing of its surroundings, up to `c`. */
  lemma {:induction false} ErasedSlice(s: string, a: nat, b: nat, c: nat, drop: char -> bool)
    requires a <= b <= c <= |s|
    requires forall p | a <= p < b :: drop(s[p])
    ensures Erased(s[..c], s[..a] + s[b..c], drop)
  {
    var gap := s[a..b];
    assert Erased(gap, [], drop) by {
      forall i | 0 <= i < |gap| ensures drop(gap[i]) {
        assert gap[i] == s[a + i];
      }
      ErasedEverything(gap, drop);
    }
    assert Erased(s[a..c], s[b..c], drop) by {
      ErasedNothing(s[b..c], drop);
      ErasedAppend(gap, [], s[b..c], s[b..c], drop);
      SliceJoin(s, a, b, c);
      assert [] + s[b..c] == s[b..c];
    }
    assert Erased(s[..c], s[..a] + s[b..c], drop) by {
      ErasedNothing(s[..a], drop);
      ErasedAppend(s[..a], s[..a], s[a..c], s[b..c], drop);
      assert s[..a] + s[a..c] == s[..c];
    }
  }

  /** The characters outside `drop`, in order. */
  function Kept(s: string, drop: char -> bool): (r: string)
    ensures |r| <= |s|
    decreases |s|
  {
    if |s| == 0 then []
    else (if drop(s[0]) then [] else [s[0]]) + Kept(s[1..], drop)
  }

  /** A deletion never lengthens the string and keeps every other character in order. */
  lemma {:induction false} ErasedKeepsOthers(s: string, r: string, drop: char -> bool)
    requires Erased(s, r, drop)
    ensures |r| <= |s|
    ensures Kept(r, drop) == Kept(s, drop)
  {
    if |s| > 0 {
      if drop(s[0]) && Erased(s[1..], r, drop) {
        ErasedKeepsOthers(s[1..], r, drop);
      } else {
        ErasedKeepsOthers(s[1..], r[1..], drop);
      }
    }
  }

  /** A string made only of deletable characters can be deleted entirely. */
  lemma {:induction false} ErasedEverything(s: string, drop: char -> bool)
    requires forall i | 0 <= i < |s| :: drop(s[i])
    ensures Erased(s, [], drop)
  {
    if |s| > 0 {
      assert drop(s[0]);
      ErasedEverything(s[1..], drop);
    }
  }

  predicate IsLt(c: char) {
    c == '<'
  }

  /** `s` holds no character of `drop`. */
  predicate NoneOf(s: string, drop: char -> bool) {
    forall i | 0 <= i < |s| :: !drop(s[i])
  }

  /** Splitting off the first character of a string that holds none of
      `drop`. */
  lemma {:induction false} NoneOfSplit(s: string, w: string, drop: char -> bool)
    requires |s| > 0 && NoneOf(s, drop)
    ensures !drop(s[0]) && NoneOf(s[1..], drop) && [s[0]] + (s[1..] + w) == s + w
  {
    assert !drop(s[0]);
    forall i | 0 <= i < |s[1..]| ensures !drop(s[1..][i]) {
      assert s[1..][i] == s[i + 1];
    }
    assert [s[0]] + s[1..] == s;
  }

  /** Deleting from a string that holds no deletable character leaves it as it is. */
  lemma {:induction false} ErasedFromNoneIsIdentity(s: string, r: string, drop: char -> bool)
    requires NoneOf(s, drop) && Erased(s, r, drop)
    ensures r == s
  {
    if |s| > 0 {
      assert !drop(s[0]);
      ErasedFromNoneIsIdentity(s[1..], r[1..], drop);
    }
  }

  /** The string is empty or neither starts nor ends with whitespace. */
  predicate IsTrimmed(s: string) {
    s == [] || (!IsWhitespace(s[0]) && !IsWhitespace(s[|s| - 1]))
  }

  /** Where the text starts once the whitespace from `i` on is skipped. */
  function SkipWhitespace(s: string, i: nat): (k: nat)
    requires i <= |s|
    ensures i <= k <= |s| && (k < |s| ==> !IsWhitespace(s[k]))
    ensures forall p | i <= p < k :: IsWhitespace(s[p])
    decreases |s| - i
  {
    if i < |s| && IsWhitespace(s[i]) then SkipWhitespace(s, i + 1) else i
  }

  /** Where the text ends once the whitespace before `j`, down to `lo`, is
      skipped. */
  function SkipWhitespaceBack(s: string, lo: nat, j: nat): (k: nat)
    requires lo <= j <= |s|
    ensures lo <= k <= j && (lo < k ==> !IsWhitespace(s[k - 1]))
    ensures forall p | k <= p < j :: IsWhitespace(s[p])
    decreases j
  {
    if lo < j && IsWhitespace(s[j - 1]) then SkipWhitespaceBack(s, lo, j - 1) else j
  }

  /** JavaScript's `String.prototype.trim`: whitespace is cut off both ends. */
  function Trim(s: string): (r: string)
    ensures IsTrimmed(r)
  {
    var a := SkipWhitespace(s, 0);
    s[a..SkipWhitespaceBack(s, a, |s|)]
  }

  /** The result of `trim` is a contiguous piece of `s`, and everything cut
      off is whitespace. */
  lemma {:induction false} TrimCutsOnlyWhitespace(s: string)
    ensures var r := Trim(s);
      exists i: nat | i + |r| <= |s| ::
        && s[i..i + |r|] == r
        && AllWhitespace(s[..i])
        && AllWhitespace(s[i + |r|..])
  {
    var a := SkipWhitespace(s, 0);
    var b := SkipWhitespaceBack(s, a, |s|);
    assert forall p | 0 <= p < a :: s[..a][p] == s[p];
    assert forall p | b <= p < |s| :: s[b..][p - b] == s[p];
    assert s[a..a + |Trim(s)|] == Trim(s);
  }

  /** Trimming twice is trimming once. */
  lemma {:induction false} TrimIdempotent(s: string)
    ensures Trim(Trim(s)) == Trim(s)
  {
    var r := Trim(s);
    assert SkipWhitespace(r, 0) == 0;
    assert SkipWhitespaceBack(r, 0, |r|) == |r|;
  }
}
