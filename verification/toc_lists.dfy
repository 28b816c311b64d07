/** The removal of blank lines between the items of a table-of-contents list,
    left behind by list items that rendered to nothing:
    `template.replace(/(<\/a>\r?\n)\s*?[\r\n]*([^\S\r\n]*?[-\*] <a)/mg, '$1$2')`,
    attempted only when the text contains `</a>`. The `m` flag has no effect
    on a pattern without `^` or `$`. */
module TocLists {
  import opened Text

  const AnchorClose := "</a>"

  predicate IsBullet(c: char) {
    c == '-' || c == '*'
  }

  /** A bullet followed by " <a" starts at `p`: the part of the second group
      after its indentation. */
  predicate ItemMarkAt(s: string, p: nat) {
    p + 4 <= |s| && IsBullet(s[p]) && s[p + 1] == ' ' && s[p + 2] == '<' && s[p + 3] == 'a'
  }

  /** `</a>` starts at `p`. */
  predicate AnchorCloseAt(s: string, p: nat) {
    p + 4 <= |s| && s[p] == '<' && s[p + 1] == '/' && s[p + 2] == 'a' && s[p + 3] == '>'
  }

  /** Every character of `s` from `a` up to `b` is indentation. */
  predicate IndentBetween(s: string, a: nat, b: nat)
    requires a <= b <= |s|
  {
    forall j | a <= j < b :: IsIndent(s[j])
  }

  /** Every character of `s` from `a` up to `b` is CR or LF. */
  predicate CrLfBetween(s: string, a: nat, b: nat)
    requires a <= b <= |s|
  {
    forall j | a <= j < b :: IsCrOrLf(s[j])
  }

  /** Every character of `s` from `a` up to `b` is whitespace. */
  predicate WhitespaceBetween(s: string, a: nat, b: nat)
    requires a <= b <= |s|
  {
    forall j | a <= j < b :: IsWhitespace(s[j])
  }

  /** The match of the second group `[^\S\r\n]*?[-\*] <a` at `i`, as the
      position where it ends. The lazy indentation stops at the first
      character that is not indentation, which must be the bullet. */
  function ItemStart(s: string, i: nat): (r: Option<nat>)
    requires i <= |s|
    ensures r.Some? ==>
      && i + 4 <= r.value <= |s|
      && IndentBetween(s, i, r.value - 4)
      && ItemMarkAt(s, r.value - 4)
    decreases |s| - i
  {
    if ItemMarkAt(s, i) then Some(i + 4)
    else if i < |s| && IsIndent(s[i]) then
      var r := ItemStart(s, i + 1);
      r
    else None
  }

  /** Length of the longest run of CR and LF characters from `i`: what the
      greedy `[\r\n]*` takes first. */
  function CrLfRun(s: string, i: nat): (n: nat)
    requires i <= |s|
    ensures i + n <= |s| && CrLfBetween(s, i, i + n)
    ensures i + n == |s| || !IsCrOrLf(s[i + n])
    decreases |s| - i
  {
    if i < |s| && IsCrOrLf(s[i]) then
      var n := CrLfRun(s, i + 1);
      1 + n
    else 0
  }

  /** A match anchored at the start of the text: the first group is
      `s[..lineEnd]`, the skipped blank lines are `s[lineEnd..itemStart]` and
      the second group is `s[itemStart..end]`. */
  datatype TocMatch = TocMatch(lineEnd: nat, itemStart: nat, end: nat)

  /** The greedy `[\r\n]*` giving characters back one at a time: the second
      group is tried after `m`, `m - 1`, ..., 0 of them, from `i`. */
  function GiveBack(s: string, g1: nat, i: nat, m: nat): (r: Option<TocMatch>)
    requires i + m <= |s|
    ensures r.Some? ==> r.value.lineEnd == g1 && i <= r.value.itemStart <= i + m
    ensures r.Some? ==> ItemStart(s, r.value.itemStart) == Some(r.value.end)
    ensures r.None? ==> ItemStart(s, i).None?
    decreases m
  {
    var n := ItemStart(s, i + m);
    if n.Some? then Some(TocMatch(g1, i + m, n.value))
    else if m == 0 then None
    else GiveBack(s, g1, i, m - 1)
  }

  /** The lazy `\s*?` taking one more whitespace character each time the
      rest of the pattern fails after the `k` it has. */
  function Widen(s: string, g1: nat, k: nat): (r: Option<TocMatch>)
    requires g1 + k <= |s|
    ensures r.Some? ==> r.value.lineEnd == g1 && g1 + k <= r.value.itemStart < r.value.end <= |s|
    decreases |s| - g1 - k
  {
    var i := g1 + k;
    var r := GiveBack(s, g1, i, CrLfRun(s, i));
    if r.Some? then r
    else if i < |s| && IsWhitespace(s[i]) then Widen(s, g1, k + 1)
    else None
  }

  /** The match of the whole pattern at the start of `s`. The `\r?` of the
      first group is greedy and never needs to give its CR back. */
  function MatchTocGap(s: string): (m: Option<TocMatch>)
    ensures m.Some? ==> 4 < m.value.lineEnd <= m.value.itemStart < m.value.end <= |s|
  {
    if AnchorCloseAt(s, 0) && LineBreakAt(s, 4) > 0 then Widen(s, 4 + LineBreakAt(s, 4), 0)
    else None
  }

  /** The global replace: each match is replaced by its two groups, dropping
      what lies between them, and the scan resumes after the match; every
      other character is copied. */
  function CollapseTocBlankLines(s: string): (r: string)
    ensures |r| <= |s|
    decreases |s|
  {
    if |s| == 0 then []
    else
      match MatchTocGap(s)
      case Some(m) => s[..m.lineEnd] + s[m.itemStart..m.end] + CollapseTocBlankLines(s[m.end..])
      case None => [s[0]] + CollapseTocBlankLines(s[1..])
  }

  /** Text without `<` is copied unchanged, whatever follows it: no match
      can start inside it. */
  lemma {:induction false} CollapseTocCopiesPlainPrefix(u: string, v: string)
    requires NoneOf(u, IsLt)
    ensures CollapseTocBlankLines(u + v) == u + CollapseTocBlankLines(v)
    decreases |u|
  {
    if |u| > 0 {
      CollapseTocPlainStep(u, v);
      CollapseTocCopiesPlainPrefix(u[1..], v);
    } else {
      assert u + v == v;
    }
  }

  /** One step of that copy: the first character of `u` is copied. */
  lemma {:induction false} CollapseTocPlainStep(u: string, v: string)
    requires |u| > 0 && NoneOf(u, IsLt)
    ensures CollapseTocBlankLines(u + v) == [u[0]] + CollapseTocBlankLines(u[1..] + v)
    ensures NoneOf(u[1..], IsLt)
    ensures forall w :: [u[0]] + (u[1..] + w) == u + w
  {
    var s := u + v;
    NoneOfSplit(u, [], IsLt);
    assert s[0] == u[0];
    assert MatchTocGap(s).None?;
    assert s[1..] == u[1..] + v;
    forall w ensures [u[0]] + (u[1..] + w) == u + w {
      NoneOfSplit(u, w, IsLt);
    }
  }

  /** Indentation in front of the bullet does not change where the item ends. */
  lemma {:induction false} ItemStartSkipsIndent(s: string, i: nat)
    requires i < |s| && IsIndent(s[i])
    ensures ItemStart(s, i) == ItemStart(s, i + 1)
  {
  }

  /** Whatever the greedy `[\r\n]*` gives back, the second group starts
      after a line break, provided it does when nothing of the run is taken. */
  lemma {:induction false} GiveBackStartsAtLine(s: string, g1: nat, i: nat)
    requires 0 < g1 <= i <= |s| && WhitespaceBetween(s, g1, i)
    requires IsCrOrLf(s[i - 1]) || ItemStart(s, i).None?
    requires GiveBack(s, g1, i, CrLfRun(s, i)).Some?
    ensures ItemOnNewLine(s, g1, GiveBack(s, g1, i, CrLfRun(s, i)).value)
  {
    var g2 := GiveBack(s, g1, i, CrLfRun(s, i)).value.itemStart;
    if g2 == i {
      assert ItemStart(s, i).Some?;
    }
  }

  /** When the rest of the pattern fails after `k` whitespace characters and
      another whitespace character follows, the search goes on after it. */
  lemma {:induction false} WidenStep(s: string, g1: nat, k: nat)
    requires g1 + k < |s| && IsWhitespace(s[g1 + k])
    requires GiveBack(s, g1, g1 + k, CrLfRun(s, g1 + k)).None?
    ensures Widen(s, g1, k) == Widen(s, g1, k + 1)
  {
  }

  /** The second group of `m` starts at the beginning of a line, only
      whitespace lies between the first group and it, and it is a whole
      list-item line up to its `<a`. */
  ghost predicate ItemOnNewLine(s: string, g1: nat, m: TocMatch) {
    && 0 < g1 <= m.itemStart < |s| && m.itemStart <= m.end <= |s|
    && WhitespaceBetween(s, g1, m.itemStart) && IsCrOrLf(s[m.itemStart - 1])
    && ItemStart(s, m.itemStart) == Some(m.end)
  }

  lemma {:induction false} WidenTakesGiveBack(s: string, g1: nat, k: nat)
    requires g1 + k <= |s| && GiveBack(s, g1, g1 + k, CrLfRun(s, g1 + k)).Some?
    ensures Widen(s, g1, k) == GiveBack(s, g1, g1 + k, CrLfRun(s, g1 + k))
  {
  }

  /** The search never skips part of an item's indentation: whatever `k`
      the lazy `\s*?` settles on, the second group starts right after a line
      break, and everything skipped is whitespace. */
  lemma {:induction false} WidenStartsAtLine(s: string, g1: nat, k: nat)
    requires 0 < g1 && g1 + k <= |s| && IsCrOrLf(s[g1 - 1])
    requires WhitespaceBetween(s, g1, g1 + k)
    requires IsCrOrLf(s[g1 + k - 1]) || ItemStart(s, g1 + k).None?
    requires Widen(s, g1, k).Some?
    ensures ItemOnNewLine(s, g1, Widen(s, g1, k).value)
    decreases |s| - g1 - k
  {
    var i := g1 + k;
    if GiveBack(s, g1, i, CrLfRun(s, i)).Some? {
      WidenTakesGiveBack(s, g1, k);
      GiveBackStartsAtLine(s, g1, i);
    } else {
      assert i < |s| && IsWhitespace(s[i]);
      assert WhitespaceBetween(s, g1, i + 1);
      assert IsCrOrLf(s[i]) || ItemStart(s, i + 1).None? by {
        if !IsCrOrLf(s[i]) {
          ItemStartSkipsIndent(s, i);
        }
      }
      WidenStep(s, g1, k);
      WidenStartsAtLine(s, g1, k + 1);
    }
  }

  /** The second group of such a match is indentation, a bullet and " <a". */
  lemma {:induction false} ItemLine(s: string, g1: nat, m: TocMatch)
    requires ItemOnNewLine(s, g1, m)
    ensures m.itemStart + 4 <= m.end
    ensures IndentBetween(s, m.itemStart, m.end - 4) && ItemMarkAt(s, m.end - 4)
  {
    assert ItemStart(s, m.itemStart) == Some(m.end);
  }

  /** What a match consists of: `</a>` and a line break, then only
      whitespace, then a whole list-item line up to its `<a`: indentation, a
      bullet and " <a". */
  lemma {:induction false} MatchTocGapShape(s: string)
    requires MatchTocGap(s).Some?
    ensures var m := MatchTocGap(s).value;
      && AnchorCloseAt(s, 0) && m.lineEnd == 4 + LineBreakAt(s, 4) && s[m.lineEnd - 1] == '\n'
      && WhitespaceBetween(s, m.lineEnd, m.itemStart) && IsCrOrLf(s[m.itemStart - 1])
      && ItemStart(s, m.itemStart) == Some(m.end)
      && IndentBetween(s, m.itemStart, m.end - 4)
      && ItemMarkAt(s, m.end - 4)
  {
    var m := MatchTocGap(s).value;
    var g1 := 4 + LineBreakAt(s, 4);
    assert AnchorCloseAt(s, 0) && m.lineEnd == g1 && s[g1 - 1] == '\n';
    assert ItemOnNewLine(s, g1, m) by {
      assert Widen(s, g1, 0).Some? && m == Widen(s, g1, 0).value;
      WidenStartsAtLine(s, g1, 0);
    }
    ItemLine(s, g1, m);
  }

  /** A match reduces to its two groups by deleting whitespace. */
  lemma {:induction false} MatchErases(s: string)
    requires MatchTocGap(s).Some?
    ensures var m := MatchTocGap(s).value;
      Erased(s[..m.end], s[..m.lineEnd] + s[m.itemStart..m.end], IsWhitespace)
  {
    MatchTocGapShape(s);
    var m := MatchTocGap(s).value;
    ErasedSlice(s, m.lineEnd, m.itemStart, m.end, IsWhitespace);
  }

  /** The pass only deletes whitespace: all other text keeps its order. */
  lemma {:induction false} CollapseTocDeletesOnlyWhitespace(s: string)
    ensures Erased(s, CollapseTocBlankLines(s), IsWhitespace)
    decreases |s|
  {
    if |s| > 0 {
      var n := CollapseTocStepLength(s);
      CollapseTocDeletesOnlyWhitespace(s[n..]);
      CollapseTocStepErases(s, n);
    }
  }

  /** How much of `s` one step of the global replace consumes. */
  lemma {:induction false} CollapseTocStepLength(s: string) returns (n: nat)
    requires |s| > 0
    ensures 0 < n <= |s|
    ensures MatchTocGap(s).Some? ==> n == MatchTocGap(s).value.end
    ensures MatchTocGap(s).None? ==> n == 1
  {
    n := if MatchTocGap(s).Some? then MatchTocGap(s).value.end else 1;
  }

  /** One step of the global replace deletes only whitespace. */
  lemma {:induction false} CollapseTocStepErases(s: string, n: nat)
    requires 0 < n <= |s|
    requires MatchTocGap(s).Some? ==> n == MatchTocGap(s).value.end
    requires MatchTocGap(s).None? ==> n == 1
    requires Erased(s[n..], CollapseTocBlankLines(s[n..]), IsWhitespace)
    ensures Erased(s, CollapseTocBlankLines(s), IsWhitespace)
  {
    if MatchTocGap(s).Some? {
      MatchStepErases(s, MatchTocGap(s).value);
    } else {
      ErasedNothing([s[0]], IsWhitespace);
      ErasedAppend([s[0]], [s[0]], s[1..], CollapseTocBlankLines(s[1..]), IsWhitespace);
      assert [s[0]] + s[1..] == s;
    }
  }

  /** The step at a match deletes only whitespace. */
  lemma {:induction false} MatchStepErases(s: string, m: TocMatch)
    requires MatchTocGap(s) == Some(m)
    requires Erased(s[m.end..], CollapseTocBlankLines(s[m.end..]), IsWhitespace)
    ensures Erased(s, CollapseTocBlankLines(s), IsWhitespace)
  {
    var n := m.end;
    MatchErases(s);
    ErasedAppend(s[..n], s[..m.lineEnd] + s[m.itemStart..n], s[n..], CollapseTocBlankLines(s[n..]), IsWhitespace);
    assert s[..n] + s[n..] == s;
  }

  /** The pass never lengthens the text and keeps every non-whitespace character. */
  lemma {:induction false} CollapseTocKeepsText(s: string)
    ensures |CollapseTocBlankLines(s)| <= |s|
    ensures Kept(CollapseTocBlankLines(s), IsWhitespace) == Kept(s, IsWhitespace)
  {
    CollapseTocDeletesOnlyWhitespace(s);
    ErasedKeepsOthers(s, CollapseTocBlankLines(s), IsWhitespace);
  }

  /** The index-based test for `</a>` holds exactly where the literal starts. */
  lemma {:induction false} AnchorCloseIsLiteral(s: string)
    ensures forall p | 0 <= p <= |s| :: AnchorCloseAt(s, p) <==> LiteralAt(s, p, AnchorClose)
  {
    forall p | 0 <= p <= |s| ensures AnchorCloseAt(s, p) <==> LiteralAt(s, p, AnchorClose) {
      if AnchorCloseAt(s, p) {
        assert s[p..p + 4] == AnchorClose;
      }
    }
  }

  /** Text without `</a>` is left unchanged, so the `includes('</a>')` guard
      in front of the pass only saves work. */
  lemma {:induction false} CollapseTocWithoutAnchorIsIdentity(s: string)
    requires !Contains(s, AnchorClose)
    ensures CollapseTocBlankLines(s) == s
    decreases |s|
  {
    if |s| > 0 {
      assert !LiteralAt(s, 0, AnchorClose);
      AnchorCloseIsLiteral(s);
      AbsentFromSuffix(s, AnchorClose, 1);
      CollapseTocWithoutAnchorIsIdentity(s[1..]);
    }
  }

  /** Indentation then a bullet and " <a" make the second group. */
  lemma {:induction false} ItemStartAfterIndent(s: string, i: nat, n: nat)
    requires i + n <= |s| && IndentBetween(s, i, i + n) && ItemMarkAt(s, i + n)
    ensures ItemStart(s, i) == Some(i + n + 4)
    decreases n
  {
    if n > 0 {
      assert IsIndent(s[i]);
      ItemStartAfterIndent(s, i + 1, n - 1);
    }
  }

  /** No item starts inside whitespace that ends with a CR or LF: its
      indentation cannot cross that character. */
  lemma {:induction false} NoItemInsideGap(s: string, p: nat, j: nat)
    requires p < j <= |s| && WhitespaceBetween(s, p, j) && IsCrOrLf(s[j - 1])
    ensures ItemStart(s, p).None?
    decreases j - p
  {
    assert IsWhitespace(s[p]);
    if IsIndent(s[p]) {
      NoItemInsideGap(s, p + 1, j);
    }
  }

  /** Giving back characters of a CR and LF run that stops short of `j`
      finds no item. */
  lemma {:induction false} GiveBackInsideGap(s: string, g1: nat, i: nat, m: nat, j: nat)
    requires i + m < j <= |s| && WhitespaceBetween(s, i, j) && IsCrOrLf(s[j - 1])
    ensures GiveBack(s, g1, i, m).None?
    decreases m
  {
    NoItemInsideGap(s, i + m, j);
    if m > 0 {
      GiveBackInsideGap(s, g1, i, m - 1, j);
    }
  }

  /** An item starts with indentation or its bullet, never with CR or LF,
      so a run of CR and LF before it stops there. */
  lemma {:induction false} RunStopsAtItem(s: string, i: nat, j: nat)
    requires i <= j <= |s| && ItemStart(s, j).Some?
    ensures i + CrLfRun(s, i) <= j
  {
    if j < |s| {
      assert !IsCrOrLf(s[j]);
    }
  }

  /** When the CR and LF run reaches the item, the item is found. */
  lemma {:induction false} GapEnd(s: string, g1: nat, k: nat, j: nat)
    requires g1 + k <= |s| && g1 + k + CrLfRun(s, g1 + k) == j <= |s| && ItemStart(s, j).Some?
    ensures Widen(s, g1, k) == Some(TocMatch(g1, j, ItemStart(s, j).value))
  {
    assert GiveBack(s, g1, g1 + k, CrLfRun(s, g1 + k)) == Some(TocMatch(g1, j, ItemStart(s, j).value));
    WidenTakesGiveBack(s, g1, k);
  }

  /** When it stops short of the item, the lazy `\s*?` takes one more
      character. */
  lemma {:induction false} GapStep(s: string, g1: nat, k: nat, j: nat)
    requires g1 + k <= |s| && g1 + k + CrLfRun(s, g1 + k) < j <= |s| && IsCrOrLf(s[j - 1])
    requires WhitespaceBetween(s, g1, j)
    ensures Widen(s, g1, k) == Widen(s, g1, k + 1)
  {
    assert WhitespaceBetween(s, g1 + k, j);
    GiveBackInsideGap(s, g1, g1 + k, CrLfRun(s, g1 + k), j);
    assert IsWhitespace(s[g1 + k]);
    WidenStep(s, g1, k);
  }

  /** One step of the lazy `\s*?` inside the gap: either the item is found
      now or the search goes on after one more character. */
  lemma {:induction false} GapOneStep(s: string, g1: nat, k: nat, j: nat)
    returns (found: bool)
    requires 0 < j && g1 + k <= j <= |s| && IsCrOrLf(s[j - 1])
    requires WhitespaceBetween(s, g1, j) && ItemStart(s, j).Some?
    ensures found ==> Widen(s, g1, k) == Some(TocMatch(g1, j, ItemStart(s, j).value))
    ensures !found ==> g1 + k < j && Widen(s, g1, k) == Widen(s, g1, k + 1)
  {
    RunStopsAtItem(s, g1 + k, j);
    found := g1 + k + CrLfRun(s, g1 + k) == j;
    if found {
      GapEnd(s, g1, k, j);
    } else {
      GapStep(s, g1, k, j);
    }
  }

  /** The lazy `\s*?` widens across the whole gap up to `j`, where the item
      is found. */
  lemma {:induction false} WidenAcrossGap(s: string, g1: nat, k: nat, j: nat)
    requires 0 < j && g1 + k <= j <= |s| && IsCrOrLf(s[j - 1])
    requires WhitespaceBetween(s, g1, j) && ItemStart(s, j).Some?
    ensures Widen(s, g1, k) == Some(TocMatch(g1, j, ItemStart(s, j).value))
    decreases j - g1 - k
  {
    var found := GapOneStep(s, g1, k, j);
    if !found {
      WidenAcrossGap(s, g1, k + 1, j);
    }
  }

  /** The match after `</a>` and a line break when only whitespace ending
      in a CR or LF separates it from the next item: the blank lines, spaces
      included, are dropped and the second group is the whole item line,
      indentation included. */
  lemma {:induction false} GapMatch(s: string, j: nat)
    requires AnchorCloseAt(s, 0) && LineBreakAt(s, 4) > 0
    requires 4 + LineBreakAt(s, 4) <= j <= |s| && IsCrOrLf(s[j - 1])
    requires WhitespaceBetween(s, 4 + LineBreakAt(s, 4), j) && ItemStart(s, j).Some?
    ensures MatchTocGap(s) == Some(TocMatch(4 + LineBreakAt(s, 4), j, ItemStart(s, j).value))
  {
    WidenAcrossGap(s, 4 + LineBreakAt(s, 4), 0, j);
  }

  /** One step of the global replace at a match, whose first group is
      `first`, whose second group is `second` and after which comes `rest`. */
  lemma {:induction false} CollapseStep(s: string, m: TocMatch, first: string, second: string, rest: string)
    requires MatchTocGap(s) == Some(m)
    requires s[..m.lineEnd] == first && s[m.itemStart..m.end] == second && s[m.end..] == rest
    ensures CollapseTocBlankLines(s) == first + second + CollapseTocBlankLines(rest)
  {
  }

  /** The match in `</a>`, a newline, blank lines (whitespace ending in a
      line break, so spaces left on an emptied line included), indentation,
      a bullet and ` <a`: the blank lines are what lies between its two
      groups. */
  lemma {:induction false} ItemAfterBlankLinesMatch(blank: string, indent: string, bullet: char, rest: string)
    requires forall i | 0 <= i < |blank| :: IsWhitespace(blank[i])
    requires blank == [] || IsCrOrLf(blank[|blank| - 1])
    requires forall i | 0 <= i < |indent| :: IsIndent(indent[i])
    requires IsBullet(bullet)
    ensures var b, n := |blank|, |indent|;
      MatchTocGap("</a>\n" + blank + indent + [bullet] + " <a" + rest) == Some(TocMatch(5, 5 + b, 5 + b + n + 4))
  {
    ItemAfterBlankLinesParts(blank, indent, bullet, rest);
    ItemAfterGap("</a>\n" + blank + indent + [bullet] + " <a" + rest, |blank|, |indent|);
  }

  /** The match after `</a>` and an LF when `b` characters of whitespace
      ending in a line break, then `n` of indentation and a bullet with
      " <a", follow. */
  lemma {:induction false} ItemAfterGap(s: string, b: nat, n: nat)
    requires AnchorCloseAt(s, 0) && LineBreakAt(s, 4) == 1
    requires 5 + b + n <= |s| && WhitespaceBetween(s, 5, 5 + b) && IsCrOrLf(s[5 + b - 1])
    requires IndentBetween(s, 5 + b, 5 + b + n) && ItemMarkAt(s, 5 + b + n)
    ensures MatchTocGap(s) == Some(TocMatch(5, 5 + b, 5 + b + n + 4))
  {
    ItemStartAfterIndent(s, 5 + b, n);
    GapMatch(s, 5 + b);
  }

  /** What each part of that text is, position by position. */
  lemma {:induction false} ItemAfterBlankLinesParts(blank: string, indent: string, bullet: char, rest: string)
    requires forall i | 0 <= i < |blank| :: IsWhitespace(blank[i])
    requires blank == [] || IsCrOrLf(blank[|blank| - 1])
    requires forall i | 0 <= i < |indent| :: IsIndent(indent[i])
    requires IsBullet(bullet)
    ensures var s, b, n := "</a>\n" + blank + indent + [bullet] + " <a" + rest, |blank|, |indent|;
      && AnchorCloseAt(s, 0) && LineBreakAt(s, 4) == 1
      && WhitespaceBetween(s, 5, 5 + b) && IsCrOrLf(s[5 + b - 1])
      && IndentBetween(s, 5 + b, 5 + b + n) && ItemMarkAt(s, 5 + b + n)
  {
    var b, n := |blank|, |indent|;
    var s := "</a>\n" + blank + indent + [bullet] + " <a" + rest;
    assert AnchorCloseAt(s, 0) && s[4] == '\n' && LineBreakAt(s, 4) == 1;
    forall j | 5 <= j < 5 + b ensures IsWhitespace(s[j]) {
      assert s[j] == blank[j - 5];
    }
    if b > 0 {
      assert s[5 + b - 1] == blank[b - 1];
    }
    forall j | 5 + b <= j < 5 + b + n ensures IsIndent(s[j]) {
      assert s[j] == indent[j - 5 - b];
    }
    assert s[5 + b + n] == bullet;
    assert s[5 + b + n + 1..5 + b + n + 4] == " <a";
  }

  /** Where the pieces of that text lie. */
  lemma {:induction false} ItemAfterBlankLinesLayout(blank: string, indent: string, bullet: char, rest: string)
    ensures var s, b, n := "</a>\n" + blank + indent + [bullet] + " <a" + rest, |blank|, |indent|;
      && s[..5] == "</a>\n"
      && s[5 + b..5 + b + n + 4] == indent + [bullet] + " <a"
      && s[5 + b + n + 4..] == rest
  {
  }

  /** Blank lines between the link that ends one item and the next item are
      removed, whether they are empty or hold spaces; the next item keeps its
      indentation, and the rest of the text is rewritten in turn. */
  lemma {:induction false} BlankLinesBetweenItemsRemoved(blank: string, indent: string, bullet: char, rest: string)
    requires forall i | 0 <= i < |blank| :: IsWhitespace(blank[i])
    requires blank == [] || IsCrOrLf(blank[|blank| - 1])
    requires forall i | 0 <= i < |indent| :: IsIndent(indent[i])
    requires IsBullet(bullet)
    ensures CollapseTocBlankLines("</a>\n" + blank + indent + [bullet] + " <a" + rest)
            == "</a>\n" + indent + [bullet] + " <a" + CollapseTocBlankLines(rest)
  {
    ItemAfterBlankLinesStep(blank, indent, bullet, rest);
    var item := indent + [bullet] + " <a";
    assert "</a>\n" + item == "</a>\n" + indent + [bullet] + " <a";
  }

  /** The step of the global replace at that match. */
  lemma {:induction false} ItemAfterBlankLinesStep(blank: string, indent: string, bullet: char, rest: string)
    requires forall i | 0 <= i < |blank| :: IsWhitespace(blank[i])
    requires blank == [] || IsCrOrLf(blank[|blank| - 1])
    requires forall i | 0 <= i < |indent| :: IsIndent(indent[i])
    requires IsBullet(bullet)
    ensures CollapseTocBlankLines("</a>\n" + blank + indent + [bullet] + " <a" + rest)
            == "</a>\n" + (indent + [bullet] + " <a") + CollapseTocBlankLines(rest)
  {
    var b, n := |blank|, |indent|;
    var s := "</a>\n" + blank + indent + [bullet] + " <a" + rest;
    ItemAfterBlankLinesMatch(blank, indent, bullet, rest);
    ItemAfterBlankLinesLayout(blank, indent, bullet, rest);
    CollapseStep(s, TocMatch(5, 5 + b, 5 + b + n + 4), "</a>\n", indent + [bullet] + " <a", rest);
  }
}
