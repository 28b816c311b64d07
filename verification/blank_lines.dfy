/** The collapse of excess line breaks left behind by resolved template
    statements: `template.replace(/(\r?\n){3}/g, '\n\n')`, one left-to-right
    pass in which matches do not overlap. */
module BlankLines {
  import opened Text

  /** `n` line breaks `\r?\n` follow one another from position `i`. */
  ghost predicate LineBreakRun(s: string, i: nat, n: nat)
    decreases n
  {
    n == 0 || (LineBreakAt(s, i) > 0 && LineBreakRun(s, i + LineBreakAt(s, i), n - 1))
  }

  /** Length of the match of `(\r?\n){3}` at the start of `s`, or 0 when it
      does not match there. The greedy `\r?` never needs to give its CR back:
      without it the next character would have to be LF. */
  function TripleBreak(s: string): (n: nat)
    ensures n > 0 <==> LineBreakRun(s, 0, 3)
    ensures 3 <= n <= 6 || n == 0
    ensures n <= |s|
    ensures n > 0 ==> exists a, b | 0 < a < b < n ::
      IsLineBreak(s[..a]) && IsLineBreak(s[a..b]) && IsLineBreak(s[b..n])
  {
    var a := LineBreakAt(s, 0);
    if a == 0 then 0
    else
      var b := LineBreakAt(s, a);
      if b == 0 then 0
      else
        var c := LineBreakAt(s, a + b);
        if c == 0 then 0
        else
          LineBreakSlice(s, 0);
          LineBreakSlice(s, a);
          LineBreakSlice(s, a + b);
          a + b + c
  }

  /** The global replace: each match becomes exactly two LFs and the scan
      resumes after it; every other character is copied. */
  function CollapseBlankLines(s: string): (r: string)
    ensures |r| <= |s|
    decreases |s|
  {
    if |s| == 0 then []
    else
      var n := TripleBreak(s);
      if n > 0 then "\n\n" + CollapseBlankLines(s[n..])
      else [s[0]] + CollapseBlankLines(s[1..])
  }

  /** A line break reduces to a single LF, or to nothing, by dropping CR and LF characters. */
  lemma {:induction false} LineBreakErases(s: string, i: nat)
    requires LineBreakAt(s, i) > 0
    ensures Erased(s[i..i + LineBreakAt(s, i)], "\n", IsCrOrLf)
    ensures Erased(s[i..i + LineBreakAt(s, i)], [], IsCrOrLf)
  {
    var t := s[i..i + LineBreakAt(s, i)];
    if |t| == 2 {
      assert t[1..] == "\n";
      assert Erased(t[1..], "\n", IsCrOrLf) by {
        assert "\n"[1..] == [];
      }
    } else {
      assert t == "\n";
      assert "\n"[1..] == [];
    }
  }

  /** The three line breaks of a match reduce to two LFs by dropping CR and LF characters. */
  lemma {:induction false} MatchErases(s: string)
    requires TripleBreak(s) > 0
    ensures Erased(s[..TripleBreak(s)], "\n\n", IsCrOrLf)
  {
    var a := LineBreakAt(s, 0);
    var b := LineBreakAt(s, a);
    var c := LineBreakAt(s, a + b);
    assert a > 0 && b > 0 && c > 0 && TripleBreak(s) == a + b + c;
    var x, y, z := s[0..a], s[a..a + b], s[a + b..a + b + c];
    assert Erased(x, [], IsCrOrLf) by {
      LineBreakErases(s, 0);
    }
    assert Erased(y + z, "\n\n", IsCrOrLf) by {
      LineBreakErases(s, a);
      LineBreakErases(s, a + b);
      ErasedAppend(y, "\n", z, "\n", IsCrOrLf);
      assert "\n" + "\n" == "\n\n";
    }
    assert Erased(x + (y + z), "\n\n", IsCrOrLf) by {
      ErasedAppend(x, [], y + z, "\n\n", IsCrOrLf);
      assert [] + "\n\n" == "\n\n";
    }
    assert x + (y + z) == s[..a + b + c] by {
      SliceJoin(s, a, a + b, a + b + c);
      SliceJoin(s, 0, a, a + b + c);
      assert s[..a + b + c] == s[0..a + b + c];
    }
  }

  /** The pass only deletes CR and LF characters: all other text keeps its order. */
  lemma {:induction false} CollapseDeletesOnlyLineBreaks(s: string)
    ensures Erased(s, CollapseBlankLines(s), IsCrOrLf)
    decreases |s|
  {
    if |s| > 0 {
      var n := TripleBreak(s);
      if n > 0 {
        CollapseDeletesOnlyLineBreaks(s[n..]);
        MatchErases(s);
        ErasedAppend(s[..n], "\n\n", s[n..], CollapseBlankLines(s[n..]), IsCrOrLf);
        assert s[..n] + s[n..] == s;
      } else {
        CollapseDeletesOnlyLineBreaks(s[1..]);
        ErasedNothing([s[0]], IsCrOrLf);
        ErasedAppend([s[0]], [s[0]], s[1..], CollapseBlankLines(s[1..]), IsCrOrLf);
        assert [s[0]] + s[1..] == s;
      }
    }
  }

  /** The pass never lengthens the text, and removing CR and LF from input and
      output gives the same text. */
  lemma {:induction false} CollapseNeverLengthens(s: string)
    ensures |CollapseBlankLines(s)| <= |s|
    ensures Kept(CollapseBlankLines(s), IsCrOrLf) == Kept(s, IsCrOrLf)
  {
    CollapseDeletesOnlyLineBreaks(s);
    ErasedKeepsOthers(s, CollapseBlankLines(s), IsCrOrLf);
  }

  /** Nowhere do three line breaks follow one another. */
  ghost predicate NoTripleBreak(s: string) {
    forall i: nat | i <= |s| :: !LineBreakRun(s, i, 3)
  }

  lemma {:induction false} LineBreakRunShift(s: string, i: nat, n: nat)
    requires 1 <= i <= |s|
    ensures LineBreakRun(s[1..], i - 1, n) <==> LineBreakRun(s, i, n)
    decreases n
  {
    assert LineBreakAt(s[1..], i - 1) == LineBreakAt(s, i);
    if n > 0 && LineBreakAt(s, i) > 0 {
      LineBreakRunShift(s, i + LineBreakAt(s, i), n - 1);
    }
  }

  /** Text in which three line breaks never follow one another is left unchanged. */
  lemma {:induction false} CollapseWithoutTripleIsIdentity(s: string)
    requires NoTripleBreak(s)
    ensures CollapseBlankLines(s) == s
    decreases |s|
  {
    if |s| > 0 {
      assert !LineBreakRun(s, 0, 3);
      forall i: nat | i <= |s[1..]| ensures !LineBreakRun(s[1..], i, 3) {
        LineBreakRunShift(s, i + 1, 3);
      }
      CollapseWithoutTripleIsIdentity(s[1..]);
    }
  }

  function Newlines(n: nat): (r: string)
    ensures |r| == n && forall i | 0 <= i < n :: r[i] == '\n'
  {
    seq(n, _ => '\n')
  }

  /** Text without CR or LF is copied unchanged, whatever follows it: no
      match can start inside it. */
  lemma {:induction false} CollapseCopiesBreakFreePrefix(u: string, v: string)
    requires NoneOf(u, IsCrOrLf)
    ensures CollapseBlankLines(u + v) == u + CollapseBlankLines(v)
    decreases |u|
  {
    if |u| > 0 {
      CollapseBreakFreeStep(u, v);
      CollapseCopiesBreakFreePrefix(u[1..], v);
    } else {
      assert u + v == v;
    }
  }

  /** One step of that copy: the first character of `u` is copied. */
  lemma {:induction false} CollapseBreakFreeStep(u: string, v: string)
    requires |u| > 0 && NoneOf(u, IsCrOrLf)
    ensures CollapseBlankLines(u + v) == [u[0]] + CollapseBlankLines(u[1..] + v)
    ensures NoneOf(u[1..], IsCrOrLf)
    ensures forall w :: [u[0]] + (u[1..] + w) == u + w
  {
    var s := u + v;
    NoneOfSplit(u, [], IsCrOrLf);
    assert s[0] == u[0];
    assert LineBreakAt(s, 0) == 0;
    assert s[1..] == u[1..] + v;
    forall w ensures [u[0]] + (u[1..] + w) == u + w {
      NoneOfSplit(u, w, IsCrOrLf);
    }
  }

  /** One pass turns a run of n LFs into 2 * (n / 3) + n % 3 of them: every
      complete group of three becomes two and a remainder of one or two stays. */
  lemma {:induction false} CollapseNewlineRun(n: nat)
    ensures CollapseBlankLines(Newlines(n)) == Newlines(2 * (n / 3) + n % 3)
    decreases n
  {
    if n >= 3 {
      CollapseThreeNewlines(n);
      CollapseNewlineRun(n - 3);
      var k := 2 * (n / 3) + n % 3;
      assert k == 2 + (2 * ((n - 3) / 3) + (n - 3) % 3) by {
        assert n / 3 == (n - 3) / 3 + 1 && n % 3 == (n - 3) % 3;
      }
      NewlinesSplit(k, 2);
      assert Newlines(2) == "\n\n";
    } else if n > 0 {
      CollapseOneNewline(n);
      CollapseNewlineRun(n - 1);
      NewlinesSplit(n, 1);
      assert Newlines(1) == "\n";
    }
  }

  /** A run of LFs is a shorter run followed by the rest. */
  lemma {:induction false} NewlinesSplit(n: nat, k: nat)
    requires k <= n
    ensures Newlines(n)[k..] == Newlines(n - k)
    ensures Newlines(k) + Newlines(n - k) == Newlines(n)
  {
  }

  /** A run of three or more LFs starts with a match. */
  lemma {:induction false} CollapseThreeNewlines(n: nat)
    requires n >= 3
    ensures CollapseBlankLines(Newlines(n)) == "\n\n" + CollapseBlankLines(Newlines(n - 3))
  {
    var s := Newlines(n);
    assert LineBreakAt(s, 0) == 1 && LineBreakAt(s, 1) == 1 && LineBreakAt(s, 2) == 1;
    NewlinesSplit(n, 3);
  }

  /** A run of one or two LFs holds no match: its first LF is copied. */
  lemma {:induction false} CollapseOneNewline(n: nat)
    requires 0 < n < 3
    ensures CollapseBlankLines(Newlines(n)) == "\n" + CollapseBlankLines(Newlines(n - 1))
  {
    var s := Newlines(n);
    assert TripleBreak(s) == 0;
    NewlinesSplit(n, 1);
  }

  /** The pass is single: four LFs become three, not two, so its output may
      still hold three line breaks in a row, and a second pass changes it again. */
  lemma {:induction false} FourNewlinesBecomeThree()
    ensures CollapseBlankLines("\n\n\n\n") == "\n\n\n"
    ensures CollapseBlankLines(CollapseBlankLines("\n\n\n\n")) == "\n\n"
    ensures CollapseBlankLines("\n\n\n\n\n\n") == "\n\n\n\n"
  {
    assert Newlines(4) == "\n\n\n\n";
    assert Newlines(3) == "\n\n\n";
    assert Newlines(2) == "\n\n";
    assert Newlines(6) == "\n\n\n\n\n\n";
    CollapseNewlineRun(4);
    CollapseNewlineRun(3);
    CollapseNewlineRun(6);
  }

  /** A run of three CRLF line breaks collapses to two bare LFs. */
  lemma {:induction false} CrLfRunBecomesTwoLf()
    ensures CollapseBlankLines("\r\n\r\n\r\n") == "\n\n"
  {
    var s := "\r\n\r\n\r\n";
    assert LineBreakAt(s, 0) == 2 && LineBreakAt(s, 2) == 2 && LineBreakAt(s, 4) == 2;
    assert s[6..] == [];
  }
}
