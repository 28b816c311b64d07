/** The clean-up run just before HTML comments are stripped: every newline
    that directly precedes a comment opener is deleted, so that removing the
    comment afterwards leaves no blank line behind. The global replace
    `template.replace(/\n<!--/g, '<!--')`. */
module CommentPrePass {
  import opened Text

  const CommentOpen := "<!--"
  const NewlineCommentOpen := "\n<!--"

  /** The global replace, scanning left to right: where the pattern matches,
      the replacement is emitted and the scan resumes after the match;
      elsewhere one character is copied. */
  function JoinCommentLines(s: string): (r: string)
    ensures |r| <= |s|
    decreases |s|
  {
    if |s| == 0 then []
    else if LiteralAt(s, 0, NewlineCommentOpen) then CommentOpen + JoinCommentLines(s[|NewlineCommentOpen|..])
    else [s[0]] + JoinCommentLines(s[1..])
  }

  /** A first character other than a newline is copied. */
  lemma {:induction false} JoinCopiesNonNewline(s: string)
    requires |s| > 0 && s[0] != '\n'
    ensures JoinCommentLines(s) == [s[0]] + JoinCommentLines(s[1..])
  {
    assert !LiteralAt(s, 0, NewlineCommentOpen);
  }

  /** The pass copies a leading piece that holds no newline unchanged. */
  lemma {:induction false} JoinCopiesNewlineFreePrefix(u: string, v: string)
    requires NoneOf(u, IsLf)
    ensures JoinCommentLines(u + v) == u + JoinCommentLines(v)
  {
    if |u| > 0 {
      NoneOfSplit(u, JoinCommentLines(v), IsLf);
      assert (u + v)[0] == u[0] && u[0] != '\n';
      JoinCopiesNonNewline(u + v);
      assert (u + v)[1..] == u[1..] + v;
      JoinCopiesNewlineFreePrefix(u[1..], v);
    } else {
      assert u + v == v;
    }
  }

  /** A literal holding neither a newline nor `<` starts the output exactly
      when it starts the input. */
  lemma {:induction false} JoinKeepsLeadingLiteral(t: string, lit: string)
    requires NoneOf(lit, IsLf) && forall i | 0 <= i < |lit| :: lit[i] != '<'
    ensures LiteralAt(JoinCommentLines(t), 0, lit) <==> LiteralAt(t, 0, lit)
    decreases |lit|
  {
    if |lit| > 0 && |t| > 0 {
      var r := JoinCommentLines(t);
      if LiteralAt(t, 0, NewlineCommentOpen) {
        assert r[0] == '<';
        assert lit[0] != '<' && lit[0] != '\n';
        assert !LiteralAt(r, 0, lit) by {
          if |lit| <= |r| {
            assert r[..|lit|][0] == r[0];
          }
        }
        assert !LiteralAt(t, 0, lit) by {
          if |lit| <= |t| {
            assert t[..|lit|][0] == t[0];
          }
        }
      } else {
        assert r == [t[0]] + JoinCommentLines(t[1..]);
        JoinKeepsLeadingLiteral(t[1..], lit[1..]);
        assert LiteralAt(r, 0, lit) <==> r[0] == lit[0] && LiteralAt(r[1..], 0, lit[1..]) by {
          if |lit| <= |r| {
            assert r[..|lit|] == [r[0]] + r[1..][..|lit| - 1];
          }
        }
        assert LiteralAt(t, 0, lit) <==> t[0] == lit[0] && LiteralAt(t[1..], 0, lit[1..]) by {
          if |lit| <= |t| {
            assert t[..|lit|] == [t[0]] + t[1..][..|lit| - 1];
          }
        }
      }
    } else if |lit| > 0 {
      assert JoinCommentLines(t) == [];
    }
  }

  /** The pass only deletes newline characters. */
  lemma {:induction false} JoinDeletesOnlyNewlines(s: string)
    ensures Erased(s, JoinCommentLines(s), IsLf)
    decreases |s|
  {
    if |s| > 0 {
      if LiteralAt(s, 0, NewlineCommentOpen) {
        JoinDeletesOnlyNewlines(s[5..]);
        ErasedNothing(CommentOpen, IsLf);
        assert Erased(s[..5], CommentOpen, IsLf) by {
          assert s[..5][1..] == CommentOpen;
        }
        ErasedAppend(s[..5], CommentOpen, s[5..], JoinCommentLines(s[5..]), IsLf);
        assert s[..5] + s[5..] == s;
      } else {
        JoinDeletesOnlyNewlines(s[1..]);
        ErasedNothing([s[0]], IsLf);
        ErasedAppend([s[0]], [s[0]], s[1..], JoinCommentLines(s[1..]), IsLf);
        assert [s[0]] + s[1..] == s;
      }
    }
  }

  /** Exactly one character is deleted per occurrence of a newline followed by
      a comment opener. */
  lemma {:induction false} JoinShortensByOccurrences(s: string)
    ensures |JoinCommentLines(s)| == |s| - Occurrences(s, NewlineCommentOpen)
    decreases |s|
  {
    if |s| > 0 {
      if LiteralAt(s, 0, NewlineCommentOpen) {
        JoinShortensByOccurrences(s[5..]);
        assert s[1..5] == CommentOpen;
        OccurrencesSkip(s[1..], NewlineCommentOpen, 4);
        assert s[1..][4..] == s[5..];
      } else {
        JoinShortensByOccurrences(s[1..]);
      }
    }
  }

  /** At a match, the input and the output each hold one comment opener
      before what follows the match. */
  lemma {:induction false} JoinedOpenerCounted(s: string)
    requires LiteralAt(s, 0, NewlineCommentOpen)
    ensures Occurrences(JoinCommentLines(s), CommentOpen) == 1 + Occurrences(JoinCommentLines(s[5..]), CommentOpen)
    ensures Occurrences(s, CommentOpen) == 1 + Occurrences(s[5..], CommentOpen)
  {
    var rest := s[5..];
    var r := JoinCommentLines(s);
    assert Occurrences(r, CommentOpen) == 1 + Occurrences(JoinCommentLines(rest), CommentOpen) by {
      assert r == CommentOpen + JoinCommentLines(rest);
      assert r[..4] == CommentOpen;
      OccurrencesOfLeadingLiteral(r, CommentOpen);
      assert r[4..] == JoinCommentLines(rest);
    }
    assert Occurrences(s, CommentOpen) == 1 + Occurrences(rest, CommentOpen) by {
      OccurrencesSkip(s, CommentOpen, 1);
      assert s[1..][..4] == CommentOpen;
      OccurrencesOfLeadingLiteral(s[1..], CommentOpen);
      assert s[1..][4..] == rest;
    }
  }

  /** Where a character is copied, a comment opener starts in the output
      exactly when one starts in the input. */
  lemma {:induction false} CopiedOpenerCounted(s: string)
    requires |s| > 0 && !LiteralAt(s, 0, NewlineCommentOpen)
    ensures LiteralAt(JoinCommentLines(s), 0, CommentOpen) <==> LiteralAt(s, 0, CommentOpen)
    ensures JoinCommentLines(s)[1..] == JoinCommentLines(s[1..])
  {
    var r := JoinCommentLines(s);
    assert r == [s[0]] + JoinCommentLines(s[1..]);
    if s[0] == '<' {
      JoinKeepsLeadingLiteral(s[1..], "!--");
      assert LiteralAt(r, 0, CommentOpen) <==> LiteralAt(r[1..], 0, "!--") by {
        if 4 <= |r| {
          assert r[..4] == [r[0]] + r[1..][..3];
        }
      }
      assert LiteralAt(s, 0, CommentOpen) <==> LiteralAt(s[1..], 0, "!--") by {
        if 4 <= |s| {
          assert s[..4] == [s[0]] + s[1..][..3];
        }
      }
    } else {
      assert !LiteralAt(r, 0, CommentOpen) by {
        if 4 <= |r| {
          assert r[..4][0] == r[0];
        }
      }
      assert !LiteralAt(s, 0, CommentOpen) by {
        if 4 <= |s| {
          assert s[..4][0] == s[0];
        }
      }
    }
  }

  /** Every comment opener survives, and none is created. */
  lemma {:induction false} JoinKeepsCommentOpeners(s: string)
    ensures Occurrences(JoinCommentLines(s), CommentOpen) == Occurrences(s, CommentOpen)
    decreases |s|
  {
    if |s| > 0 {
      if LiteralAt(s, 0, NewlineCommentOpen) {
        JoinKeepsCommentOpeners(s[5..]);
        JoinedOpenerCounted(s);
      } else {
        JoinKeepsCommentOpeners(s[1..]);
        CopiedOpenerCounted(s);
      }
    }
  }

  /** Text in which no newline precedes a comment opener is left unchanged. */
  lemma {:induction false} JoinWithoutMatchIsIdentity(s: string)
    requires !Contains(s, NewlineCommentOpen)
    ensures JoinCommentLines(s) == s
    decreases |s|
  {
    if |s| > 0 {
      assert !LiteralAt(s, 0, NewlineCommentOpen);
      AbsentFromSuffix(s, NewlineCommentOpen, 1);
      JoinWithoutMatchIsIdentity(s[1..]);
    }
  }

  /** Only one newline goes per comment: a blank line before a comment still
      leaves a newline in front of it. */
  lemma {:induction false} BlankLineBeforeCommentKeepsOneNewline()
    ensures JoinCommentLines("\n\n<!--") == "\n<!--"
  {
    assert !LiteralAt("\n\n<!--", 0, NewlineCommentOpen) by {
      assert "\n\n<!--"[..5][1] == '\n' != NewlineCommentOpen[1];
    }
    assert "\n\n<!--"[1..] == NewlineCommentOpen;
    assert JoinCommentLines(NewlineCommentOpen) == CommentOpen + JoinCommentLines([]);
  }

  /** A comment on its own line is joined to the line before it. */
  lemma {:induction false} CommentJoinsPrecedingLine()
    ensures JoinCommentLines("a\n<!--c-->") == "a<!--c-->"
  {
    var t := "\n<!--c-->";
    assert JoinCommentLines("c-->") == "c-->" by {
      JoinCopiesNewlineFreePrefix("c-->", []);
      assert "c-->" + [] == "c-->";
    }
    assert JoinCommentLines(t) == "<!--c-->" by {
      assert LiteralAt(t, 0, NewlineCommentOpen);
      assert t[5..] == "c-->";
    }
    assert JoinCommentLines("a\n<!--c-->") == "a" + JoinCommentLines(t) by {
      JoinCopiesNewlineFreePrefix("a", t);
      assert "a" + t == "a\n<!--c-->";
    }
  }
}
