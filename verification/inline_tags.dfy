/** The rewrite applied to the inner HTML of a table cell that holds an
    anchor, code or emphasis element: a single newline directly before and a
    single newline directly after each of their tags is removed, with
    `html.replace(/\n?(<\/?(?:a|code|em)>?)\n?/gm, '$1')`. The `m` flag has no
    effect on a pattern without `^` or `$`. */
module InlineTags {
  import opened Text

  /** The element names, in the order of the alternation `(?:a|code|em)`. */
  const InlineTagNames: seq<string> := ["a", "code", "em"]

  /** Index of the first alternative, from `k` on, that occurs at `i`. */
  function NameFrom(s: string, i: nat, k: nat): (r: Option<nat>)
    requires k <= |InlineTagNames|
    ensures r.Some? ==> k <= r.value < |InlineTagNames| && LiteralAt(s, i, InlineTagNames[r.value])
    ensures r.None? ==> forall j | k <= j < |InlineTagNames| :: !LiteralAt(s, i, InlineTagNames[j])
    decreases |InlineTagNames| - k
  {
    if k == |InlineTagNames| then None
    else if LiteralAt(s, i, InlineTagNames[k]) then Some(k)
    else NameFrom(s, i, k + 1)
  }

  /** A matched tag: closing or opening, which element name, and whether the
      optional `>` was present. */
  datatype TagToken = TagToken(closing: bool, name: nat, hasGt: bool)

  function TokenText(t: TagToken): (text: string)
    requires t.name < |InlineTagNames|
  {
    "<" + (if t.closing then "/" else "") + InlineTagNames[t.name] + (if t.hasGt then ">" else "")
  }

  function TokenLength(t: TagToken): (n: nat)
    requires t.name < |InlineTagNames|
  {
    1 + (if t.closing then 1 else 0) + |InlineTagNames[t.name]| + (if t.hasGt then 1 else 0)
  }

  /** The match of `<\/?(?:a|code|em)>?` at `i`. The optional slash is greedy
      (tried first, given back if no name follows it), the alternatives are
      tried in order, and the optional `>` is taken whenever present. */
  function TagAt(s: string, i: nat): (t: Option<TagToken>)
    ensures t.Some? ==> t.value.name < |InlineTagNames| && i + TokenLength(t.value) <= |s|
    ensures t.Some? ==>
      var p := i + (if t.value.closing then 2 else 1);
      var e := p + |InlineTagNames[t.value.name]|;
      && s[i] == '<' && (t.value.closing ==> s[i + 1] == '/')
      && LiteralAt(s, p, InlineTagNames[t.value.name])
      && (t.value.hasGt <==> e < |s| && s[e] == '>')
  {
    if !(i < |s| && s[i] == '<') then None
    else
      var slashed := if i + 1 < |s| && s[i + 1] == '/' then NameFrom(s, i + 2, 0) else None;
      if slashed.Some? then
        var e := i + 2 + |InlineTagNames[slashed.value]|;
        Some(TagToken(true, slashed.value, e < |s| && s[e] == '>'))
      else
        match NameFrom(s, i + 1, 0)
        case Some(k) =>
          var e := i + 1 + |InlineTagNames[k]|;
          Some(TagToken(false, k, e < |s| && s[e] == '>'))
        case None => None
  }

  /** A match of the whole pattern anchored at the start of the text: `lead`
      and `trail` count the newlines taken before and after the tag. */
  datatype InlineMatch = InlineMatch(lead: nat, tag: TagToken, trail: nat)
  {
    function TagEnd(): nat
      requires tag.name < |InlineTagNames|
    {
      lead + TokenLength(tag)
    }
  }

  function WithTrail(s: string, lead: nat, t: TagToken): (m: InlineMatch)
    requires t.name < |InlineTagNames|
  {
    var e := lead + TokenLength(t);
    InlineMatch(lead, t, if e < |s| && s[e] == '\n' then 1 else 0)
  }

  /** The greedy leading `\n?` is tried first with the newline, then without
      it; the trailing `\n?` takes a newline whenever one follows the tag. */
  function MatchInlineTag(s: string): (m: Option<InlineMatch>)
    ensures m.Some? ==> m.value.tag.name < |InlineTagNames| && m.value.TagEnd() + m.value.trail <= |s|
  {
    var withLf := if 0 < |s| && s[0] == '\n' then TagAt(s, 1) else None;
    if withLf.Some? then Some(WithTrail(s, 1, withLf.value))
    else
      match TagAt(s, 0)
      case Some(t) => Some(WithTrail(s, 0, t))
      case None => None
  }

  /** The global replace: each match is replaced by its captured tag and the
      scan resumes after the match; every other character is copied. */
  function StripInlineTagNewlines(s: string): (r: string)
    ensures |r| <= |s|
    decreases |s|
  {
    if |s| == 0 then []
    else
      match MatchInlineTag(s)
      case Some(m) => s[m.lead..m.TagEnd()] + StripInlineTagNewlines(s[m.TagEnd() + m.trail..])
      case None => [s[0]] + StripInlineTagNewlines(s[1..])
  }

  /** `t` is an opening or closing inline tag, with or without its `>`. */
  ghost predicate IsInlineTag(t: string) {
    exists k | 0 <= k < |InlineTagNames| ::
      || t == "<" + InlineTagNames[k] || t == "<" + InlineTagNames[k] + ">"
      || t == "</" + InlineTagNames[k] || t == "</" + InlineTagNames[k] + ">"
  }

  /** Every token spells an inline tag. */
  lemma {:induction false} TokenIsInlineTag(t: TagToken)
    requires t.name < |InlineTagNames|
    ensures IsInlineTag(TokenText(t))
  {
    var name := InlineTagNames[t.name];
    if t.closing {
      assert TokenText(t) == "</" + name + (if t.hasGt then ">" else "");
    } else {
      assert TokenText(t) == "<" + name + (if t.hasGt then ">" else "");
    }
  }

  /** The text a matched tag occupies is exactly its token. */
  lemma {:induction false} TagAtSpellsToken(s: string, i: nat)
    requires TagAt(s, i).Some?
    ensures s[i..i + TokenLength(TagAt(s, i).value)] == TokenText(TagAt(s, i).value)
    ensures IsInlineTag(TokenText(TagAt(s, i).value))
  {
    var t := TagAt(s, i).value;
    var name := InlineTagNames[t.name];
    var p := i + (if t.closing then 2 else 1);
    var e := p + |name|;
    var opener := "<" + (if t.closing then "/" else "");
    var close := if t.hasGt then ">" else "";
    assert s[i..p] == opener by {
      if t.closing {
        assert s[i..p] == [s[i], s[i + 1]];
      }
    }
    assert s[p..e] == name;
    assert s[e..e + |close|] == close;
    SliceJoin3(s, i, p, e, e + |close|, opener, name, close);
    assert TokenText(t) == opener + name + close;
    TokenIsInlineTag(t);
  }

  /** What a match consists of: at most one newline, then an inline tag kept
      verbatim, then at most one newline; a newline on either side is always
      taken. */
  lemma {:induction false} MatchShape(s: string)
    requires MatchInlineTag(s).Some?
    ensures var m := MatchInlineTag(s).value;
      && (m.lead == 0 || (m.lead == 1 && s[0] == '\n'))
      && (m.lead == 0 ==> s[0] == '<')
      && IsInlineTag(s[m.lead..m.TagEnd()])
      && (m.trail == 0 || (m.trail == 1 && s[m.TagEnd()] == '\n'))
      && (m.trail == 0 ==> m.TagEnd() == |s| || s[m.TagEnd()] != '\n')
  {
    MatchSpellsTag(s);
  }

  /** The tag part of a match is an inline tag. */
  lemma {:induction false} MatchSpellsTag(s: string)
    requires MatchInlineTag(s).Some?
    ensures var m := MatchInlineTag(s).value;
      m.TagEnd() <= |s| && IsInlineTag(s[m.lead..m.TagEnd()])
  {
    var m := MatchInlineTag(s).value;
    MatchFindsTag(s);
    TagAtSpellsToken(s, m.lead);
  }

  /** The tag of a match is the one found after its leading newlines. */
  lemma {:induction false} MatchFindsTag(s: string)
    requires MatchInlineTag(s).Some?
    ensures MatchInlineTag(s).value.lead <= |s|
    ensures TagAt(s, MatchInlineTag(s).value.lead) == Some(MatchInlineTag(s).value.tag)
  {
  }

  /** `<` or `</` followed by an element name always starts a tag. */
  lemma {:induction false} TagAtOpener(s: string, i: nat, k: nat)
    requires k < |InlineTagNames|
    requires LiteralAt(s, i, "<" + InlineTagNames[k]) || LiteralAt(s, i, "</" + InlineTagNames[k])
    ensures TagAt(s, i).Some?
  {
    var name := InlineTagNames[k];
    if LiteralAt(s, i, "</" + name) {
      assert s[i..i + 2 + |name|] == "</" + name;
      assert s[i] == s[i..i + 2 + |name|][0] == '<';
      assert s[i + 1] == s[i..i + 2 + |name|][1] == '/';
      assert s[i + 2..i + 2 + |name|] == name;
      assert NameFrom(s, i + 2, 0).Some?;
    } else {
      assert s[i..i + 1 + |name|] == "<" + name;
      assert s[i] == s[i..i + 1 + |name|][0] == '<';
      assert s[i + 1..i + 1 + |name|] == name;
      assert NameFrom(s, i + 1, 0).Some?;
    }
  }

  /** A literal after a newline at the start of the text is a literal at position 1. */
  lemma {:induction false} AfterLeadingNewline(s: string, lit: string)
    requires LiteralAt(s, 0, "\n" + lit)
    ensures s[0] == '\n' && LiteralAt(s, 1, lit)
  {
    assert s[0] == s[..1 + |lit|][0];
    assert s[1..1 + |lit|] == s[..1 + |lit|][1..];
  }

  /** A leading `<a`, `<code`, `<em`, `</a`, `</code` or `</em`, or one of
      them after a newline, always starts a match. */
  lemma {:induction false} MatchAtTagOpener(s: string, k: nat)
    requires k < |InlineTagNames|
    requires LiteralAt(s, 0, "<" + InlineTagNames[k]) || LiteralAt(s, 0, "</" + InlineTagNames[k])
             || LiteralAt(s, 0, "\n<" + InlineTagNames[k]) || LiteralAt(s, 0, "\n</" + InlineTagNames[k])
    ensures MatchInlineTag(s).Some?
    ensures MatchInlineTag(s).value.lead == (if s[0] == '\n' then 1 else 0)
  {
    var name := InlineTagNames[k];
    var i := if s[0] == '\n' then 1 else 0;
    assert LiteralAt(s, i, "<" + name) || LiteralAt(s, i, "</" + name) by {
      if LiteralAt(s, 0, "\n<" + name) {
        assert "\n<" + name == "\n" + ("<" + name);
        AfterLeadingNewline(s, "<" + name);
      } else if LiteralAt(s, 0, "\n</" + name) {
        assert "\n</" + name == "\n" + ("</" + name);
        AfterLeadingNewline(s, "</" + name);
      } else {
        assert s[0] == s[..1][0] == '<';
      }
    }
    TagAtOpener(s, i, k);
  }

  /** A match reduces to its captured tag by deleting newlines. */
  lemma {:induction false} MatchErases(s: string)
    requires MatchInlineTag(s).Some?
    ensures var m := MatchInlineTag(s).value;
      Erased(s[..m.TagEnd() + m.trail], s[m.lead..m.TagEnd()], IsLf)
  {
    var m := MatchInlineTag(s).value;
    var b, e := m.TagEnd(), m.TagEnd() + m.trail;
    assert (m.lead == 0 || (m.lead == 1 && s[0] == '\n')) && (m.trail == 0 || (m.trail == 1 && s[b] == '\n')) by {
      MatchShape(s);
    }
    forall p | 0 <= p < m.lead ensures IsLf(s[p]) {
      assert p == 0;
    }
    forall p | b <= p < e ensures IsLf(s[p]) {
      assert p == b;
    }
    ErasedAround(s, m.lead, b, e, IsLf);
  }

  /** The rewrite only deletes newline characters. */
  lemma {:induction false} StripDeletesOnlyNewlines(s: string)
    ensures Erased(s, StripInlineTagNewlines(s), IsLf)
    decreases |s|
  {
    if |s| > 0 {
      match MatchInlineTag(s)
      case Some(m) =>
        var e := m.TagEnd() + m.trail;
        StripDeletesOnlyNewlines(s[e..]);
        MatchErases(s);
        ErasedAppend(s[..e], s[m.lead..m.TagEnd()], s[e..], StripInlineTagNewlines(s[e..]), IsLf);
        assert s[..e] + s[e..] == s;
      case None =>
        StripDeletesOnlyNewlines(s[1..]);
        ErasedNothing([s[0]], IsLf);
        ErasedAppend([s[0]], [s[0]], s[1..], StripInlineTagNewlines(s[1..]), IsLf);
        assert [s[0]] + s[1..] == s;
    }
  }

  /** Every character other than a newline is kept, in order, so each tag
      comes out verbatim; the output is never longer. */
  lemma {:induction false} StripKeepsAllButNewlines(s: string)
    ensures |StripInlineTagNewlines(s)| <= |s|
    ensures Kept(StripInlineTagNewlines(s), IsLf) == Kept(s, IsLf)
  {
    StripDeletesOnlyNewlines(s);
    ErasedKeepsOthers(s, StripInlineTagNewlines(s), IsLf);
  }

  /** A cell without newlines is left unchanged. */
  lemma {:induction false} StripWithoutNewlineIsIdentity(s: string)
    requires NoneOf(s, IsLf)
    ensures StripInlineTagNewlines(s) == s
  {
    StripDeletesOnlyNewlines(s);
    ErasedFromNoneIsIdentity(s, StripInlineTagNewlines(s), IsLf);
  }

  /** A cell without any tag keeps all its newlines. */
  lemma {:induction false} StripWithoutTagIsIdentity(s: string)
    requires NoneOf(s, IsLt)
    ensures StripInlineTagNewlines(s) == s
    decreases |s|
  {
    if |s| > 0 {
      assert s[0] != '<';
      assert |s| > 1 ==> s[1] != '<';
      assert MatchInlineTag(s).None?;
      StripWithoutTagIsIdentity(s[1..]);
    }
  }

  lemma {:induction false} OpeningCodeAfterNewline(s: string, x: string)
    requires s == "\n<code>" + x && (x == [] || x[0] != '\n')
    ensures MatchInlineTag(s) == Some(InlineMatch(1, TagToken(false, 1, true), 0))
  {
    assert NameFrom(s, 2, 0) == Some(1) by {
      assert s[..7] == "\n<code>";
      assert s[2..6] == s[..7][2..6] == "code";
      assert s[2] == 'c';
      assert !LiteralAt(s, 2, "a");
    }
    assert TagAt(s, 1) == Some(TagToken(false, 1, true));
  }

  lemma {:induction false} ClosingCodeLosesNewline(rest: string)
    ensures StripInlineTagNewlines("</code>\n" + rest) == "</code>" + StripInlineTagNewlines(rest)
  {
    var u := "</code>\n" + rest;
    assert NameFrom(u, 2, 0) == Some(1) by {
      assert u[..8] == "</code>\n";
      assert u[2..6] == u[..8][2..6] == "code";
      assert u[2] == 'c';
      assert !LiteralAt(u, 2, "a");
    }
    assert TagAt(u, 0) == Some(TagToken(true, 1, true));
    assert MatchInlineTag(u) == Some(InlineMatch(0, TagToken(true, 1, true), 1));
    StripStep(u);
    assert u[0..7] == "</code>";
    assert u[8..] == rest;
  }

  lemma {:induction false} StripStep(s: string)
    requires |s| > 0
    ensures MatchInlineTag(s).Some? ==>
      var m := MatchInlineTag(s).value;
      StripInlineTagNewlines(s) == s[m.lead..m.TagEnd()] + StripInlineTagNewlines(s[m.TagEnd() + m.trail..])
    ensures MatchInlineTag(s).None? ==> StripInlineTagNewlines(s) == [s[0]] + StripInlineTagNewlines(s[1..])
  {
  }

  lemma {:induction false} NoMatchWithoutLt(s: string)
    requires |s| > 0 && s[0] != '<' && (s[0] != '\n' || |s| == 1 || s[1] != '<')
    ensures MatchInlineTag(s).None?
  {
    assert TagAt(s, 0).None?;
    assert s[0] == '\n' ==> TagAt(s, 1).None?;
  }

  /** A first character that cannot begin a match is copied. */
  lemma {:induction false} StripCopiesFirst(s: string)
    requires |s| > 0 && s[0] != '<' && (s[0] != '\n' || |s| == 1 || s[1] != '<')
    ensures StripInlineTagNewlines(s) == [s[0]] + StripInlineTagNewlines(s[1..])
  {
    NoMatchWithoutLt(s);
    StripStep(s);
  }

  /** Text without tags that does not end in a newline is copied unchanged,
      whatever follows it. */
  lemma {:induction false} StripCopiesTaglessPrefix(u: string, v: string)
    requires NoneOf(u, IsLt) && (u == [] || u[|u| - 1] != '\n')
    ensures StripInlineTagNewlines(u + v) == u + StripInlineTagNewlines(v)
    decreases |u|
  {
    if |u| > 0 {
      StripTaglessStep(u, v);
      StripCopiesTaglessPrefix(u[1..], v);
    } else {
      assert u + v == v;
    }
  }

  /** One step of that copy: the first character of `u` is copied, and the
      rest of `u` is again text without tags that does not end in a
      newline. */
  lemma {:induction false} StripTaglessStep(u: string, v: string)
    requires |u| > 0 && NoneOf(u, IsLt) && u[|u| - 1] != '\n'
    ensures StripInlineTagNewlines(u + v) == [u[0]] + StripInlineTagNewlines(u[1..] + v)
    ensures NoneOf(u[1..], IsLt) && (u[1..] == [] || u[1..][|u[1..]| - 1] != '\n')
    ensures forall w :: [u[0]] + (u[1..] + w) == u + w
  {
    var s := u + v;
    NoneOfSplit(u, [], IsLt);
    assert s[0] == u[0];
    if |u| > 1 {
      assert s[1] == u[1] && !IsLt(u[1]);
      assert u[1..][|u| - 2] == u[|u| - 1];
    }
    StripCopiesFirst(s);
    assert s[1..] == u[1..] + v;
    forall w ensures [u[0]] + (u[1..] + w) == u + w {
      NoneOfSplit(u, w, IsLt);
    }
  }

  /** A table cell whose code element sits on its own line loses the newline
      on each side of the element; the newlines inside its text stay. */
  lemma {:induction false} CodeOnItsOwnLine(x: string)
    requires x != [] && x[0] != '\n' && x[|x| - 1] != '\n' && NoneOf(x, IsLt)
    ensures StripInlineTagNewlines("\n<code>" + (x + "</code>\n")) == "<code>" + (x + "</code>")
  {
    OpeningCodeLosesNewline(x + "</code>\n");
    ClosedCodeLine(x);
  }

  /** The text of a code line followed by its closing tag keeps the text and loses the final newline. */
  lemma {:induction false} ClosedCodeLine(x: string)
    requires x != [] && x[|x| - 1] != '\n' && NoneOf(x, IsLt)
    ensures StripInlineTagNewlines(x + "</code>\n") == x + "</code>"
  {
    assert StripInlineTagNewlines("</code>\n") == "</code>" by {
      ClosingCodeLosesNewline([]);
      assert "</code>\n" + [] == "</code>\n";
      assert "</code>" + [] == "</code>";
    }
    StripCopiesTaglessPrefix(x, "</code>\n");
  }

  lemma {:induction false} OpeningCodeLosesNewline(rest: string)
    requires rest == [] || rest[0] != '\n'
    ensures StripInlineTagNewlines("\n<code>" + rest) == "<code>" + StripInlineTagNewlines(rest)
  {
    var s := "\n<code>" + rest;
    OpeningCodeAfterNewline(s, rest);
    StripStep(s);
    assert s[1..7] == "<code>";
    assert s[7..] == rest;
  }

  /** Only one newline goes before a tag: a blank line before it keeps one. */
  lemma {:induction false} BlankLineBeforeTagKeepsOneNewline()
    ensures StripInlineTagNewlines("\n\n<em>") == "\n<em>"
  {
    var e := "\n\n<em>";
    assert MatchInlineTag(e).None?;
    var f := e[1..];
    assert f == "\n<em>";
    assert NameFrom(f, 2, 0) == Some(2) by {
      assert f[2] == 'e' && f[3] == 'm';
      assert !LiteralAt(f, 2, "a");
      assert !LiteralAt(f, 2, "code");
      assert f[2..4] == "em";
    }
    assert TagAt(f, 1) == Some(TagToken(false, 2, true));
    assert MatchInlineTag(f) == Some(InlineMatch(1, TagToken(false, 2, true), 0));
    assert f[1..5] == "<em>";
    assert f[5..] == [];
  }

  /** `<a` and `<em` are matched as prefixes, so the newline before
      `<abbr>` (or `<article>`, `<aside>`, `<embed>`) is removed too. */
  lemma {:induction false} PrefixOfLongerTagMatches()
    ensures StripInlineTagNewlines("\n<abbr>") == "<abbr>"
  {
    var s := "\n<abbr>";
    assert LiteralAt(s, 2, InlineTagNames[0]);
    assert TagAt(s, 1) == Some(TagToken(false, 0, false));
    assert MatchInlineTag(s) == Some(InlineMatch(1, TagToken(false, 0, false), 0));
    assert NoneOf(s[3..], IsLt);
    StripWithoutTagIsIdentity(s[3..]);
    assert s[1..3] + s[3..] == "<abbr>";
  }
}
