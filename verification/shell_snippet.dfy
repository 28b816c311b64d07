/** The rewrite of fenced shell code blocks in the rendered Markdown into
    ready-made HTML with a copy-to-clipboard button: a global replace of the
    pattern ```` ``` ?shell\r?\n\s*?(\S[\s\S]*?)\r?\n.*?``` ```` by a fixed
    piece of HTML, the captured code, and another fixed piece of HTML. The
    captured code is inserted as it is, without escaping, so tags such as
    `<em>` and entities such as `&lt;` in it keep their meaning. The `m` flag
    has no effect on a pattern without `^` or `$`. */
module ShellSnippet {
  import opened Text

  const Fence := "```"

  /** A replacement of the form `before + '$1' + after`: the captured code
      is inserted between two fixed pieces of text. */
  datatype Replacement = Replacement(before: string, after: string)

  function Wrap(r: Replacement, code: string): (w: string) {
    r.before + code + r.after
  }

  /** The replacement that `renderContent` uses: a scrollable `<pre><code>` element of
      class `hljs language-shell`, then the clipboard button with its copy and
      check icons. */
  const ClipboardSnippet := Replacement(
    "<div class=\"overflow-auto position-relative snippet-clipboard-content\"><pre><code class=\"hljs language-shell\">",
    "</code></pre><div class=\"clipboard-container position-absolute right-0 top-0\"><button aria-label=Copy class=\"m-2 ClipboardButton btn js-clipboard-copy p-0\"data-copy-feedback=Copied! role=button><svg aria-hidden=true class=\"m-2 octicon js-clipboard-copy-icon octicon-copy\"data-view-component=true height=16 viewBox=\"0 0 16 16\"width=16><path d=\"M0 6.75C0 5.784.784 5 1.75 5h1.5a.75.75 0 010 1.5h-1.5a.25.25 0 00-.25.25v7.5c0 .138.112.25.25.25h7.5a.25.25 0 00.25-.25v-1.5a.75.75 0 011.5 0v1.5A1.75 1.75 0 019.25 16h-7.5A1.75 1.75 0 010 14.25v-7.5z\"fill-rule=evenodd></path><path d=\"M5 1.75C5 .784 5.784 0 6.75 0h7.5C15.216 0 16 .784 16 1.75v7.5A1.75 1.75 0 0114.25 11h-7.5A1.75 1.75 0 015 9.25v-7.5zm1.75-.25a.25.25 0 00-.25.25v7.5c0 .138.112.25.25.25h7.5a.25.25 0 00.25-.25v-7.5a.25.25 0 00-.25-.25h-7.5z\"fill-rule=evenodd></path></svg> <svg aria-hidden=true class=\"m-2 octicon color-fg-success d-none js-clipboard-check-icon octicon-check\"data-view-component=true height=16 viewBox=\"0 0 16 16\"width=16><path d=\"M13.78 4.22a.75.75 0 010 1.06l-7.25 7.25a.75.75 0 01-1.06 0L2.22 9.28a.75.75 0 011.06-1.06L6 10.94l6.72-6.72a.75.75 0 011.06 0z\"fill-rule=evenodd></path></svg></button></div></div>")

  predicate IsBacktick(c: char) {
    c == '`'
  }

  /** "```" starts at position `p`. */
  predicate FenceAt(s: string, p: nat) {
    p + 3 <= |s| && IsBacktick(s[p]) && IsBacktick(s[p + 1]) && IsBacktick(s[p + 2])
  }

  lemma {:induction false} FenceAtIsLiteral(s: string, p: nat)
    ensures FenceAt(s, p) <==> LiteralAt(s, p, Fence)
  {
    if p + 3 <= |s| {
      assert s[p..p + 3] == [s[p], s[p + 1], s[p + 2]];
    }
  }

  /** No line terminator lies from `a` up to `b`: `.` matches all of it. */
  predicate OnOneLine(s: string, a: nat, b: nat)
    requires a <= b <= |s|
  {
    forall j | a <= j < b :: !IsLineTerminator(s[j])
  }

  /** Length of the opening line ```` ``` ?shell\r?\n ```` at the start of `s`,
      or 0 when `s` does not start with one. The greedy optional space and
      carriage return never need to be given back: without them the next
      character of the pattern would not match. */
  function HeaderLength(s: string): (n: nat)
    ensures n <= |s|
    ensures n > 0 <==>
      || (LiteralAt(s, 0, "```shell") && LineBreakAt(s, 8) > 0)
      || (LiteralAt(s, 0, "``` shell") && LineBreakAt(s, 9) > 0)
    ensures n > 0 ==> FenceAt(s, 0) && s[n - 1] == '\n'
    ensures n > 0 ==> s[..n] in {"```shell\n", "```shell\r\n", "``` shell\n", "``` shell\r\n"}
  {
    var k := if LiteralAt(s, 0, "``` shell") then 9 else if LiteralAt(s, 0, "```shell") then 8 else 0;
    assert LiteralAt(s, 0, "```shell") ==> s[3] == 's' && !LiteralAt(s, 0, "``` shell");
    if k == 0 || LineBreakAt(s, k) == 0 then 0
    else
      assert s[..k][..3] == s[..3];
      var n := k + LineBreakAt(s, k);
      LineBreakSlice(s, k);
      assert s[..k] == s[0..k] == (if k == 9 then "``` shell" else "```shell");
      assert s[..n] == s[..k] + s[k..n];
      HeaderSpellings(s[..k], s[k..n]);
      n
  }

  /** The four spellings of the opening line. */
  lemma {:induction false} HeaderSpellings(tag: string, br: string)
    requires tag == "``` shell" || tag == "```shell"
    requires IsLineBreak(br)
    ensures tag + br in {"```shell\n", "```shell\r\n", "``` shell\n", "``` shell\r\n"}
  {
    assert "```shell" + "\n" == "```shell\n";
    assert "```shell" + "\r\n" == "```shell\r\n";
    assert "``` shell" + "\n" == "``` shell\n";
    assert "``` shell" + "\r\n" == "``` shell\r\n";
  }

  /** Position of the first non-whitespace character at or after `i`: where
      the lazy `\s*?` stops, since `\S` must match right after it. */
  function FirstNonWhitespace(s: string, i: nat): (r: Option<nat>)
    requires i <= |s|
    ensures r.Some? ==> i <= r.value < |s| && !IsWhitespace(s[r.value]) && AllWhitespace(s[i..r.value])
    ensures r.None? ==> AllWhitespace(s[i..])
    decreases |s| - i
  {
    if i == |s| then None
    else if !IsWhitespace(s[i]) then Some(i)
    else
      var r := FirstNonWhitespace(s, i + 1);
      assert r.Some? ==> s[i..r.value] == [s[i]] + s[i + 1..r.value];
      assert s[i..] == [s[i]] + s[i + 1..];
      r
  }

  /** Position of the closing fence found by the lazy `.*?```` from `q`: the
      first "```" that no line terminator separates from `q`. */
  function FenceOnLine(s: string, q: nat): (r: Option<nat>)
    requires q <= |s|
    ensures r.Some? ==>
      && q <= r.value && FenceAt(s, r.value) && OnOneLine(s, q, r.value)
      && forall p | q <= p < r.value :: !FenceAt(s, p)
    ensures r.None? ==> forall p | q <= p <= |s| && OnOneLine(s, q, p) :: !FenceAt(s, p)
    decreases |s| - q
  {
    if FenceAt(s, q) then Some(q)
    else if q < |s| && !IsLineTerminator(s[q]) then FenceOnLine(s, q + 1)
    else None
  }

  /** The captured code may end at `e`: a line break `\r?\n` starts there and
      the line after it holds a closing fence. */
  predicate ClosesAt(s: string, e: nat) {
    LineBreakAt(s, e) > 0 && FenceOnLine(s, e + LineBreakAt(s, e)).Some?
  }

  /** Where the lazy `[\s\S]*?` stops: the first position from `e` on at
      which the code can end. */
  function CloseFrom(s: string, e: nat): (r: Option<nat>)
    requires e <= |s|
    ensures r.Some? ==> e <= r.value < |s| && ClosesAt(s, r.value) && forall k | e <= k < r.value :: !ClosesAt(s, k)
    ensures r.None? ==> forall k | e <= k < |s| :: !ClosesAt(s, k)
    decreases |s| - e
  {
    if e == |s| then None
    else if ClosesAt(s, e) then Some(e)
    else CloseFrom(s, e + 1)
  }

  /** A match anchored at the start of the text: the captured code is
      `s[code..codeEnd]` and the match ends at `end`, just after the closing
      fence. */
  datatype ShellMatch = ShellMatch(code: nat, codeEnd: nat, end: nat)

  /** The match of the pattern at the start of `s`. The code starts at the
      first non-whitespace character after the opening line and ends at the
      first line break whose next line holds "```"; the text before that
      fence on its line is part of the match and is dropped. */
  function MatchShellSnippet(s: string): (m: Option<ShellMatch>)
    ensures m.Some? ==> m.value.code < m.value.codeEnd < m.value.end <= |s|
  {
    var h := HeaderLength(s);
    if h == 0 then None
    else
      match FirstNonWhitespace(s, h)
      case None => None
      case Some(c) =>
        match CloseFrom(s, c + 1)
        case None => None
        case Some(e) =>
          var p := FenceOnLine(s, e + LineBreakAt(s, e)).value;
          Some(ShellMatch(c, e, p + 3))
  }

  /** What a match consists of: the opening line, whitespace, the code,
      which starts with a non-whitespace character and ends at the first
      line break after its first character whose next line holds "```", then
      that line break and the text of the closing line up to and including
      its first "```". */
  lemma {:induction false} MatchShellSnippetShape(s: string)
    requires MatchShellSnippet(s).Some?
    ensures var h := HeaderLength(s);
      var m := MatchShellSnippet(s).value;
      var c, e, n := m.code, m.codeEnd, m.end;
      && h > 0 && h <= c && FenceAt(s, 0)
      && AllWhitespace(s[h..c]) && !IsWhitespace(s[c])
      && ClosesAt(s, e) && (forall k | c < k < e :: !ClosesAt(s, k))
      && e + LineBreakAt(s, e) <= n - 3 && FenceAt(s, n - 3)
      && OnOneLine(s, e + LineBreakAt(s, e), n - 3)
      && (forall p | e + LineBreakAt(s, e) <= p < n - 3 :: !FenceAt(s, p))
  {
  }

  /** The first non-whitespace character after a position is unique. */
  lemma {:induction false} FirstNonWhitespaceUnique(s: string, i: nat, c: nat)
    requires i <= c < |s| && AllWhitespace(s[i..c]) && !IsWhitespace(s[c])
    ensures FirstNonWhitespace(s, i) == Some(c)
  {
    forall j | i <= j < c ensures IsWhitespace(s[j]) {
      assert s[i..c][j - i] == s[j];
    }
    assert forall j | i <= j < |s| :: s[i..][j - i] == s[j];
    assert forall j, k | i <= j < k <= |s| :: forall l | j <= l < k :: s[j..k][l - j] == s[l];
  }

  /** Completeness: an opening line, code starting with a non-whitespace
      character and a later line break followed by a line holding "```"
      always make a match, and the code it captures starts there and ends no
      later than that line break. */
  lemma {:induction false} MatchWhenClosed(s: string, c: nat, e: nat)
    requires HeaderLength(s) > 0 && HeaderLength(s) <= c < e < |s|
    requires AllWhitespace(s[HeaderLength(s)..c]) && !IsWhitespace(s[c])
    requires ClosesAt(s, e)
    ensures MatchShellSnippet(s).Some?
    ensures MatchShellSnippet(s).value.code == c && MatchShellSnippet(s).value.codeEnd <= e
  {
    FirstNonWhitespaceUnique(s, HeaderLength(s), c);
    assert CloseFrom(s, c + 1).Some?;
  }

  /** The global replace: each match becomes its captured code wrapped in
      the two pieces of the replacement and the scan resumes after the
      closing fence; every other character is copied. */
  function RenderShellSnippets(s: string, rep: Replacement): (r: string)
    ensures NoneOf(s, IsBacktick) ==> r == s
    decreases |s|
  {
    if |s| == 0 then []
    else
      match MatchShellSnippet(s)
      case Some(m) => Wrap(rep, s[m.code..m.codeEnd]) + RenderShellSnippets(s[m.end..], rep)
      case None => [s[0]] + RenderShellSnippets(s[1..], rep)
  }

  /** Text in which "```" is never followed by "shell" or " shell" is left
      unchanged. */
  lemma {:induction false} ShellSnippetWithoutHeaderIsIdentity(s: string, rep: Replacement)
    requires !Contains(s, "```shell") && !Contains(s, "``` shell")
    ensures RenderShellSnippets(s, rep) == s
    decreases |s|
  {
    if |s| > 0 {
      assert !LiteralAt(s, 0, "```shell") && !LiteralAt(s, 0, "``` shell");
      assert MatchShellSnippet(s).None?;
      AbsentFromSuffix(s, "```shell", 1);
      AbsentFromSuffix(s, "``` shell", 1);
      ShellSnippetWithoutHeaderIsIdentity(s[1..], rep);
    }
  }

  lemma {:induction false} PrependRegroups(u: string, t: string)
    requires |u| > 0
    ensures [u[0]] + (u[1..] + t) == u + t
  {
    assert [u[0]] + u[1..] == u;
  }

  /** Text without backticks before a snippet is copied unchanged, in order. */
  lemma {:induction false} ShellSnippetCopiesPlainPrefix(u: string, v: string, rep: Replacement)
    requires NoneOf(u, IsBacktick)
    ensures RenderShellSnippets(u + v, rep) == u + RenderShellSnippets(v, rep)
    decreases |u|
  {
    if |u| > 0 {
      var s := u + v;
      assert s[0] == u[0] != '`';
      assert !FenceAt(s, 0);
      assert MatchShellSnippet(s).None?;
      assert s[1..] == u[1..] + v;
      ShellSnippetCopiesPlainPrefix(u[1..], v, rep);
      calc {
        RenderShellSnippets(s, rep);
        [u[0]] + RenderShellSnippets(u[1..] + v, rep);
        [u[0]] + (u[1..] + RenderShellSnippets(v, rep));
        { PrependRegroups(u, RenderShellSnippets(v, rep)); }
        u + RenderShellSnippets(v, rep);
      }
    } else {
      assert u + v == v;
    }
  }

  /** No closing fence is found on a line that ends at `b` before "```" appears on it. */
  lemma {:induction false} NoFenceBeforeBreak(s: string, q: nat, b: nat)
    requires q <= b < |s| && IsLineTerminator(s[b])
    requires forall p | q <= p && p + 3 <= b :: !FenceAt(s, p)
    ensures FenceOnLine(s, q).None?
    decreases b - q
  {
    assert !FenceAt(s, q);
    if q < b {
      NoFenceBeforeBreak(s, q + 1, b);
    }
  }

  /** A fence preceded on its line only by characters that are neither line
      terminators nor backticks is the one the lazy `.*?` reaches. */
  lemma {:induction false} FenceAfterPlainText(s: string, q: nat, n: nat)
    requires FenceAt(s, q + n)
    requires forall p | q <= p < q + n :: !IsLineTerminator(s[p]) && !IsBacktick(s[p])
    ensures FenceOnLine(s, q) == Some(q + n)
    decreases n
  {
    if n > 0 {
      assert !FenceAt(s, q);
      FenceAfterPlainText(s, q + 1, n - 1);
    }
  }

  /** No line break inside code without "```" can end it, provided the code
      is followed by a newline and does not end with a carriage return. */
  lemma {:induction false} NoCloseInsideCode(s: string, c: nat, e: nat)
    requires c < e < |s| && s[e] == '\n' && s[e - 1] != '\r'
    requires forall p | c <= p && p + 3 <= e :: !FenceAt(s, p)
    ensures forall k | c < k < e :: !ClosesAt(s, k)
  {
    forall k | c < k < e ensures !ClosesAt(s, k) {
      var n := LineBreakAt(s, k);
      if n > 0 {
        assert k + n <= e;
        NoFenceBeforeBreak(s, k + n, e);
      }
    }
  }

  /** The opening line "```shell\n" is nine characters long. */
  lemma {:induction false} ShellHeader(s: string)
    requires LiteralAt(s, 0, "```shell\n")
    ensures HeaderLength(s) == 9
  {
    assert s[..8] == s[..9][..8] == "```shell" && s[8] == '\n' && s[3] == 's';
  }

  /** The match of a shell block whose opening line is "```shell\n", whose
      code runs from `c` to `e` after whitespace from 9 to `c`, and whose
      closing fence starts at `f`. */
  lemma {:induction false} ShellBlockMatch(s: string, c: nat, e: nat, f: nat)
    requires LiteralAt(s, 0, "```shell\n") && 9 <= c < e < f && FenceAt(s, f)
    requires AllWhitespace(s[9..c]) && !IsWhitespace(s[c]) && s[e] == '\n' && s[e - 1] != '\r'
    requires forall p | c <= p && p + 3 <= e :: !FenceAt(s, p)
    requires forall p | e < p < f :: !IsLineTerminator(s[p]) && !IsBacktick(s[p])
    ensures MatchShellSnippet(s).Some?
    ensures MatchShellSnippet(s).value.code == c
    ensures MatchShellSnippet(s).value.codeEnd == e
    ensures MatchShellSnippet(s).value.end == f + 3
  {
    assert HeaderLength(s) == 9 by {
      ShellHeader(s);
    }
    assert FirstNonWhitespace(s, 9) == Some(c) by {
      FirstNonWhitespaceUnique(s, 9, c);
    }
    assert FenceOnLine(s, e + 1) == Some(f) by {
      ClosingLine(s, e, f);
    }
    assert CloseFrom(s, c + 1) == Some(e) by {
      ClosingLine(s, e, f);
      NoCloseInsideCode(s, c, e);
      CloseFromFirst(s, c + 1, e);
    }
    assert LineBreakAt(s, e) == 1;
    MatchFromParts(s, 9, c, e, f);
  }

  /** The match assembled from where its parts were found. */
  lemma {:induction false} MatchFromParts(s: string, h: nat, c: nat, e: nat, f: nat)
    requires 0 < h == HeaderLength(s) && FirstNonWhitespace(s, h) == Some(c) && CloseFrom(s, c + 1) == Some(e)
    requires FenceOnLine(s, e + LineBreakAt(s, e)) == Some(f)
    ensures MatchShellSnippet(s).Some?
    ensures MatchShellSnippet(s).value.code == c
    ensures MatchShellSnippet(s).value.codeEnd == e
    ensures MatchShellSnippet(s).value.end == f + 3
  {
  }

  /** A newline followed by a line whose first "```" starts at `f`. */
  lemma {:induction false} ClosingLine(s: string, e: nat, f: nat)
    requires e < f && FenceAt(s, f) && s[e] == '\n'
    requires forall p | e < p < f :: !IsLineTerminator(s[p]) && !IsBacktick(s[p])
    ensures ClosesAt(s, e) && FenceOnLine(s, e + LineBreakAt(s, e)) == Some(f)
  {
    assert LineBreakAt(s, e) == 1;
    FenceAfterPlainText(s, e + 1, f - e - 1);
  }

  lemma {:induction false} CloseFromFirst(s: string, from: nat, e: nat)
    requires from <= e < |s| && ClosesAt(s, e)
    requires forall k | from <= k < e :: !ClosesAt(s, k)
    ensures CloseFrom(s, from) == Some(e)
    decreases e - from
  {
    if from < e {
      assert !ClosesAt(s, from);
      CloseFromFirst(s, from + 1, e);
    }
  }

  /** A shell block is replaced by the snippet HTML holding its code
      verbatim. Whitespace before the code, blank lines included, is dropped;
      so is whatever precedes "```" on the closing line. The text after the
      closing fence is rewritten in turn. */
  lemma {:induction false} ShellBlockRendered(lead: string, code: string, closing: string, rest: string, rep: Replacement)
    requires AllWhitespace(lead)
    requires code != [] && !IsWhitespace(code[0]) && code[|code| - 1] != '\r'
    requires !Contains(code, Fence)
    requires NoneOf(closing, IsLineTerminator) && NoneOf(closing, IsBacktick)
    ensures RenderShellSnippets("```shell\n" + lead + code + "\n" + closing + Fence + rest, rep)
            == Wrap(rep, code) + RenderShellSnippets(rest, rep)
  {
    var s := "```shell\n" + lead + code + "\n" + closing + Fence + rest;
    var c := 9 + |lead|;
    var e := c + |code|;
    var f := e + 1 + |closing|;
    assert s[..9] == "```shell\n";
    assert s[9..c] == lead;
    assert s[c..e] == code;
    assert FenceAt(s, f) by {
      assert s[f..f + 3] == Fence;
      FenceAtIsLiteral(s, f);
    }
    forall p | c <= p && p + 3 <= e ensures !FenceAt(s, p) {
      assert s[p..p + 3] == code[p - c..p - c + 3];
      assert !LiteralAt(code, p - c, Fence);
      FenceAtIsLiteral(s, p);
      FenceAtIsLiteral(code, p - c);
    }
    forall p | e < p < f ensures !IsLineTerminator(s[p]) && !IsBacktick(s[p]) {
      assert s[p] == closing[p - e - 1];
    }
    ShellBlockMatch(s, c, e, f);
    assert s[f + 3..] == rest;
  }
}
