/** The rendering pipeline: a Markdown-with-Liquid template goes through the
    comment clean-up, the Liquid engine, three textual rewrites, the Markdown
    processor and the optional HTML post-processing, and comes out as a
    trimmed HTML string or a parsed document.

    The libraries the pipeline calls (the comment stripper, the Liquid
    engine, the Markdown processor, the HTML parser and the entity encoder)
    are not modelled: they are supplied as functions in a `Libraries`
    value. The two that can fail, the Liquid engine and the Markdown
    processor, return a `Result`; their error is passed on to the caller as
    it is. The method records the stages it runs, each with its input, so
    that the order of the stages and the conditions under which each one
    runs can be stated. */
module ContentRenderer {
  import opened Text
  import CommentPrePass
  import ShellSnippet
  import TocLists
  import BlankLines
  import InlineTags

  datatype Result<T, E> = Success(value: T) | Failure(error: E)

  /** The options the caller may set; each is off when left out. */
  datatype Options = Options(textOnly: bool, cheerioObject: bool, encodeEntities: bool)

  /** What the pipeline hands back: HTML (or text) as a string, or the
      output loaded as an XML document. */
  datatype Rendered<Doc> = Html(html: string) | Document(doc: Doc)

  /** The library calls, left uninterpreted. `process` stands for creating
      the Markdown processor for the context, running it on the text and
      turning the file it produces into a string. `rewriteCells` stands for
      loading the HTML, applying the given rewrite to the inner HTML of every
      table cell that holds an inline tag, and serialising the body again.
      `text` is the text content of the loaded HTML, and `loadXml` loads it
      in XML mode. */
  datatype Libraries<!Ctx, Doc, Err> = Libraries(
    stripHtmlComments: string -> string,
    parseAndRender: (string, Ctx) -> Result<string, Err>,
    process: (string, Ctx) -> Result<string, Err>,
    rewriteCells: (string, string -> string) -> string,
    text: string -> string,
    loadXml: string -> Doc,
    encode: string -> string)

  /** The library calls of the pipeline, in the order in which they run.
      The textual rewrites between them are not stages: they are total
      functions of the model. */
  datatype Stage = CommentStrip | Liquid | Process | CellRewrite | TextExtract | XmlLoad | EntityEncode

  function Rank(st: Stage): (r: nat) {
    match st
    case CommentStrip => 0
    case Liquid => 1
    case Process => 2
    case CellRewrite => 3
    case TextExtract => 4
    case XmlLoad => 5
    case EntityEncode => 6
  }

  /** A library call that was made, with the text it was given. */
  datatype Step = Step(stage: Stage, input: string)

  /** What a library call makes of its input. Extracting the text trims it. */
  function Run<Ctx, Doc, Err>(libs: Libraries<Ctx, Doc, Err>, context: Ctx, step: Step): (r: Result<Rendered<Doc>, Err>) {
    var x := step.input;
    match step.stage
    case CommentStrip => Success(Html(libs.stripHtmlComments(x)))
    case Liquid => Lift(libs.parseAndRender(x, context))
    case Process => Lift(libs.process(x, context))
    case CellRewrite => Success(Html(libs.rewriteCells(x, InlineTags.StripInlineTagNewlines)))
    case TextExtract => Success(Html(Trim(libs.text(x))))
    case XmlLoad => Success(Document(libs.loadXml(x)))
    case EntityEncode => Success(Html(libs.encode(x)))
  }

  function Lift<Doc, Err>(r: Result<string, Err>): (lifted: Result<Rendered<Doc>, Err>) {
    match r
    case Success(h) => Success(Html(h))
    case Failure(e) => Failure(e)
  }

  predicate Invoked(ran: seq<Step>, st: Stage) {
    exists i | 0 <= i < |ran| :: ran[i].stage == st
  }

  /** Every stage runs at most once, and in the fixed order. */
  predicate InStageOrder(ran: seq<Step>) {
    forall i, j | 0 <= i < j < |ran| :: Rank(ran[i].stage) < Rank(ran[j].stage)
  }

  /** Each call is given the HTML the one before produced. */
  predicate Chained<Ctx, Doc, Err>(libs: Libraries<Ctx, Doc, Err>, context: Ctx, ran: seq<Step>) {
    forall i | 0 <= i < |ran| - 1 :: Run(libs, context, ran[i]) == Success(Html(ran[i + 1].input))
  }

  /** The three rewrites between the Liquid engine and the Markdown
      processor, without the test for "</a>" that guards the second. The
      shell block replacement of `renderContent` is `ShellSnippet.ClipboardSnippet`. */
  function Prepare(rendered: string, snippet: ShellSnippet.Replacement): (prepared: string)
    ensures NoneOf(rendered, ShellSnippet.IsBacktick) ==> |prepared| <= |rendered|
  {
    BlankLines.CollapseBlankLines(
      TocLists.CollapseTocBlankLines(
        ShellSnippet.RenderShellSnippets(rendered, snippet)))
  }

  /** The test for "</a>" before the TOC rewrite changes nothing: without
      "</a>" the rewrite has nothing to match. */
  lemma {:induction false} TocGuardRedundant(s: string)
    ensures (if Contains(s, TocLists.AnchorClose) then TocLists.CollapseTocBlankLines(s) else s)
            == TocLists.CollapseTocBlankLines(s)
  {
    if !Contains(s, TocLists.AnchorClose) {
      TocLists.CollapseTocWithoutAnchorIsIdentity(s);
    }
  }

  /** Text with no shell block header, no "</a>" and never three line breaks
      in a row reaches the Markdown processor as the Liquid engine left it. */
  lemma {:induction false} PlainTextPassesUnchanged(s: string, snippet: ShellSnippet.Replacement)
    requires !Contains(s, "```shell") && !Contains(s, "``` shell")
    requires !Contains(s, TocLists.AnchorClose)
    requires BlankLines.NoTripleBreak(s)
    ensures Prepare(s, snippet) == s
  {
    ShellSnippet.ShellSnippetWithoutHeaderIsIdentity(s, snippet);
    TocLists.CollapseTocWithoutAnchorIsIdentity(s);
    BlankLines.CollapseWithoutTripleIsIdentity(s);
  }

  lemma {:induction false} InvokedAppend(a: seq<Step>, b: seq<Step>, st: Stage)
    ensures Invoked(a + b, st) <==> Invoked(a, st) || Invoked(b, st)
  {
    if Invoked(a + b, st) {
      var i :| 0 <= i < |a + b| && (a + b)[i].stage == st;
      if i < |a| {
        assert a[i].stage == st;
      } else {
        assert b[i - |a|].stage == st;
      }
    }
    if Invoked(a, st) {
      var i :| 0 <= i < |a| && a[i].stage == st;
      assert (a + b)[i].stage == st;
    }
    if Invoked(b, st) {
      var i :| 0 <= i < |b| && b[i].stage == st;
      assert (a + b)[|a| + i].stage == st;
    }
  }

  /** Two runs in stage order, the second starting after the first ends,
      make one run in stage order. */
  lemma {:induction false} OrderAppend(a: seq<Step>, b: seq<Step>)
    requires InStageOrder(a) && InStageOrder(b)
    requires |a| > 0 && |b| > 0 ==> Rank(a[|a| - 1].stage) < Rank(b[0].stage)
    ensures InStageOrder(a + b)
  {
    forall i, j | 0 <= i < j < |a + b| ensures Rank((a + b)[i].stage) < Rank((a + b)[j].stage) {
      if i < |a| <= j {
        assert Rank(a[i].stage) <= Rank(a[|a| - 1].stage);
        assert Rank(b[0].stage) <= Rank(b[j - |a|].stage);
      }
    }
  }

  /** Two chained runs, the second given the output of the first, make one
      chained run. */
  lemma {:induction false} ChainAppend<Ctx, Doc, Err>(libs: Libraries<Ctx, Doc, Err>, context: Ctx, a: seq<Step>, b: seq<Step>)
    requires Chained(libs, context, a) && Chained(libs, context, b)
    requires |a| > 0 && |b| > 0 ==> Run(libs, context, a[|a| - 1]) == Success(Html(b[0].input))
    ensures Chained(libs, context, a + b)
  {
    forall i | 0 <= i < |a + b| - 1 ensures Run(libs, context, (a + b)[i]) == Success(Html((a + b)[i + 1].input)) {
      if i < |a| - 1 {
        assert (a + b)[i] == a[i] && (a + b)[i + 1] == a[i + 1];
      } else if i == |a| - 1 {
        assert (a + b)[i] == a[i] && (a + b)[i + 1] == b[0];
      } else {
        assert (a + b)[i] == b[i - |a|] && (a + b)[i + 1] == b[i - |a| + 1];
      }
    }
  }

  /** The two calls before the Markdown processor followed by the calls
      from the processor on. */
  lemma {:induction false} JoinRuns(prefix: seq<Step>, steps: seq<Step>)
    requires |prefix| == 2 && prefix[0].stage == CommentStrip && prefix[1].stage == Liquid
    requires |steps| > 0 && steps[0].stage == Process && InStageOrder(steps)
    ensures var ran := prefix + steps;
      && InStageOrder(ran)
      && ran[..2] == prefix && ran[2..] == steps && ran[|ran| - 1] == steps[|steps| - 1]
      && forall st | st != CommentStrip && st != Liquid :: Invoked(ran, st) <==> Invoked(steps, st)
  {
    OrderAppend(prefix, steps);
    forall st | st != CommentStrip && st != Liquid ensures Invoked(prefix + steps, st) <==> Invoked(steps, st) {
      InvokedAppend(prefix, steps, st);
    }
  }

  /** A run with one more call, which comes later than the last one and is
      given its output. */
  function Extend<Ctx, Doc, Err>(ghost libs: Libraries<Ctx, Doc, Err>, ghost context: Ctx, ran: seq<Step>, step: Step): (r: seq<Step>)
    requires InStageOrder(ran) && Chained(libs, context, ran)
    requires |ran| > 0 ==> Rank(ran[|ran| - 1].stage) < Rank(step.stage)
    requires |ran| > 0 ==> Run(libs, context, ran[|ran| - 1]) == Success(Html(step.input))
    ensures r == ran + [step]
    ensures InStageOrder(r) && Chained(libs, context, r)
    ensures forall st :: Invoked(r, st) <==> Invoked(ran, st) || step.stage == st
  {
    OrderAppend(ran, [step]);
    ChainAppend(libs, context, ran, [step]);
    forall st ensures Invoked(ran + [step], st) <==> Invoked(ran, st) || step.stage == st {
      InvokedAppend(ran, [step], st);
      assert [step][0] == step;
      assert Invoked([step], st) <==> step.stage == st;
    }
    ran + [step]
  }

  /** The three rewrites between the Liquid engine and the Markdown
      processor, as the pipeline runs them: the TOC rewrite only when "</a>"
      occurs. The result is the same as running all three. */
  method RewriteRendered(rendered: string, snippet: ShellSnippet.Replacement) returns (prepared: string)
    ensures prepared == Prepare(rendered, snippet)
  {
    var t := ShellSnippet.RenderShellSnippets(rendered, snippet);
    TocGuardRedundant(t);
    if Contains(t, TocLists.AnchorClose) {
      t := TocLists.CollapseTocBlankLines(t);
    }
    prepared := BlankLines.CollapseBlankLines(t);
  }

  /** The post-processing of the processed HTML: the table cell rewrite when
      "<table>" occurs, then the options. */
  method Finish<Ctx, Doc, Err>(html: string, options: Options, libs: Libraries<Ctx, Doc, Err>, ghost context: Ctx)
    returns (r: Rendered<Doc>, steps: seq<Step>)
    ensures InStageOrder(steps) && Chained(libs, context, steps)
    ensures forall i | 0 <= i < |steps| :: Rank(Process) < Rank(steps[i].stage)
    ensures |steps| > 0 ==> steps[0].input == html
    ensures Invoked(steps, CellRewrite) <==> Contains(html, "<table>")
    ensures Invoked(steps, TextExtract) <==> options.textOnly
    ensures r.Document? <==> options.cheerioObject
    ensures Invoked(steps, EntityEncode) <==> options.encodeEntities && !options.cheerioObject
    ensures r.Document? ==> |steps| > 0 && steps[|steps| - 1].stage == XmlLoad && Success(r) == Run(libs, context, steps[|steps| - 1])
    ensures r.Html? && |steps| == 0 ==> r.html == Trim(html)
    ensures r.Html? && |steps| > 0 ==>
      && Run(libs, context, steps[|steps| - 1]).Success?
      && Run(libs, context, steps[|steps| - 1]).value.Html?
      && r.html == Trim(Run(libs, context, steps[|steps| - 1]).value.html)
  {
    if Contains(html, "<table>") {
      var cell := Step(CellRewrite, html);
      var rest;
      r, rest := ApplyOptions(libs.rewriteCells(html, InlineTags.StripInlineTagNewlines), options, libs, context);
      OrderAppend([cell], rest);
      ChainAppend(libs, context, [cell], rest);
      forall st ensures Invoked([cell] + rest, st) <==> st == CellRewrite || Invoked(rest, st) {
        InvokedAppend([cell], rest, st);
        assert [cell][0] == cell;
      }
      steps := [cell] + rest;
    } else {
      r, steps := ApplyOptions(html, options, libs, context);
    }
  }

  /** The options, in the order the pipeline honours them: text extraction,
      then either the document or, when asked for, entity encoding. A string
      result is trimmed. */
  method ApplyOptions<Ctx, Doc, Err>(html: string, options: Options, libs: Libraries<Ctx, Doc, Err>, ghost context: Ctx)
    returns (r: Rendered<Doc>, steps: seq<Step>)
    ensures InStageOrder(steps) && Chained(libs, context, steps)
    ensures forall i | 0 <= i < |steps| :: Rank(CellRewrite) < Rank(steps[i].stage)
    ensures |steps| > 0 ==> steps[0].input == html
    ensures Invoked(steps, TextExtract) <==> options.textOnly
    ensures r.Document? <==> options.cheerioObject
    ensures Invoked(steps, EntityEncode) <==> options.encodeEntities && !options.cheerioObject
    ensures r.Document? ==> |steps| > 0 && steps[|steps| - 1].stage == XmlLoad && Success(r) == Run(libs, context, steps[|steps| - 1])
    ensures r.Html? && |steps| == 0 ==> r.html == Trim(html)
    ensures r.Html? && |steps| > 0 ==>
      && Run(libs, context, steps[|steps| - 1]).Success?
      && Run(libs, context, steps[|steps| - 1]).value.Html?
      && r.html == Trim(Run(libs, context, steps[|steps| - 1]).value.html)
  {
    var h := html;
    steps := [];
    if options.textOnly {
      steps := [Step(TextExtract, h)];
      h := Trim(libs.text(h));
    }
    if options.cheerioObject {
      steps := Extend(libs, context, steps, Step(XmlLoad, h));
      return Document(libs.loadXml(h)), steps;
    }
    if options.encodeEntities {
      steps := Extend(libs, context, steps, Step(EntityEncode, h));
      h := libs.encode(h);
    }
    return Html(Trim(h)), steps;
  }

  /** The Markdown processor on the prepared text, then the
      post-processing of its output. */
  method ProcessAndFinish<Ctx, Doc, Err>(prepared: string, context: Ctx, options: Options, libs: Libraries<Ctx, Doc, Err>)
    returns (result: Result<Rendered<Doc>, Err>, steps: seq<Step>)
    ensures |steps| > 0 && steps[0] == Step(Process, prepared)
    ensures InStageOrder(steps) && Chained(libs, context, steps)
    ensures libs.process(prepared, context).Success? ==>
      (Invoked(steps, CellRewrite) <==> Contains(libs.process(prepared, context).value, "<table>"))
    ensures result.Failure? ==> steps == [Step(Process, prepared)] && libs.process(prepared, context) == Failure(result.error)
    ensures result.Success? ==>
      && (Invoked(steps, TextExtract) <==> options.textOnly)
      && (result.value.Document? <==> options.cheerioObject)
      && (Invoked(steps, EntityEncode) <==> options.encodeEntities && !options.cheerioObject)
    ensures result.Success? && result.value.Document? ==>
      steps[|steps| - 1].stage == XmlLoad && result == Run(libs, context, steps[|steps| - 1])
    ensures result.Success? && result.value.Html? ==>
      && Run(libs, context, steps[|steps| - 1]).Success?
      && Run(libs, context, steps[|steps| - 1]).value.Html?
      && result.value.html == Trim(Run(libs, context, steps[|steps| - 1]).value.html)
  {
    var head := [Step(Process, prepared)];
    var processed := libs.process(prepared, context);
    if processed.Failure? {
      return Failure(processed.error), head;
    }
    var rendering, tail := Finish(processed.value, options, libs, context);
    OrderAppend(head, tail);
    ChainAppend(libs, context, head, tail);
    forall st ensures Invoked(head + tail, st) <==> st == Process || Invoked(tail, st) {
      InvokedAppend(head, tail, st);
      assert head[0].stage == Process;
    }
    steps := head + tail;
    result := Success(rendering);
  }

  /** What a run of the pipeline on a template that is not empty
      satisfies. The comment stripper is called on the template with the
      newlines before comments removed, the Liquid engine on its output, and
      the Markdown processor, when the Liquid engine succeeds, on what the
      three rewrites make of the Liquid output: the guard on the TOC rewrite
      makes no difference. A failure of the Liquid engine or of the Markdown
      processor ends the run with that failure. From the processor on, each
      call gets the output of the one before: the table cell rewrite only
      when "<table>" occurs in the processed HTML, then text extraction
      first among the options; a document is returned before entity
      encoding could run; and a string result is the trimmed output of the
      last call. */
  ghost predicate PipelineRun<Ctx, Doc, Err>(
    template: string, context: Ctx, options: Options, libs: Libraries<Ctx, Doc, Err>,
    snippet: ShellSnippet.Replacement, result: Result<Rendered<Doc>, Err>, ran: seq<Step>)
  {
    && |ran| >= 2
    && ran[0] == Step(CommentStrip, CommentPrePass.JoinCommentLines(template))
    && ran[1] == Step(Liquid, libs.stripHtmlComments(ran[0].input))
    && InStageOrder(ran)
    && (|ran| > 2 ==>
         && ran[2].stage == Process
         && libs.parseAndRender(ran[1].input, context).Success?
         && ran[2].input == Prepare(libs.parseAndRender(ran[1].input, context).value, snippet)
         && Chained(libs, context, ran[2..]))
    && (|ran| > 2 && libs.process(ran[2].input, context).Success? ==>
         (Invoked(ran, CellRewrite) <==> Contains(libs.process(ran[2].input, context).value, "<table>")))
    && (result.Failure? ==>
         && (ran[|ran| - 1].stage == Liquid || ran[|ran| - 1].stage == Process)
         && Run(libs, context, ran[|ran| - 1]) == Failure(result.error))
    && (result.Success? ==>
         && Invoked(ran, Process)
         && (Invoked(ran, TextExtract) <==> options.textOnly)
         && (result.value.Document? <==> options.cheerioObject)
         && (Invoked(ran, EntityEncode) <==> options.encodeEntities && !options.cheerioObject))
    && (result.Success? && result.value.Document? ==>
         ran[|ran| - 1].stage == XmlLoad && result == Run(libs, context, ran[|ran| - 1]))
    && (result.Success? && result.value.Html? ==>
         && Run(libs, context, ran[|ran| - 1]).Success?
         && Run(libs, context, ran[|ran| - 1]).value.Html?
         && result.value.html == Trim(Run(libs, context, ran[|ran| - 1]).value.html))
  }

  /** A run that is not empty succeeds exactly when the Liquid engine and
      the Markdown processor both succeed on what they are given, and a
      failure is the one that one of the two returned. */
  lemma {:induction false} PipelineOutcome<Ctx, Doc, Err>(
    template: string, context: Ctx, options: Options, libs: Libraries<Ctx, Doc, Err>,
    snippet: ShellSnippet.Replacement, result: Result<Rendered<Doc>, Err>, ran: seq<Step>)
    requires PipelineRun(template, context, options, libs, snippet, result, ran)
    ensures result.Success? <==>
      && |ran| > 2
      && libs.parseAndRender(ran[1].input, context).Success?
      && libs.process(ran[2].input, context).Success?
    ensures result.Failure? ==>
      || libs.parseAndRender(ran[1].input, context) == Failure(result.error)
      || (|ran| > 2 && libs.process(ran[2].input, context) == Failure(result.error))
  {
    var last := |ran| - 1;
    if result.Success? {
      var i :| 0 <= i < |ran| && ran[i].stage == Process;
      assert i >= 2;
      if |ran| > 3 {
        assert ran[2..][0] == ran[2] && ran[2..][1] == ran[3];
        assert Run(libs, context, ran[2]) == Success(Html(ran[3].input));
      }
    } else {
      if ran[last].stage == Liquid {
        assert last == 1;
      } else {
        assert ran[last].stage == Process;
        assert last == 2;
      }
    }
  }

  /** The pipeline, with the shell block replacement of `renderContent`: the code in
      a `<pre><code>` element followed by the clipboard button. An empty
      template is returned as it is without calling any library; any other
      template is rendered as `PipelineRun` describes. Every string result
      is trimmed. */
  method RenderContent<Ctx, Doc, Err>(template: string, context: Ctx, options: Options, libs: Libraries<Ctx, Doc, Err>)
    returns (result: Result<Rendered<Doc>, Err>, ran: seq<Step>)
    ensures |template| == 0 ==> result == Success(Html(template)) && ran == []
    ensures |template| > 0 ==> PipelineRun(template, context, options, libs, ShellSnippet.ClipboardSnippet, result, ran)
    ensures result.Success? && result.value.Html? ==> IsTrimmed(result.value.html)
  {
    if |template| == 0 {
      return Success(Html(template)), [];
    }
    result, ran := RenderTemplate(template, context, options, libs, ShellSnippet.ClipboardSnippet);
  }

  /** The pipeline on a template that is not empty, for any shell block
      replacement. */
  method RenderTemplate<Ctx, Doc, Err>(template: string, context: Ctx, options: Options, libs: Libraries<Ctx, Doc, Err>,
                                       snippet: ShellSnippet.Replacement)
    returns (result: Result<Rendered<Doc>, Err>, ran: seq<Step>)
    requires |template| > 0
    ensures PipelineRun(template, context, options, libs, snippet, result, ran)
  {
    var joined := CommentPrePass.JoinCommentLines(template);
    var stripped := libs.stripHtmlComments(joined);
    ran := [Step(CommentStrip, joined), Step(Liquid, stripped)];
    var rendered := libs.parseAndRender(stripped, context);
    if rendered.Failure? {
      return Failure(rendered.error), ran;
    }

    var prepared := RewriteRendered(rendered.value, snippet);
    var steps;
    result, steps := ProcessAndFinish(prepared, context, options, libs);
    JoinRuns(ran, steps);
    ran := ran + steps;
  }
}
