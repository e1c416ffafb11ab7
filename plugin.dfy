/**
  The submission plugin and the plugin registry (internal/plugin/plugin.go,
  tldrpp/plugin.py): sub-command dispatch, the validation of an example
  against the tldr-pages style rules, the markdown generated for a
  submission, the name-keyed registry and the decision taken on each line of
  the interactive prompt. Printing, `git` / `gh` and temporary files are
  outside the model: the outcomes of the `init` and `create-pr` handlers are
  parameters.
 */
module Plugin {
  import opened Base
  import opened Text
  import opened Types
  import opened Parser

  // ---------------------------------------------------------------------------
  // Lengths
  // ---------------------------------------------------------------------------

  /** Bytes of a code point in UTF-8. */
  function Utf8Size(c: char): nat
  {
    if c as int < 0x80 then 1 else if c as int < 0x800 then 2 else if c as int < 0x10000 then 3 else 4
  }

  /** Go's `len` on a string: its UTF-8 byte count. */
  function Utf8Length(s: string): nat
    decreases |s|
  {
    if s == [] then 0 else Utf8Size(s[0]) + Utf8Length(s[1..])
  }

  /** The length the limits are checked against: bytes in Go, code points in Python. */
  function Length(twin: Twin, s: string): nat
  {
    match twin
    case GoTwin => Utf8Length(s)
    case PyTwin => |s|
  }

  predicate Ascii(s: string)
  {
    forall i :: 0 <= i < |s| ==> s[i] as int < 0x80
  }

  /**
    A string has at least as many bytes as code points and at most four
    times as many, and exactly as many when it is ASCII.
   */
  lemma {:induction false} Utf8LengthBounds(s: string)
    ensures |s| <= Utf8Length(s) <= 4 * |s|
    ensures Utf8Length(s) == |s| <==> Ascii(s)
    decreases |s|
  {
    if s != [] {
      Utf8LengthBounds(s[1..]);
      assert Ascii(s) <==> s[0] as int < 0x80 && Ascii(s[1..]);
    }
  }

  // ---------------------------------------------------------------------------
  // validateExample / _validate_example
  // ---------------------------------------------------------------------------

  datatype Issue =
    | DescriptionTooLong
    | CommandTooLong
    | UsesSudo
    | ChainsCommands
    | EmptyPlaceholderName
    | PlaceholderNameTooLong(name: string)

  const MaxDescription := 80
  const MaxCommand := 100
  const MaxPlaceholderName := 20
  const Sudo := "sudo"
  const Chain := "&&"

  /** The issues of one placeholder name: empty, or too long. */
  function NameIssues(twin: Twin, name: string): seq<Issue>
  {
    (if name == [] then [EmptyPlaceholderName] else [])
    + (if Length(twin, name) > MaxPlaceholderName then [PlaceholderNameTooLong(name)] else [])
  }

  /** The placeholder issues, placeholder by placeholder. */
  function PlaceholderIssues(twin: Twin, ps: seq<Placeholder>): seq<Issue>
    decreases |ps|
  {
    if ps == [] then []
    else
      var n := |ps| - 1;
      PlaceholderIssues(twin, ps[..n]) + NameIssues(twin, ps[n].name)
  }

  /** The checks on the example itself, in the source's order. */
  function HeaderIssues(twin: Twin, e: Example): seq<Issue>
  {
    (if Length(twin, e.description) > MaxDescription then [DescriptionTooLong] else [])
    + (if Length(twin, e.command) > MaxCommand then [CommandTooLong] else [])
    + (if Contains(e.command, Sudo) then [UsesSudo] else [])
    + (if Contains(e.command, Chain) then [ChainsCommands] else [])
  }

  /** Every issue found in an example, in the order they are reported. */
  function ExampleIssues(twin: Twin, e: Example): seq<Issue>
  {
    HeaderIssues(twin, e) + PlaceholderIssues(twin, e.placeholders)
  }

  datatype PluginError =
    | NoCommand
    | UnknownCommand(command: string)
    | ValidationFailed(issues: nat)
    | PluginNotFound(name: string)
    | HandlerFailed(reason: string)

  /** Success, or the validation error carrying the number of issues. */
  function Verdict(issues: seq<Issue>): Result<(), PluginError>
  {
    if issues == [] then Ok(()) else Err(ValidationFailed(|issues|))
  }

  /** The four checks on the example itself, appended one by one. */
  method CheckExample(twin: Twin, e: Example) returns (issues: seq<Issue>)
    ensures issues == HeaderIssues(twin, e)
  {
    issues := [];
    if Length(twin, e.description) > MaxDescription {
      issues := issues + [DescriptionTooLong];
    }
    if Length(twin, e.command) > MaxCommand {
      issues := issues + [CommandTooLong];
    }
    if Contains(e.command, Sudo) {
      issues := issues + [UsesSudo];
    }
    if Contains(e.command, Chain) {
      issues := issues + [ChainsCommands];
    }
  }

  /**
    The validation as the source writes it: the issue list grows check by
    check, then placeholder by placeholder.
   */
  method ValidateExample(twin: Twin, e: Example) returns (issues: seq<Issue>, r: Result<(), PluginError>)
    ensures issues == ExampleIssues(twin, e)
    ensures r == Verdict(issues)
  {
    issues := CheckExample(twin, e);
    var header := issues;
    var ps := e.placeholders;
    var i := 0;
    while i < |ps|
      invariant 0 <= i <= |ps|
      invariant issues == header + PlaceholderIssues(twin, ps[..i])
    {
      assert ps[..i + 1][..i] == ps[..i];
      var name := ps[i].name;
      var before := issues;
      var tooLong := Length(twin, name) > MaxPlaceholderName;
      if name == [] {
        issues := issues + [EmptyPlaceholderName];
      }
      if tooLong {
        issues := issues + [PlaceholderNameTooLong(name)];
      }
      assert issues == before + NameIssues(twin, name);
      assert PlaceholderIssues(twin, ps[..i + 1]) == PlaceholderIssues(twin, ps[..i]) + NameIssues(twin, name);
      i := i + 1;
    }
    assert ps[..|ps|] == ps;
    r := Verdict(issues);
  }

  /** The example meets every rule. */
  predicate Acceptable(twin: Twin, e: Example)
  {
    Length(twin, e.description) <= MaxDescription
    && Length(twin, e.command) <= MaxCommand
    && !Contains(e.command, Sudo)
    && !Contains(e.command, Chain)
    && forall p <- e.placeholders :: p.name != [] && Length(twin, p.name) <= MaxPlaceholderName
  }

  lemma {:induction false} PlaceholderIssuesNone(twin: Twin, ps: seq<Placeholder>)
    ensures PlaceholderIssues(twin, ps) == [] <==>
      forall p <- ps :: p.name != [] && Length(twin, p.name) <= MaxPlaceholderName
    decreases |ps|
  {
    if ps != [] {
      var n := |ps| - 1;
      PlaceholderIssuesNone(twin, ps[..n]);
      assert ps == ps[..n] + [ps[n]];
    }
  }

  /** Validation passes exactly when the example meets every rule. */
  lemma ValidationPasses(twin: Twin, e: Example)
    ensures ExampleIssues(twin, e) == [] <==> Acceptable(twin, e)
    ensures Verdict(ExampleIssues(twin, e)).Ok? <==> Acceptable(twin, e)
  {
    PlaceholderIssuesNone(twin, e.placeholders);
  }

  /** An empty name has length zero, so a placeholder raises at most one issue. */
  lemma NameIssuesAtMostOne(twin: Twin, name: string)
    ensures |NameIssues(twin, name)| <= 1
  {
    if name == [] {
      assert Length(twin, name) == 0;
    }
  }

  lemma {:induction false} PlaceholderIssuesBound(twin: Twin, ps: seq<Placeholder>)
    ensures |PlaceholderIssues(twin, ps)| <= |ps|
    decreases |ps|
  {
    if ps != [] {
      PlaceholderIssuesBound(twin, ps[..|ps| - 1]);
      NameIssuesAtMostOne(twin, ps[|ps| - 1].name);
    }
  }

  /** At most four issues about the example and one per placeholder. */
  lemma IssueCountBound(twin: Twin, e: Example)
    ensures |ExampleIssues(twin, e)| <= 4 + |e.placeholders|
  {
    PlaceholderIssuesBound(twin, e.placeholders);
  }

  lemma {:induction false} PlaceholderIssuesAscii(ps: seq<Placeholder>)
    requires forall p <- ps :: Ascii(p.name)
    ensures PlaceholderIssues(GoTwin, ps) == PlaceholderIssues(PyTwin, ps)
    decreases |ps|
  {
    if ps != [] {
      var n := |ps| - 1;
      assert forall p <- ps[..n] :: p in ps;
      PlaceholderIssuesAscii(ps[..n]);
      Utf8LengthBounds(ps[n].name);
    }
  }

  /** On ASCII text the Go and Python validations report the same issues. */
  lemma ValidationTwinsAgreeOnAscii(e: Example)
    requires Ascii(e.description) && Ascii(e.command)
    requires forall p <- e.placeholders :: Ascii(p.name)
    ensures ExampleIssues(GoTwin, e) == ExampleIssues(PyTwin, e)
  {
    Utf8LengthBounds(e.description);
    Utf8LengthBounds(e.command);
    PlaceholderIssuesAscii(e.placeholders);
  }

  /** Go counts bytes, so an example Go accepts is accepted by Python too. */
  lemma ValidationGoStricter(e: Example)
    requires Acceptable(GoTwin, e)
    ensures Acceptable(PyTwin, e)
  {
    Utf8LengthBounds(e.description);
    Utf8LengthBounds(e.command);
    forall p <- e.placeholders ensures Length(PyTwin, p.name) <= MaxPlaceholderName {
      Utf8LengthBounds(p.name);
    }
  }

  // ---------------------------------------------------------------------------
  // Execute / execute
  // ---------------------------------------------------------------------------

  /**
    A registered plugin: the submission plugin for a page and example, or
    another implementation of the plugin interface, known by its name.
   */
  datatype Plugin = Submit(page: Page, example: Example) | External(name: string, description: string)

  function Name(p: Plugin): string
  {
    match p
    case Submit(_, _) => "submit"
    case External(name, _) => name
  }

  /**
    What the handlers that touch the world return (`init` and `create-pr`
    of the submission plugin, the `Execute` of any other plugin).
   */
  datatype Effects = Effects(initSubmission: Result<(), PluginError>, createPullRequest: Result<(), PluginError>,
                             external: Result<(), PluginError>)

  const InitCommand := "init"
  const ValidateCommand := "validate"
  const CreatePrCommand := "create-pr"

  /** The submission plugin's dispatch on its first argument. */
  function SubmitExecute(twin: Twin, example: Example, args: seq<string>, fx: Effects): (r: Result<(), PluginError>)
    ensures args == [] ==> r == Err(NoCommand)
    ensures args != [] && args[0] == InitCommand ==> r == fx.initSubmission
    ensures args != [] && args[0] == ValidateCommand ==> r == Verdict(ExampleIssues(twin, example))
    ensures args != [] && args[0] == CreatePrCommand ==> r == fx.createPullRequest
    ensures args != [] && args[0] !in {InitCommand, ValidateCommand, CreatePrCommand} ==> r == Err(UnknownCommand(args[0]))
  {
    if args == [] then Err(NoCommand)
    else if args[0] == InitCommand then fx.initSubmission
    else if args[0] == ValidateCommand then Verdict(ExampleIssues(twin, example))
    else if args[0] == CreatePrCommand then fx.createPullRequest
    else Err(UnknownCommand(args[0]))
  }

  function Execute(twin: Twin, p: Plugin, args: seq<string>, fx: Effects): Result<(), PluginError>
  {
    match p
    case Submit(_, example) => SubmitExecute(twin, example, args, fx)
    case External(_, _) => fx.external
  }

  /**
    Only the three sub-commands succeed, and `validate` succeeds exactly
    when the example meets every rule.
   */
  lemma SubmitDispatch(twin: Twin, example: Example, args: seq<string>, fx: Effects)
    ensures SubmitExecute(twin, example, args, fx).Ok? ==> args != [] && args[0] in {InitCommand, ValidateCommand, CreatePrCommand}
    ensures args != [] && args[0] == ValidateCommand ==>
      (SubmitExecute(twin, example, args, fx).Ok? <==> Acceptable(twin, example))
  {
    ValidationPasses(twin, example);
  }

  // ---------------------------------------------------------------------------
  // generateMarkdown / _generate_markdown
  // ---------------------------------------------------------------------------

  /** The lines of a submitted page: title, quote, item and code line, blank lines between. */
  function MarkdownLines(page: Page, example: Example): seq<string>
  {
    ["# " + page.name, "", "> " + page.description + ".", "", "- " + example.description + ":",
     "  `" + example.command + "`"]
  }

  /** The page text: Go ends it with a newline, Python's join does not. */
  function GenerateMarkdown(twin: Twin, page: Page, example: Example): string
  {
    match twin
    case GoTwin => Join(MarkdownLines(page, example) + [""], '\n')
    case PyTwin => Join(MarkdownLines(page, example), '\n')
  }

  /**
    The text as Python assembles it: the four pieces `# N\n`, `> D.\n`,
    `- E:` and the code line joined with newlines, without a final newline.
   */
  lemma MarkdownTextPython(page: Page, example: Example)
    ensures GenerateMarkdown(PyTwin, page, example)
      == ("# " + page.name + "\n") + "\n" + ("> " + page.description + ".\n") + "\n" + ("- " + example.description + ":") + "\n"
         + ("  `" + example.command + "`")
  {
    var l := MarkdownLines(page, example);
    JoinSix(l[0], l[1], l[2], l[3], l[4], l[5]);
    assert l == [l[0], l[1], l[2], l[3], l[4], l[5]];
  }

  /** Go's text is Python's with a final newline. */
  lemma MarkdownTwins(page: Page, example: Example)
    ensures GenerateMarkdown(GoTwin, page, example) == GenerateMarkdown(PyTwin, page, example) + "\n"
  {
    JoinAppendEmpty(MarkdownLines(page, example), '\n');
  }

  /** The text as Go writes it: `# N\n\n`, `> D.\n\n`, `- E:\n` and the code line with a newline. */
  lemma MarkdownTextGo(page: Page, example: Example)
    ensures GenerateMarkdown(GoTwin, page, example)
      == "# " + page.name + "\n\n" + "> " + page.description + ".\n\n" + "- " + example.description + ":\n"
         + "  `" + example.command + "`\n"
  {
    MarkdownTextPython(page, example);
    MarkdownTwins(page, example);
  }

  lemma JoinSix(a: string, b: string, c: string, d: string, e: string, f: string)
    ensures Join([a, b, c, d, e, f], '\n') == a + "\n" + b + "\n" + c + "\n" + d + "\n" + e + "\n" + f
  {
    var l := [a, b, c, d, e, f];
    assert l[5..] == [f];
    assert l[4..] == [e, f];
    assert l[3..] == [d, e, f];
    assert l[2..] == [c, d, e, f];
    assert l[1..] == [b, c, d, e, f];
    assert Join(l[4..], '\n') == e + "\n" + f;
    assert Join(l[3..], '\n') == d + "\n" + (e + "\n" + f);
    assert Join(l[2..], '\n') == c + "\n" + (d + "\n" + (e + "\n" + f));
    assert Join(l[1..], '\n') == b + "\n" + (c + "\n" + (d + "\n" + (e + "\n" + f)));
  }

  /** A final empty part adds one separator at the end. */
  lemma {:induction false} JoinAppendEmpty(parts: seq<string>, sep: char)
    requires |parts| > 0
    ensures Join(parts + [""], sep) == Join(parts, sep) + [sep]
    decreases |parts|
  {
    var g := parts + [""];
    if |parts| == 1 {
      assert g[1..] == [""];
    } else {
      assert g[1..] == parts[1..] + [""];
      JoinAppendEmpty(parts[1..], sep);
    }
  }

  /** The line that opens the submitted example's code block, trimmed. */
  lemma TrimCodeLine(c: string)
    ensures Trim("  `" + c + "`") == "`" + c + "`"
  {
    var t := "`" + c + "`";
    assert "  `" + c + "`" == "  " + t;
    TrimLeftSpaces("  ", t);
    TrimUnchanged(t);
  }

  /** Go removes every backtick around the command, hence the condition on its ends. */
  predicate Unticked(c: string)
  {
    c == [] || (c[0] != '`' && c[|c| - 1] != '`')
  }

  lemma StripSubmittedTicks(twin: Twin, c: string)
    requires twin == GoTwin ==> Unticked(c)
    ensures StripTicks(twin, "`" + c + "`") == c
  {
    var t := "`" + c + "`";
    if twin == GoTwin {
      assert t[1..] == c + "`";
      assert DropLeadingTicks(t) == DropLeadingTicks(c + "`");
      if c == [] {
        assert DropLeadingTicks("`") == DropLeadingTicks("");
      } else {
        assert DropLeadingTicks(c + "`") == c + "`";
        assert (c + "`")[..|c|] == c;
      }
    }
  }

  /** No field holds a line break, so the text splits back into its lines. */
  predicate SingleLine(page: Page, example: Example)
  {
    '\n' !in page.name && '\n' !in page.description && '\n' !in example.description && '\n' !in example.command
  }

  lemma MarkdownLinesSplit(twin: Twin, page: Page, example: Example)
    requires SingleLine(page, example)
    ensures Lines(GenerateMarkdown(twin, page, example))
      == MarkdownLines(page, example) + (if twin == GoTwin then [""] else [])
  {
    var l := MarkdownLines(page, example);
    NoBreakAppend("# ", page.name, "");
    NoBreakAppend("> ", page.description, ".");
    NoBreakAppend("- ", example.description, ":");
    NoBreakAppend("  `", example.command, "`");
    assert forall k :: 0 <= k < |l| ==> '\n' !in l[k];
    if twin == GoTwin {
      var g := l + [""];
      assert forall k :: 0 <= k < |g| ==> '\n' !in g[k];
      JoinSplit(g, '\n');
    } else {
      JoinSplit(l, '\n');
    }
  }

  lemma NoBreakAppend(a: string, b: string, c: string)
    requires '\n' !in a && '\n' !in b && '\n' !in c
    ensures '\n' !in a + b + c && '\n' !in a + b
  {
  }

  /**
    The submitted text parses back into a page with the description `D.`
    and exactly one example, `E:` with the command `C` and its placeholders;
    for Go the command must not start or end with a backtick.
   */
  lemma MarkdownRoundTrip(twin: Twin, page: Page, example: Example, entry: IndexEntry)
    requires SingleLine(page, example)
    requires twin == GoTwin ==> Unticked(example.command)
    ensures var parsed := ParseSpec(twin, GenerateMarkdown(twin, page, example), entry);
      parsed.description == page.description + "."
      && parsed.examples == [Example(example.description + ":", example.command, PlaceholdersOf(example.command))]
      && parsed.name == entry.name && parsed.platform == entry.platform
  {
    MarkdownLinesSplit(twin, page, example);
    MarkdownFold(twin, page, example, entry, Lines(GenerateMarkdown(twin, page, example)));
  }

  /** The parser's state after the lines of a submitted page: one open example. */
  lemma MarkdownFold(twin: Twin, page: Page, example: Example, entry: IndexEntry, lines: seq<string>)
    requires SingleLine(page, example)
    requires twin == GoTwin ==> Unticked(example.command)
    requires lines == MarkdownLines(page, example) + (if twin == GoTwin then [""] else [])
    ensures Fold(twin, Init(entry), lines)
      == State(page.description + ".", [], Some(Example(example.description + ":", example.command, PlaceholdersOf(example.command))),
               twin == PyTwin)
  {
    var s3 := Init(entry).(description := page.description + ".", inExample := false);
    MarkdownFoldHeader(twin, page, example, entry, lines);
    MarkdownFoldExample(twin, page, example, s3, lines);
  }

  /** The heading, the quote and the blank lines set the description and nothing else. */
  lemma MarkdownFoldHeader(twin: Twin, page: Page, example: Example, entry: IndexEntry, lines: seq<string>)
    requires SingleLine(page, example)
    requires |lines| >= 4 && lines[..4] == MarkdownLines(page, example)[..4]
    ensures Fold(twin, Init(entry), lines) == Fold(twin, Init(entry).(description := page.description + ".", inExample := false), lines[4..])
  {
    var l := MarkdownLines(page, example);
    var s0 := Init(entry);
    assert lines[0] == l[0] && lines[1] == l[1] && lines[2] == l[2] && lines[3] == l[3];
    StepHeading(twin, s0, l[0]);
    StepBlank(twin, s0);
    var s1 := s0.(inExample := false);
    StepQuote(twin, s1, page.description);
    var s2 := s1.(description := page.description + ".");
    StepBlank(twin, s2);
    var s3 := s2.(inExample := false);
    FoldStep(twin, s0, lines, 0, s0);
    FoldStep(twin, s0, lines, 1, s1);
    FoldStep(twin, s1, lines, 2, s2);
    FoldStep(twin, s2, lines, 3, s3);
    assert lines[0..] == lines;
  }

  /** The item and code lines open the example, and Go's final empty line closes the block. */
  lemma MarkdownFoldExample(twin: Twin, page: Page, example: Example, s3: State, lines: seq<string>)
    requires SingleLine(page, example)
    requires twin == GoTwin ==> Unticked(example.command)
    requires lines == MarkdownLines(page, example) + (if twin == GoTwin then [""] else [])
    requires s3.examples == [] && s3.current == None
    ensures Fold(twin, s3, lines[4..])
      == State(s3.description, [], Some(Example(example.description + ":", example.command, PlaceholdersOf(example.command))),
               twin == PyTwin)
  {
    var l := MarkdownLines(page, example);
    var c := example.command;
    assert lines[4] == l[4] && lines[5] == l[5];
    StepItem(twin, s3, example.description);
    var s4 := State(s3.description, [], Some(Example(example.description + ":", "", [])), true);
    StepCode(twin, s4, c);
    var s5 := s4.(current := Some(Example(example.description + ":", c, PlaceholdersOf(c))));
    FoldStep(twin, s3, lines, 4, s4);
    FoldStep(twin, s4, lines, 5, s5);
    if twin == GoTwin {
      StepBlank(twin, s5);
      FoldStep(twin, s5, lines, 6, s5.(inExample := false));
      assert lines[7..] == [];
    } else {
      assert lines[6..] == [];
    }
  }

  /** The quote line sets the description. */
  lemma StepQuote(twin: Twin, st: State, d: string)
    ensures Step(twin, st, "> " + d + ".") == st.(description := d + ".")
  {
    var t := "> " + d + ".";
    TrimUnchanged(t);
    assert t[..2] == "> " && t[2..] == d + ".";
  }

  /** The item line opens an example, filing the open one. */
  lemma StepItem(twin: Twin, st: State, e: string)
    ensures Step(twin, st, "- " + e + ":") == State(st.description, All(st), Some(Example(e + ":", "", [])), true)
  {
    var t := "- " + e + ":";
    TrimUnchanged(t);
    assert t[..2] == "- " && t[2..] == e + ":";
  }

  /** The code line sets the open example's command and placeholders. */
  lemma StepCode(twin: Twin, st: State, c: string)
    requires st.inExample && st.current.Some?
    requires twin == GoTwin ==> Unticked(c)
    ensures Step(twin, st, "  `" + c + "`")
      == st.(current := Some(st.current.value.(command := c, placeholders := PlaceholdersOf(c))))
  {
    TrimCodeLine(c);
    StripSubmittedTicks(twin, c);
    var t := "`" + c + "`";
    assert t[0] == '`' && t[|t| - 1] == '`';
    StepTicked(twin, st, "  `" + c + "`");
  }


  /** One unfolding of the parser loop at line `k`. */
  lemma FoldStep(twin: Twin, st: State, lines: seq<string>, k: nat, next: State)
    requires k < |lines| && Step(twin, st, lines[k]) == next
    ensures Fold(twin, st, lines[k..]) == Fold(twin, next, lines[k + 1..])
  {
    assert lines[k..][0] == lines[k] && lines[k..][1..] == lines[k + 1..];
  }

  // ---------------------------------------------------------------------------
  // PluginManager
  // ---------------------------------------------------------------------------

  /**
    The registry: plugins by name, and the names in the order they were first
    registered (the iteration order of a Python dict; Go's map order is
    unspecified, and this is one of its orders).
   */
  class PluginManager {
    var plugins: map<string, Plugin>
    var order: seq<string>

    /** Every name is listed once, and every plugin is filed under its own name. */
    ghost predicate Valid()
      reads this
    {
      (forall n :: n in plugins <==> n in order)
      && Distinct(order)
      && (forall n :: n in plugins ==> Name(plugins[n]) == n)
    }

    constructor()
      ensures Valid() && plugins == map[] && order == []
    {
      plugins := map[];
      order := [];
    }

    /** `RegisterPlugin` / `register_plugin`: file under the plugin's name, replacing any earlier one. */
    method RegisterPlugin(p: Plugin)
      requires Valid()
      modifies this
      ensures Valid()
      ensures plugins == old(plugins)[Name(p) := p]
      ensures order == if Name(p) in old(plugins) then old(order) else old(order) + [Name(p)]
    {
      if Name(p) !in plugins {
        order := order + [Name(p)];
      }
      plugins := plugins[Name(p) := p];
    }

    /** `ExecutePlugin` / `execute_plugin`: an unknown name is an error, otherwise the plugin runs. */
    method ExecutePlugin(twin: Twin, name: string, args: seq<string>, fx: Effects) returns (r: Result<(), PluginError>)
      ensures name !in plugins ==> r == Err(PluginNotFound(name))
      ensures name in plugins ==> r == Execute(twin, plugins[name], args, fx)
    {
      if name !in plugins {
        return Err(PluginNotFound(name));
      }
      r := Execute(twin, plugins[name], args, fx);
    }

    /** `ListPlugins` / `list_plugins`: the registered plugins, one per name, in registration order. */
    method ListPlugins() returns (ps: seq<Plugin>)
      requires Valid()
      ensures |ps| == |order|
      ensures forall i :: 0 <= i < |ps| ==> ps[i] == plugins[order[i]] && Name(ps[i]) == order[i]
    {
      ps := [];
      var i := 0;
      while i < |order|
        invariant 0 <= i <= |order|
        invariant |ps| == i
        invariant forall j :: 0 <= j < i ==> ps[j] == plugins[order[j]]
      {
        assert order[i] in order;
        ps := ps + [plugins[order[i]]];
        i := i + 1;
      }
    }
  }

  /** A listing in registration order names every registered plugin exactly once. */
  lemma ListedOnce(plugins: map<string, Plugin>, order: seq<string>, ps: seq<Plugin>, n: string)
    requires forall m :: m in plugins <==> m in order
    requires Distinct(order)
    requires |ps| == |order| && forall i :: 0 <= i < |ps| ==> Name(ps[i]) == order[i]
    requires n in plugins
    ensures exists i :: 0 <= i < |ps| && Name(ps[i]) == n
    ensures forall i, j :: 0 <= i < |ps| && 0 <= j < |ps| && Name(ps[i]) == n && Name(ps[j]) == n ==> i == j
  {
    var i :| 0 <= i < |order| && order[i] == n;
    assert Name(ps[i]) == n;
  }

  // ---------------------------------------------------------------------------
  // The interactive prompt
  // ---------------------------------------------------------------------------

  /** What the prompt does with one input line. */
  datatype LineAction = Skip | Stop | ShowHelp | ShowList | ShowUsage | Dispatch(plugin: string, args: seq<string>)

  const ExitWord := "exit"
  const QuitWord := "quit"
  const HelpWord := "help"
  const ListWord := "list"

  /**
    The decision on a line, the same in both twins: trimmed, a blank line is
    skipped, `exit` and `quit` stop, `help` and `list` show, fewer than two
    words print the usage, and otherwise the first word names the plugin and
    the rest are its arguments.
   */
  function Classify(raw: string): LineAction
  {
    var line := Trim(raw);
    if line == [] then Skip
    else if line == ExitWord || line == QuitWord then Stop
    else if line == HelpWord then ShowHelp
    else if line == ListWord then ShowList
    else
      var parts := Fields(line);
      if |parts| < 2 then ShowUsage else Dispatch(parts[0], parts[1..])
  }

  /**
    A dispatched line names a plugin and at least one argument, all of them
    words, and they are exactly the words of the line.
   */
  lemma ClassifyDispatch(raw: string)
    ensures Classify(raw).Dispatch? ==>
      var d := Classify(raw);
      IsWord(d.plugin) && |d.args| >= 1 && (forall a <- d.args :: IsWord(a))
      && Fields(Trim(raw)) == [d.plugin] + d.args
  {
    var parts := Fields(Trim(raw));
    FieldsAreWords(Trim(raw));
    if |parts| >= 2 {
      assert parts[0] in parts;
      assert forall a <- parts[1..] :: a in parts;
      assert parts == [parts[0]] + parts[1..];
    }
  }

  /** White space around a line changes nothing. */
  lemma ClassifyTrimmed(raw: string)
    ensures Classify(Trim(raw)) == Classify(raw)
  {
    TrimIdempotent(raw);
  }
}
