/**
  The page parser shared by the Go and Python implementations
  (`ParsePage` in internal/types/types.go, `_parse_page` in tldrpp/cache.py):
  a line-by-line state machine over the markdown of a page, and a
  block-structured reading of the same format that it is proved to agree with.
 */
module Parser {
  import opened Base
  import opened Text
  import opened Types

  /** The loop variables of the parser. */
  datatype State = State(description: string, examples: seq<Example>, current: Option<Example>, inExample: bool)

  /** Before the first line: the description comes from the catalog entry. */
  function Init(entry: IndexEntry): State
  {
    State(entry.description, [], None, false)
  }

  /** The examples collected so far, the open one last. */
  function All(st: State): seq<Example>
  {
    st.examples + OptSeq(st.current)
  }


  /** Go `strings.TrimLeft(s, "`")`. */
  function DropLeadingTicks(s: string): (r: string)
    ensures |r| <= |s| && r == s[|s| - |r|..]
    ensures r == [] || r[0] != '`'
    decreases |s|
  {
    if |s| > 0 && s[0] == '`' then DropLeadingTicks(s[1..]) else s
  }

  /** Go `strings.TrimRight(s, "`")`. */
  function DropTrailingTicks(s: string): (r: string)
    ensures |r| <= |s| && r == s[..|r|]
    ensures r == [] || r[|r| - 1] != '`'
    decreases |s|
  {
    if |s| > 0 && s[|s| - 1] == '`' then DropTrailingTicks(s[..|s| - 1]) else s
  }

  /**
    The command inside a code line: Go's `strings.Trim(line, "`")` removes
    every leading and trailing backtick, Python's `line[1:-1]` exactly one
    from each end.
   */
  function StripTicks(twin: Twin, t: string): string
  {
    match twin
    case GoTwin => DropTrailingTicks(DropLeadingTicks(t))
    case PyTwin => if |t| < 2 then [] else t[1..|t| - 1]
  }

  /** One iteration of the parser loop on a raw line. */
  function Step(twin: Twin, st: State, raw: string): State
  {
    var t := Trim(raw);
    if IsPrefix("# ", t) then st
    else if IsPrefix("> ", t) then st.(description := t[2..])
    else if IsPrefix("- ", t) then State(st.description, All(st), Some(Example(t[2..], "", [])), true)
    else if (IsPrefix("`", t) && IsSuffix("`", t)) && st.inExample && st.current.Some? then
      var cmd := StripTicks(twin, t);
      st.(current := Some(st.current.value.(command := cmd, placeholders := PlaceholdersOf(cmd))))
    else if t == [] then st.(inExample := false)
    else st
  }

  function Fold(twin: Twin, st: State, lines: seq<string>): State
    decreases |lines|
  {
    if lines == [] then st else Fold(twin, Step(twin, st, lines[0]), lines[1..])
  }

  function Lines(content: string): seq<string>
  {
    Split(content, '\n')
  }

  /** The page the parser returns for `content` read for the catalog entry `entry`. */
  function ParseSpec(twin: Twin, content: string, entry: IndexEntry): (page: Page)
    ensures page.name == entry.name && page.platform == entry.platform && page.rawContent == content
  {
    var st := Fold(twin, Init(entry), Lines(content));
    Page(entry.name, st.description, entry.platform, All(st), content)
  }

  /**
    The parser as the source writes it: one pass over the lines with the
    description, the finished examples, the open example and the in-example
    flag as loop variables. The Go version never returns an error, so only
    the page is returned.
   */
  method ParsePage(twin: Twin, content: string, entry: IndexEntry) returns (page: Page)
    ensures page == ParseSpec(twin, content, entry)
  {
    var lines := Split(content, '\n');
    var description := entry.description;
    var examples: seq<Example> := [];
    var current: Option<Example> := None;
    var inExample := false;
    var i := 0;
    while i < |lines|
      invariant 0 <= i <= |lines|
      invariant inExample ==> current.Some?
      invariant Fold(twin, State(description, examples, current, inExample), lines[i..])
        == Fold(twin, Init(entry), lines)
    {
      ghost var before := State(description, examples, current, inExample);
      assert lines[i..][1..] == lines[i + 1..];
      var line := Trim(lines[i]);
      if IsPrefix("# ", line) {
      } else if IsPrefix("> ", line) {
        description := line[2..];
      } else if IsPrefix("- ", line) {
        if current.Some? {
          examples := examples + [current.value];
        }
        current := Some(Example(line[2..], "", []));
        inExample := true;
      } else if IsPrefix("`", line) && IsSuffix("`", line) && inExample {
        var command := StripTicks(twin, line);
        current := Some(current.value.(command := command, placeholders := PlaceholdersOf(command)));
      } else if line == [] {
        inExample := false;
      }
      assert State(description, examples, current, inExample) == Step(twin, before, lines[i]);
      i := i + 1;
    }
    if current.Some? {
      examples := examples + [current.value];
    }
    page := Page(entry.name, description, entry.platform, examples, content);
  }

  // ---------------------------------------------------------------------------
  // Single lines
  // ---------------------------------------------------------------------------

  /** A line that starts with `#` is skipped by the parser. */
  lemma StepHeading(twin: Twin, st: State, raw: string)
    requires raw != [] && raw[0] == '#'
    ensures Step(twin, st, raw) == st
  {
    TrimRightKeepsFirst(raw);
    assert TrimLeft(raw) == raw;
  }

  /** A blank line closes the open example's block. */
  lemma StepBlank(twin: Twin, st: State)
    ensures Step(twin, st, "") == st.(inExample := false)
  {
    assert Trim("") == "";
  }

  /** A line wrapped in backticks inside an example sets its command. */
  lemma StepTicked(twin: Twin, st: State, raw: string)
    requires st.inExample && st.current.Some?
    requires Trim(raw) != [] && Trim(raw)[0] == '`' && Trim(raw)[|Trim(raw)| - 1] == '`'
    ensures var cmd := StripTicks(twin, Trim(raw));
      Step(twin, st, raw) == st.(current := Some(st.current.value.(command := cmd, placeholders := PlaceholdersOf(cmd))))
  {
    var t := Trim(raw);
    assert t[..1] == "`" && t[|t| - 1..] == "`";
    NotPrefixByFirst("# ", t);
    NotPrefixByFirst("> ", t);
    NotPrefixByFirst("- ", t);
  }

  // ---------------------------------------------------------------------------
  // The description: the last `> ` line wins
  // ---------------------------------------------------------------------------

  /** The text of the last `> ` line, or `d` when there is none. */
  function LastQuote(lines: seq<string>, d: string): string
    decreases |lines|
  {
    if lines == [] then d
    else LastQuote(lines[1..], if IsPrefix("> ", Trim(lines[0])) then Trim(lines[0])[2..] else d)
  }

  lemma {:induction false} FoldDescription(twin: Twin, st: State, lines: seq<string>)
    ensures Fold(twin, st, lines).description == LastQuote(lines, st.description)
    decreases |lines|
  {
    if lines != [] {
      var t := Trim(lines[0]);
      assert IsPrefix("# ", t) ==> !IsPrefix("> ", t);
      FoldDescription(twin, Step(twin, st, lines[0]), lines[1..]);
    }
  }

  /** The page description is the last `> ` line, the catalog's description when there is none. */
  lemma ParseDescription(twin: Twin, content: string, entry: IndexEntry)
    ensures ParseSpec(twin, content, entry).description == LastQuote(Lines(content), entry.description)
  {
    FoldDescription(twin, Init(entry), Lines(content));
  }

  // ---------------------------------------------------------------------------
  // The examples: one per `- ` line, its command the last code line of its block
  // ---------------------------------------------------------------------------

  predicate ItemLine(line: string) { IsPrefix("- ", Trim(line)) }

  predicate NoItems(lines: seq<string>)
  {
    forall k :: 0 <= k < |lines| ==> !ItemLine(lines[k])
  }

  /** Number of lines before the first `- ` line. */
  function NextItem(lines: seq<string>): (k: nat)
    ensures k <= |lines|
    ensures forall j :: 0 <= j < k ==> !ItemLine(lines[j])
    ensures k < |lines| ==> ItemLine(lines[k])
    decreases |lines|
  {
    if lines == [] || ItemLine(lines[0]) then 0 else 1 + NextItem(lines[1..])
  }

  /**
    The command of the lines that follow a `- ` line up to the next one: the
    last code line before the first blank line, if there is one.
   */
  function BlockCommand(twin: Twin, seg: seq<string>): Option<string>
    decreases |seg|
  {
    if seg == [] then None
    else
      var t := Trim(seg[0]);
      if t == [] then None
      else if (IsPrefix("`", t) && IsSuffix("`", t)) then
        match BlockCommand(twin, seg[1..])
        case Some(c) => Some(c)
        case None => Some(StripTicks(twin, t))
      else BlockCommand(twin, seg[1..])
  }

  /** The example a `- ` line and its block describe. */
  function MakeExample(description: string, command: Option<string>): Example
  {
    match command
    case None => Example(description, "", [])
    case Some(c) => Example(description, c, PlaceholdersOf(c))
  }

  /** The examples of a page read block by block: every `- ` line opens one. */
  function ExamplesOf(twin: Twin, lines: seq<string>): seq<Example>
    decreases |lines|
  {
    if lines == [] then []
    else if ItemLine(lines[0]) then
      var k := NextItem(lines[1..]);
      [MakeExample(Trim(lines[0])[2..], BlockCommand(twin, lines[1..1 + k]))]
        + ExamplesOf(twin, lines[1 + k..])
    else ExamplesOf(twin, lines[1..])
  }

  lemma {:induction false} FoldAppend(twin: Twin, st: State, a: seq<string>, b: seq<string>)
    ensures Fold(twin, st, a + b) == Fold(twin, Fold(twin, st, a), b)
    decreases |a|
  {
    if a != [] {
      assert (a + b)[0] == a[0] && (a + b)[1..] == a[1..] + b;
      FoldAppend(twin, Step(twin, st, a[0]), a[1..], b);
    } else {
      assert a + b == b;
    }
  }

  /** The open example after a block's command, if any, was applied to it. */
  function WithCommand(e: Example, command: Option<string>): Example
  {
    match command
    case None => e
    case Some(c) => e.(command := c, placeholders := PlaceholdersOf(c))
  }

  /**
    Lines without a `- ` line close no example: the finished ones stay, and
    the open one takes the block's command while the block is open.
   */
  lemma {:induction false} FoldBlock(twin: Twin, st: State, seg: seq<string>)
    requires NoItems(seg) && (st.inExample ==> st.current.Some?)
    ensures Fold(twin, st, seg).examples == st.examples
    ensures Fold(twin, st, seg).inExample ==> st.inExample
    ensures Fold(twin, st, seg).current ==
      if st.inExample then Some(WithCommand(st.current.value, BlockCommand(twin, seg))) else st.current
    decreases |seg|
  {
    if seg != [] {
      assert !ItemLine(seg[0]);
      var t := Trim(seg[0]);
      assert (IsPrefix("`", t) && IsSuffix("`", t)) ==> !IsPrefix("# ", t) && !IsPrefix("> ", t);
      var s1 := Step(twin, st, seg[0]);
      assert NoItems(seg[1..]) by {
        forall k | 0 <= k < |seg[1..]| ensures !ItemLine(seg[1..][k]) {
          assert seg[1..][k] == seg[k + 1];
        }
      }
      FoldBlock(twin, s1, seg[1..]);
    }
  }

  /** The lines before the first `- ` line hold none. */
  lemma NextItemPrefix(lines: seq<string>)
    ensures NoItems(lines[..NextItem(lines)])
  {
    var k := NextItem(lines);
    forall j | 0 <= j < k ensures !ItemLine(lines[..k][j]) {
      assert lines[..k][j] == lines[j];
    }
  }

  /** A `- ` line and its block add the block reading's example to those collected. */
  lemma ItemBlock(twin: Twin, st: State, item: string, seg: seq<string>)
    requires ItemLine(item) && NoItems(seg)
    ensures var s2 := Fold(twin, st, [item] + seg);
      All(s2) == All(st) + [MakeExample(Trim(item)[2..], BlockCommand(twin, seg))]
      && (s2.inExample ==> s2.current.Some?)
  {
    var d := Trim(item)[2..];
    var s1 := Step(twin, st, item);
    assert s1 == State(st.description, All(st), Some(Example(d, "", [])), true);
    FoldAppend(twin, st, [item], seg);
    assert Fold(twin, st, [item]) == s1;
    FoldBlock(twin, s1, seg);
  }

  /** The block reading of lines that start with a `- ` line. */
  lemma ExamplesOfItem(twin: Twin, lines: seq<string>)
    requires lines != [] && ItemLine(lines[0])
    ensures var k := NextItem(lines[1..]);
      ExamplesOf(twin, lines)
        == [MakeExample(Trim(lines[0])[2..], BlockCommand(twin, lines[1..][..k]))] + ExamplesOf(twin, lines[1 + k..])
  {
    var k := NextItem(lines[1..]);
    assert lines[1..][..k] == lines[1..1 + k];
  }

  lemma ConcatAssoc<T>(a: seq<T>, b: seq<T>, c: seq<T>)
    ensures (a + b) + c == a + (b + c)
  {
  }

  /** From a `- ` line on, each example the state machine closes is the block reading's. */
  lemma {:induction false} FoldExamples(twin: Twin, st: State, lines: seq<string>)
    requires lines == [] || ItemLine(lines[0])
    requires st.inExample ==> st.current.Some?
    ensures All(Fold(twin, st, lines)) == All(st) + ExamplesOf(twin, lines)
    decreases |lines|
  {
    if lines != [] {
      var k := NextItem(lines[1..]);
      NextItemPrefix(lines[1..]);
      var seg := lines[1..][..k];
      var rest := lines[1 + k..];
      assert lines == ([lines[0]] + seg) + rest;
      FoldAppend(twin, st, [lines[0]] + seg, rest);
      ItemBlock(twin, st, lines[0], seg);
      var s2 := Fold(twin, st, [lines[0]] + seg);
      assert rest != [] ==> rest[0] == lines[1..][k];
      FoldExamples(twin, s2, rest);
      ExamplesOfItem(twin, lines);
      assert Fold(twin, st, lines) == Fold(twin, s2, rest);
      var x := MakeExample(Trim(lines[0])[2..], BlockCommand(twin, seg));
      assert All(Fold(twin, st, lines)) == All(s2) + ExamplesOf(twin, rest);
      assert All(s2) == All(st) + [x];
      assert ExamplesOf(twin, lines) == [x] + ExamplesOf(twin, rest);
      ConcatAssoc(All(st), [x], ExamplesOf(twin, rest));
    }
  }

  lemma {:induction false} ExamplesOfSkip(twin: Twin, pre: seq<string>, rest: seq<string>)
    requires NoItems(pre)
    ensures ExamplesOf(twin, pre + rest) == ExamplesOf(twin, rest)
    decreases |pre|
  {
    if pre != [] {
      assert !ItemLine(pre[0]);
      assert (pre + rest)[0] == pre[0] && (pre + rest)[1..] == pre[1..] + rest;
      assert NoItems(pre[1..]) by {
        forall k | 0 <= k < |pre[1..]| ensures !ItemLine(pre[1..][k]) {
          assert pre[1..][k] == pre[k + 1];
        }
      }
      ExamplesOfSkip(twin, pre[1..], rest);
    } else {
      assert pre + rest == rest;
    }
  }

  /**
    The examples of a parsed page are the block reading of its lines: one per
    `- ` line, in order, with the item text as description, the last code
    line before the block's first blank line as command, and that command's
    placeholders.
   */
  lemma ParseExamples(twin: Twin, content: string, entry: IndexEntry)
    ensures ParseSpec(twin, content, entry).examples == ExamplesOf(twin, Lines(content))
  {
    var lines := Lines(content);
    var k := NextItem(lines);
    var pre := lines[..k];
    var rest := lines[k..];
    assert lines == pre + rest;
    NextItemPrefix(lines);
    FoldAppend(twin, Init(entry), pre, rest);
    FoldBlock(twin, Init(entry), pre);
    var st := Fold(twin, Init(entry), pre);
    assert All(st) == [];
    assert rest != [] ==> rest[0] == lines[k];
    FoldExamples(twin, st, rest);
    ExamplesOfSkip(twin, pre, rest);
  }

  /** Every example of the block reading carries the placeholders of its own command. */
  lemma {:induction false} ExamplesOfConsistent(twin: Twin, lines: seq<string>)
    ensures forall e <- ExamplesOf(twin, lines) :: e.placeholders == PlaceholdersOf(e.command)
    decreases |lines|
  {
    if lines != [] {
      if ItemLine(lines[0]) {
        var k := NextItem(lines[1..]);
        ExamplesOfConsistent(twin, lines[1 + k..]);
      } else {
        ExamplesOfConsistent(twin, lines[1..]);
      }
    }
  }

  /** Number of `- ` lines. */
  function CountItems(lines: seq<string>): nat
    decreases |lines|
  {
    if lines == [] then 0 else (if ItemLine(lines[0]) then 1 else 0) + CountItems(lines[1..])
  }

  lemma {:induction false} CountItemsNone(lines: seq<string>)
    requires NoItems(lines)
    ensures CountItems(lines) == 0
    decreases |lines|
  {
    if lines != [] {
      assert !ItemLine(lines[0]);
      assert NoItems(lines[1..]) by {
        forall k | 0 <= k < |lines[1..]| ensures !ItemLine(lines[1..][k]) {
          assert lines[1..][k] == lines[k + 1];
        }
      }
      CountItemsNone(lines[1..]);
    }
  }

  lemma {:induction false} CountItemsAppend(a: seq<string>, b: seq<string>)
    ensures CountItems(a + b) == CountItems(a) + CountItems(b)
    decreases |a|
  {
    if a != [] {
      assert (a + b)[0] == a[0] && (a + b)[1..] == a[1..] + b;
      CountItemsAppend(a[1..], b);
    } else {
      assert a + b == b;
    }
  }

  /** The block reading yields exactly one example per `- ` line. */
  lemma {:induction false} ExamplesOfCount(twin: Twin, lines: seq<string>)
    ensures |ExamplesOf(twin, lines)| == CountItems(lines)
    decreases |lines|
  {
    if lines != [] {
      if ItemLine(lines[0]) {
        var k := NextItem(lines[1..]);
        assert lines[1..] == lines[1..][..k] + lines[1 + k..];
        CountItemsAppend(lines[1..][..k], lines[1 + k..]);
        CountItemsNone(lines[1..][..k]);
        ExamplesOfCount(twin, lines[1 + k..]);
      } else {
        ExamplesOfCount(twin, lines[1..]);
      }
    }
  }

  /** The Go twin never leaves a backtick at either end of a command. */
  lemma GoCommandsUnticked(content: string, entry: IndexEntry)
    ensures forall e <- ParseSpec(GoTwin, content, entry).examples ::
      e.command == [] || (e.command[0] != '`' && e.command[|e.command| - 1] != '`')
  {
    ParseExamples(GoTwin, content, entry);
    ExamplesOfUnticked(Lines(content));
  }

  lemma {:induction false} BlockCommandUnticked(seg: seq<string>)
    ensures BlockCommand(GoTwin, seg).Some? ==>
      var c := BlockCommand(GoTwin, seg).value;
      c == [] || (c[0] != '`' && c[|c| - 1] != '`')
    decreases |seg|
  {
    if seg != [] {
      BlockCommandUnticked(seg[1..]);
      var t := DropLeadingTicks(Trim(seg[0]));
      var u := DropTrailingTicks(t);
      assert u == [] || u[0] == t[0];
    }
  }

  lemma {:induction false} ExamplesOfUnticked(lines: seq<string>)
    ensures forall e <- ExamplesOf(GoTwin, lines) ::
      e.command == [] || (e.command[0] != '`' && e.command[|e.command| - 1] != '`')
    decreases |lines|
  {
    if lines != [] {
      if ItemLine(lines[0]) {
        var k := NextItem(lines[1..]);
        BlockCommandUnticked(lines[1..1 + k]);
        ExamplesOfUnticked(lines[1 + k..]);
      } else {
        ExamplesOfUnticked(lines[1..]);
      }
    }
  }
}
