/**
  Choosing an example of a page and filling its placeholders
  (`FindBestExample` and `Render` in internal/types/types.go,
  `find_best_example` and `render` in tldrpp/cache.py).
 */
module Render {
  import opened Base
  import opened Text
  import opened Types

  // ---------------------------------------------------------------------------
  // The value a placeholder is filled with
  // ---------------------------------------------------------------------------

  /**
    Go: the variable when it is non-empty, else the default when that is
    non-empty, else the name. Python: `variables.get(name, default)`, and the
    name when that is empty.
   */
  function ValueFor(twin: Twin, p: Placeholder, vars: map<string, string>): (v: string)
    ensures v != [] || p.name == []
    ensures (p.name in vars && vars[p.name] != []) ==> v == vars[p.name]
  {
    match twin
    case GoTwin =>
      var value := if p.name in vars then vars[p.name] else [];
      if value != [] then value else if p.default != [] then p.default else p.name
    case PyTwin =>
      var value := if p.name in vars then vars[p.name] else p.default;
      if value != [] then value else p.name
  }

  /** Without a variable, a placeholder falls back to its default and then to its own name. */
  lemma ValueForUnbound(twin: Twin, p: Placeholder, vars: map<string, string>)
    requires p.name !in vars
    ensures ValueFor(twin, p, vars) == if p.default != [] then p.default else p.name
  {
  }

  /**
    The twins choose the same value except in one case: the variable is set
    to the empty string and the placeholder has a default other than its
    name; Go then takes the default and Python the name.
   */
  lemma ValueForTwins(p: Placeholder, vars: map<string, string>)
    ensures ValueFor(GoTwin, p, vars) != ValueFor(PyTwin, p, vars) <==>
      p.name in vars && vars[p.name] == [] && p.default != [] && p.default != p.name
    ensures p.name in vars && vars[p.name] == [] && p.default != [] ==>
      ValueFor(GoTwin, p, vars) == p.default && ValueFor(PyTwin, p, vars) == p.name
  {
  }

  // ---------------------------------------------------------------------------
  // Rendering
  // ---------------------------------------------------------------------------

  /** Replace each placeholder's token in turn, first placeholder first. */
  function Fill(twin: Twin, command: string, ps: seq<Placeholder>, vars: map<string, string>): string
    decreases |ps|
  {
    if ps == [] then command
    else Fill(twin, ReplaceAll(command, Token(ps[0].name), ValueFor(twin, ps[0], vars)), ps[1..], vars)
  }

  /** The source's loop: every placeholder's `{{name}}` replaced by its value, one after the other. */
  method RenderExample(twin: Twin, e: Example, vars: map<string, string>) returns (command: string)
    ensures command == Fill(twin, e.command, e.placeholders, vars)
  {
    command := e.command;
    var i := 0;
    while i < |e.placeholders|
      invariant 0 <= i <= |e.placeholders|
      invariant Fill(twin, command, e.placeholders[i..], vars) == Fill(twin, e.command, e.placeholders, vars)
    {
      var placeholder := e.placeholders[i];
      var value := ValueFor(twin, placeholder, vars);
      assert e.placeholders[i..][1..] == e.placeholders[i + 1..];
      command := ReplaceAll(command, Token(placeholder.name), value);
      i := i + 1;
    }
  }

  /** A command without any `{` is rendered as it is. */
  lemma {:induction false} FillNoBraces(twin: Twin, command: string, ps: seq<Placeholder>, vars: map<string, string>)
    requires '{' !in command
    ensures Fill(twin, command, ps, vars) == command
    decreases |ps|
  {
    if ps != [] {
      var t := Token(ps[0].name);
      ReplaceAllSkips(command, [], t, ValueFor(twin, ps[0], vars));
      assert command + [] == command;
      FillNoBraces(twin, command, ps[1..], vars);
    }
  }

  // ---------------------------------------------------------------------------
  // Rendering a template
  // ---------------------------------------------------------------------------

  /** A template whose slot names hold neither brace, so no token can overlap another. */
  predicate Clean(tpl: seq<Segment>)
  {
    forall k :: 0 <= k < |tpl| ==>
      match tpl[k]
      case Lit(t) => '{' !in t
      case Slot(n) => n != [] && '{' !in n && '}' !in n
  }

  /** Every slot named `n` becomes the literal text `v`. */
  function Subst(tpl: seq<Segment>, n: string, v: string): (r: seq<Segment>)
    ensures |r| == |tpl|
  {
    if tpl == [] then []
    else
      var head := match tpl[0] case Slot(m) => (if m == n then Lit(v) else Slot(m)) case Lit(t) => Lit(t);
      [head] + Subst(tpl[1..], n, v)
  }

  /** Where the scan is not at an occurrence, one character is copied through. */
  lemma ReplaceAllStep(c: char, x: string, t: string, v: string)
    requires |t| > 0 && !IsPrefix(t, [c] + x)
    ensures ReplaceAll([c] + x, t, v) == [c] + ReplaceAll(x, t, v)
  {
    var s := [c] + x;
    assert s[1..] == x;
    if |s| < |t| {
      assert ReplaceAll(x, t, v) == x;
    }
  }

  /** The first `}` of a text is also the first `}` of any longer text it starts. */
  lemma {:induction false} CloseIndexPrefix(a: string, b: string)
    requires IsPrefix(a, b) && CloseIndex(a) < |a|
    ensures CloseIndex(b) == CloseIndex(a)
    decreases |a|
  {
    if a[0] != '}' {
      assert b[1..][..|a| - 1] == a[1..];
      CloseIndexPrefix(a[1..], b[1..]);
    }
  }

  /** A token is a prefix of a text that starts with another token only when the names agree. */
  lemma TokenPrefix(n: string, m: string, x: string)
    requires '}' !in n && '}' !in m && IsPrefix(Token(n), Token(m) + x)
    ensures n == m
  {
    var s := Token(m) + x;
    var t := Token(n);
    assert t[2..] == n + "}}";
    assert s[2..] == m + ("}}" + x);
    CloseIndexAppend(n, "}}");
    CloseIndexAppend(m, "}}" + x);
    assert IsPrefix(t[2..], s[2..]);
    CloseIndexPrefix(t[2..], s[2..]);
    assert n == t[2..2 + |n|] == s[2..2 + |m|] == m;
  }

  /** At a token whose name differs, the scan copies the whole token through. */
  lemma ReplaceOtherToken(m: string, n: string, f: string, v: string)
    requires m != [] && '{' !in m && '}' !in m && '}' !in n && m != n
    ensures ReplaceAll(Token(m) + f, Token(n), v) == Token(m) + ReplaceAll(f, Token(n), v)
  {
    var body := m + "}}";
    assert Token(m) == ['{', '{'] + body;
    assert '{' !in body;
    OtherTokenNoMatch(m, n, f);
    SecondBraceNoMatch(m, n, body + f);
    ReplaceThroughBraces(body, f, Token(n), v);
  }

  /** Two braces and a brace-free body that no occurrence starts in are copied through. */
  lemma ReplaceThroughBraces(body: string, f: string, t: string, v: string)
    requires |t| > 0 && t[0] == '{' && '{' !in body
    requires !IsPrefix(t, ['{', '{'] + body + f) && !IsPrefix(t, ['{'] + (body + f))
    ensures ReplaceAll(['{', '{'] + body + f, t, v) == ['{', '{'] + body + ReplaceAll(f, t, v)
  {
    var s2 := body + f;
    var s1 := ['{'] + s2;
    assert ['{', '{'] + body + f == ['{'] + s1;
    ReplaceAllStep('{', s1, t, v);
    ReplaceAllStep('{', s2, t, v);
    ReplaceAllSkips(body, f, t, v);
    assert ['{'] + (['{'] + (body + ReplaceAll(f, t, v))) == ['{', '{'] + body + ReplaceAll(f, t, v);
  }

  lemma OtherTokenNoMatch(m: string, n: string, f: string)
    requires '}' !in m && '}' !in n && m != n
    ensures !IsPrefix(Token(n), Token(m) + f)
  {
    if IsPrefix(Token(n), Token(m) + f) {
      TokenPrefix(n, m, f);
    }
  }

  /** A token cannot start at the second brace of another token's name. */
  lemma SecondBraceNoMatch(m: string, n: string, s2: string)
    requires m != [] && '{' !in m && IsPrefix(m, s2)
    ensures !IsPrefix(Token(n), ['{'] + s2)
  {
    var t := Token(n);
    var s1 := ['{'] + s2;
    assert s1[1] == m[0] != '{' == t[1];
    if |t| <= |s1| {
      assert s1[..|t|][1] != t[1];
    }
  }

  lemma CleanTail(tpl: seq<Segment>)
    requires tpl != [] && Clean(tpl)
    ensures Clean(tpl[1..])
  {
    forall k | 0 <= k < |tpl[1..]| ensures tpl[1..][k] == tpl[k + 1] { }
  }

  /** Replacing one token of a clean template substitutes the value for that slot and leaves the rest. */
  lemma {:induction false} ReplaceTemplate(tpl: seq<Segment>, n: string, v: string)
    requires Clean(tpl) && n != [] && '{' !in n && '}' !in n
    ensures ReplaceAll(Flatten(tpl), Token(n), v) == Flatten(Subst(tpl, n, v))
  {
    if tpl != [] {
      var rest := tpl[1..];
      CleanTail(tpl);
      ReplaceTemplate(rest, n, v);
      var f := Flatten(rest);
      var t := Token(n);
      assert Subst(tpl, n, v)[1..] == Subst(rest, n, v);
      match tpl[0]
      case Lit(a) =>
        assert '{' !in a by { assert tpl[0] == Lit(a); }
        ReplaceAllSkips(a, f, t, v);
      case Slot(m) =>
        assert m != [] && '{' !in m && '}' !in m by { assert tpl[0] == Slot(m); }
        var s := Token(m) + f;
        if m == n {
          assert s[..|t|] == t;
          assert s[|t|..] == f;
        } else {
          ReplaceOtherToken(m, n, f, v);
        }
    }
  }

  /** What a slot of an extracted command is filled with: its variable if non-empty, else its name. */
  function SlotValue(vars: map<string, string>, n: string): string
  {
    if n in vars && vars[n] != [] then vars[n] else n
  }

  /** The template with every slot replaced by its value. */
  function Filled(tpl: seq<Segment>, vars: map<string, string>): (r: seq<Segment>)
    ensures |r| == |tpl|
  {
    if tpl == [] then []
    else
      var head := match tpl[0] case Slot(m) => Lit(SlotValue(vars, m)) case Lit(t) => Lit(t);
      [head] + Filled(tpl[1..], vars)
  }

  /** All values are free of `{`, so a filled slot can never be taken for a token. */
  predicate BraceFree(vars: map<string, string>)
  {
    forall n <- vars :: '{' !in vars[n]
  }

  lemma {:induction false} SubstClean(tpl: seq<Segment>, n: string, v: string)
    requires Clean(tpl) && '{' !in v
    ensures Clean(Subst(tpl, n, v))
  {
    if tpl != [] {
      CleanTail(tpl);
      SubstClean(tpl[1..], n, v);
      var r := Subst(tpl, n, v);
      forall k | 0 <= k < |r| ensures match r[k] case Lit(t) => '{' !in t case Slot(m) => m != [] && '{' !in m && '}' !in m {
        if k > 0 {
          assert r[k] == Subst(tpl[1..], n, v)[k - 1];
        }
      }
    }
  }

  /** Every slot of the template is named in `names`. */
  predicate Covered(tpl: seq<Segment>, names: seq<string>)
  {
    tpl == [] || ((tpl[0].Slot? ==> tpl[0].name in names) && Covered(tpl[1..], names))
  }

  lemma {:induction false} CoveredBy(tpl: seq<Segment>, names: seq<string>)
    requires forall m <- SlotNames(tpl) :: m in names
    ensures Covered(tpl, names)
  {
    if tpl != [] {
      CoveredBy(tpl[1..], names);
      if tpl[0].Slot? {
        assert tpl[0].name in SlotNames(tpl);
      }
    }
  }

  /** The value of the first placeholder named `n`, or nothing when no placeholder has that name. */
  function SlotFill(twin: Twin, ps: seq<Placeholder>, vars: map<string, string>, n: string): (r: Option<string>)
    ensures r.None? <==> forall p <- ps :: p.name != n
  {
    if ps == [] then None
    else if ps[0].name == n then Some(ValueFor(twin, ps[0], vars))
    else
      assert forall p <- ps[1..] :: p in ps;
      SlotFill(twin, ps[1..], vars, n)
  }

  /** The slot of the name of placeholder `i` takes its value when no earlier placeholder has that name. */
  lemma {:induction false} SlotFillFirst(twin: Twin, ps: seq<Placeholder>, vars: map<string, string>, i: nat)
    requires i < |ps| && forall j :: 0 <= j < i ==> ps[j].name != ps[i].name
    ensures SlotFill(twin, ps, vars, ps[i].name) == Some(ValueFor(twin, ps[i], vars))
  {
    if i > 0 {
      assert ps[0].name != ps[i].name;
      assert ps[1..][i - 1] == ps[i];
      SlotFillFirst(twin, ps[1..], vars, i - 1);
    }
  }

  /**
    The template with each slot that some placeholder names replaced by the
    value of the first such placeholder; a slot no placeholder names stays.
   */
  function FilledBy(twin: Twin, tpl: seq<Segment>, ps: seq<Placeholder>, vars: map<string, string>): (r: seq<Segment>)
    ensures |r| == |tpl|
  {
    if tpl == [] then []
    else
      var head := match tpl[0]
        case Slot(m) => (match SlotFill(twin, ps, vars, m) case Some(v) => Lit(v) case None => Slot(m))
        case Lit(t) => Lit(t);
      [head] + FilledBy(twin, tpl[1..], ps, vars)
  }

  /** Placeholders whose names cannot overlap a token and whose defaults hold no `{`. */
  predicate CleanPlaceholders(ps: seq<Placeholder>)
  {
    forall p <- ps :: p.name != [] && '{' !in p.name && '}' !in p.name && '{' !in p.default
  }

  /** Filling the first placeholder's slots and then the other placeholders' is filling them all. */
  lemma {:induction false} FilledBySubst(twin: Twin, tpl: seq<Segment>, ps: seq<Placeholder>, vars: map<string, string>)
    requires ps != []
    ensures FilledBy(twin, Subst(tpl, ps[0].name, ValueFor(twin, ps[0], vars)), ps[1..], vars) == FilledBy(twin, tpl, ps, vars)
  {
    if tpl != [] {
      var v := ValueFor(twin, ps[0], vars);
      FilledBySubst(twin, tpl[1..], ps, vars);
      assert Subst(tpl, ps[0].name, v)[1..] == Subst(tpl[1..], ps[0].name, v);
    }
  }

  /**
    Filling a clean template replaces every slot that a placeholder names by
    that placeholder's value (its variable, else its default, else its name
    for Go; its variable or default, else its name for Python), the first
    placeholder of a name winning, and leaves the literal text and every
    other slot as they are.
   */
  lemma {:induction false} FillTemplate(twin: Twin, tpl: seq<Segment>, ps: seq<Placeholder>, vars: map<string, string>)
    requires Clean(tpl) && BraceFree(vars) && CleanPlaceholders(ps)
    ensures Fill(twin, Flatten(tpl), ps, vars) == Flatten(FilledBy(twin, tpl, ps, vars))
    decreases |ps|
  {
    if ps == [] {
      FilledByNone(twin, tpl, vars);
    } else {
      var p := ps[0];
      assert p in ps;
      var v := ValueFor(twin, p, vars);
      assert '{' !in v;
      ReplaceTemplate(tpl, p.name, v);
      SubstClean(tpl, p.name, v);
      assert CleanPlaceholders(ps[1..]) by {
        forall q <- ps[1..] ensures q in ps { }
      }
      FillTemplate(twin, Subst(tpl, p.name, v), ps[1..], vars);
      FilledBySubst(twin, tpl, ps, vars);
    }
  }

  lemma {:induction false} FilledByNone(twin: Twin, tpl: seq<Segment>, vars: map<string, string>)
    ensures FilledBy(twin, tpl, [], vars) == tpl
  {
    if tpl != [] {
      FilledByNone(twin, tpl[1..], vars);
    }
  }

  /** A placeholder of the default-free kind the extraction builds stands for its variable, else its name. */
  lemma {:induction false} SlotFillNew(twin: Twin, names: seq<string>, vars: map<string, string>, m: string)
    requires m in names
    ensures SlotFill(twin, NewPlaceholders(names), vars, m) == Some(SlotValue(vars, m))
  {
    var ps := NewPlaceholders(names);
    if names[0] != m {
      assert ps[1..] == NewPlaceholders(names[1..]);
      SlotFillNew(twin, names[1..], vars, m);
    }
  }

  /** With the extraction's placeholders for names covering every slot, no slot is left. */
  lemma {:induction false} FilledByNew(twin: Twin, tpl: seq<Segment>, names: seq<string>, vars: map<string, string>)
    requires Covered(tpl, names)
    ensures FilledBy(twin, tpl, NewPlaceholders(names), vars) == Filled(tpl, vars)
  {
    if tpl != [] {
      FilledByNew(twin, tpl[1..], names, vars);
      if tpl[0].Slot? {
        SlotFillNew(twin, names, vars, tpl[0].name);
      }
    }
  }

  /**
    A command ending in one slot, rendered without variables, ends in the
    placeholder's default in both twins: `tar -xf {{file}}` with default
    `archive.tar.gz` becomes `tar -xf archive.tar.gz`.
   */
  lemma FillDefault(twin: Twin, a: string, p: Placeholder)
    requires '{' !in a && p.name != [] && '{' !in p.name && '}' !in p.name
    requires p.default != [] && '{' !in p.default
    ensures Fill(twin, a + Token(p.name), [p], map[]) == a + p.default
  {
    var tpl := [Lit(a), Slot(p.name)];
    assert tpl[1..][1..] == [];
    assert Flatten(tpl[1..]) == Token(p.name) + [];
    assert Flatten(tpl) == a + Token(p.name);
    FillTemplate(twin, tpl, [p], map[]);
    assert FilledBy(twin, tpl, [p], map[]) == [Lit(a), Lit(p.default)];
  }

  /**
    Rendering the placeholders extracted from a clean template fills every
    slot with its variable, or with its own name when the variable is
    missing or empty, and leaves the literal text as it is; by
    `PlaceholdersOfTemplate` this is the example the parser builds.
   */
  lemma RenderTemplate(twin: Twin, tpl: seq<Segment>, vars: map<string, string>)
    requires Clean(tpl) && BraceFree(vars)
    ensures Fill(twin, Flatten(tpl), PlaceholdersOf(Flatten(tpl)), vars) == Flatten(Filled(tpl, vars))
  {
    assert WellFormed(tpl) by {
      forall k | 0 <= k < |tpl| ensures match tpl[k] case Lit(t) => '{' !in t case Slot(n) => n != [] && '}' !in n {
      }
    }
    TokensOfTemplate(tpl);
    var names := Dedup(SlotNames(tpl));
    DedupSpec(SlotNames(tpl));
    SlotNamesClean(tpl);
    CoveredBy(tpl, names);
    assert CleanPlaceholders(NewPlaceholders(names)) by {
      var ps := NewPlaceholders(names);
      forall p <- ps ensures p.name != [] && '{' !in p.name && '}' !in p.name && '{' !in p.default {
        var i :| 0 <= i < |ps| && ps[i] == p;
        assert p == NewPlaceholder(names[i]) && names[i] in names;
      }
    }
    FillTemplate(twin, tpl, NewPlaceholders(names), vars);
    FilledByNew(twin, tpl, names, vars);
  }

  lemma {:induction false} SlotNamesClean(tpl: seq<Segment>)
    requires Clean(tpl)
    ensures forall m <- SlotNames(tpl) :: m != [] && '{' !in m && '}' !in m
  {
    if tpl != [] {
      CleanTail(tpl);
      SlotNamesClean(tpl[1..]);
    }
  }

  /** So no `{`, and no unfilled `{{name}}`, is left in the rendered command. */
  lemma RenderLeavesNoBraces(twin: Twin, tpl: seq<Segment>, vars: map<string, string>)
    requires Clean(tpl) && BraceFree(vars)
    ensures '{' !in Fill(twin, Flatten(tpl), PlaceholdersOf(Flatten(tpl)), vars)
  {
    RenderTemplate(twin, tpl, vars);
    SlotNamesClean(tpl);
    FilledBraceFree(tpl, vars);
  }

  lemma {:induction false} FilledBraceFree(tpl: seq<Segment>, vars: map<string, string>)
    requires Clean(tpl) && BraceFree(vars)
    ensures '{' !in Flatten(Filled(tpl, vars))
  {
    if tpl != [] {
      CleanTail(tpl);
      FilledBraceFree(tpl[1..], vars);
      match tpl[0]
      case Lit(t) =>
        assert tpl[0] == Lit(t);
      case Slot(m) =>
        assert tpl[0] == Slot(m);
    }
  }

  // ---------------------------------------------------------------------------
  // Choosing an example
  // ---------------------------------------------------------------------------

  /** An example whose lower-cased description contains the lower-cased query. */
  predicate Matches(e: Example, query: string)
  {
    Contains(ToLower(e.description), ToLower(query))
  }

  /** The index of the first matching example, if any. */
  function FirstMatch(examples: seq<Example>, query: string): (r: Option<nat>)
    ensures r.Some? ==> r.value < |examples| && Matches(examples[r.value], query)
    ensures r.Some? ==> forall j :: 0 <= j < r.value ==> !Matches(examples[j], query)
    ensures r.None? ==> forall j :: 0 <= j < |examples| ==> !Matches(examples[j], query)
  {
    if examples == [] then None
    else if Matches(examples[0], query) then Some(0)
    else match FirstMatch(examples[1..], query)
      case Some(i) => Some(i + 1)
      case None => None
  }

  /** The example chosen for a query: the first matching one, else the first one; none on an empty page. */
  function BestExample(examples: seq<Example>, query: string): Option<Example>
  {
    if examples == [] then None
    else match FirstMatch(examples, query)
      case Some(i) => Some(examples[i])
      case None => Some(examples[0])
  }

  /**
    The source's scan: the first example whose description contains the
    query, ignoring case, else the first example.
   */
  method FindBestExample(page: Page, query: string) returns (r: Option<Example>)
    ensures r == BestExample(page.examples, query)
  {
    if |page.examples| == 0 {
      return None;
    }
    var q := ToLower(query);
    var i := 0;
    while i < |page.examples|
      invariant 0 <= i <= |page.examples|
      invariant forall j :: 0 <= j < i ==> !Matches(page.examples[j], query)
    {
      if Contains(ToLower(page.examples[i].description), q) {
        FirstMatchAt(page.examples, query, i);
        return Some(page.examples[i]);
      }
      i := i + 1;
    }
    NoMatch(page.examples, query);
    r := Some(page.examples[0]);
  }

  lemma {:induction false} FirstMatchAt(examples: seq<Example>, query: string, i: nat)
    requires i < |examples| && Matches(examples[i], query)
    requires forall j :: 0 <= j < i ==> !Matches(examples[j], query)
    ensures FirstMatch(examples, query) == Some(i)
  {
    if i > 0 {
      forall j | 0 <= j < i - 1 ensures !Matches(examples[1..][j], query) {
        assert examples[1..][j] == examples[j + 1];
      }
      FirstMatchAt(examples[1..], query, i - 1);
    }
  }

  lemma {:induction false} NoMatch(examples: seq<Example>, query: string)
    requires forall j :: 0 <= j < |examples| ==> !Matches(examples[j], query)
    ensures FirstMatch(examples, query) == None
  {
    if examples != [] {
      forall j | 0 <= j < |examples[1..]| ensures !Matches(examples[1..][j], query) {
        assert examples[1..][j] == examples[j + 1];
      }
      NoMatch(examples[1..], query);
    }
  }

  /**
    The choice: none exactly when the page has no examples; otherwise an
    example of the page, the first whose description contains the query
    (ignoring case) when there is one, the page's first example when not.
   */
  lemma BestExampleSpec(examples: seq<Example>, query: string)
    ensures BestExample(examples, query).None? <==> examples == []
    ensures BestExample(examples, query).Some? ==> BestExample(examples, query).value in examples
    ensures forall i :: (0 <= i < |examples| && Matches(examples[i], query)
      && (forall j :: 0 <= j < i ==> !Matches(examples[j], query))) ==>
      BestExample(examples, query) == Some(examples[i])
    ensures examples != [] && (forall j :: 0 <= j < |examples| ==> !Matches(examples[j], query)) ==>
      BestExample(examples, query) == Some(examples[0])
  {
    forall i | 0 <= i < |examples| && Matches(examples[i], query)
      && (forall j :: 0 <= j < i ==> !Matches(examples[j], query))
      ensures BestExample(examples, query) == Some(examples[i])
    {
      FirstMatchAt(examples, query, i);
    }
    if examples != [] && (forall j :: 0 <= j < |examples| ==> !Matches(examples[j], query)) {
      NoMatch(examples, query);
    }
  }

  /** An empty query matches every description, so the first example is chosen. */
  lemma BestExampleEmptyQuery(examples: seq<Example>)
    requires examples != []
    ensures BestExample(examples, []) == Some(examples[0])
  {
    assert IsPrefix(ToLower([]), ToLower(examples[0].description));
  }
}
