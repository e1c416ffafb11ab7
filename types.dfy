/**
  The record types of a cheat-sheet page and the placeholder machinery that
  both parsers share: type inference from a placeholder's name and the
  extraction of `{{name}}` tokens from a command template
  (internal/types/types.go, tldrpp/cache.py).
 */
module Types {
  import opened Base
  import opened Text

  /** A catalog row: what the index knows about a page before it is read. */
  datatype IndexEntry = IndexEntry(name: string, description: string, platform: string)

  /** A named slot of a command template; `kind` is the source's `Type` field. */
  datatype Placeholder = Placeholder(name: string, kind: string, description: string, default: string)

  /** One command example of a page. */
  datatype Example = Example(description: string, command: string, placeholders: seq<Placeholder>)

  /** A parsed page; `rawContent` is the markdown it was parsed from. */
  datatype Page = Page(name: string, description: string, platform: string, examples: seq<Example>, rawContent: string)

  // ---------------------------------------------------------------------------
  // Placeholder type inference
  // ---------------------------------------------------------------------------

  /** The ten type tags, the fallback `text` last. */
  const PlaceholderTypes: seq<string> :=
    ["file", "directory", "port", "number", "url", "ip", "username", "password", "email", "text"]

  /**
    The placeholder type of a name: an ordered chain of substring tests on the
    lower-cased name, the first one that succeeds deciding the tag.
   */
  function InferType(name: string): string
  {
    var n := ToLower(name);
    if Contains(n, "file") || Contains(n, "path") then "file"
    else if Contains(n, "dir") || Contains(n, "directory") then "directory"
    else if Contains(n, "port") then "port"
    else if Contains(n, "num") || Contains(n, "number") || Contains(n, "count") then "number"
    else if Contains(n, "url") || Contains(n, "link") then "url"
    else if Contains(n, "ip") || Contains(n, "address") then "ip"
    else if Contains(n, "user") || Contains(n, "username") then "username"
    else if Contains(n, "pass") || Contains(n, "password") then "password"
    else if Contains(n, "email") then "email"
    else "text"
  }

  /** The inference rules as data: keywords looked for in a lower-cased name, and the tag they give. */
  datatype TypeRule = TypeRule(keywords: seq<string>, tag: string)

  const TypeRules: seq<TypeRule> := [
    TypeRule(["file", "path"], "file"),
    TypeRule(["dir", "directory"], "directory"),
    TypeRule(["port"], "port"),
    TypeRule(["num", "number", "count"], "number"),
    TypeRule(["url", "link"], "url"),
    TypeRule(["ip", "address"], "ip"),
    TypeRule(["user", "username"], "username"),
    TypeRule(["pass", "password"], "password"),
    TypeRule(["email"], "email")
  ]

  /** Some keyword of the list occurs in the lower-cased name. */
  predicate AnyKeyword(lowered: string, keywords: seq<string>)
  {
    |keywords| > 0 && (Contains(lowered, keywords[0]) || AnyKeyword(lowered, keywords[1..]))
  }

  predicate RuleMatches(rule: TypeRule, lowered: string)
  {
    AnyKeyword(lowered, rule.keywords)
  }

  /** The index of the first rule of `rules[from..]` that matches, if any. */
  function FirstRule(rules: seq<TypeRule>, lowered: string, from: nat): (r: Option<nat>)
    requires from <= |rules|
    ensures r.Some? ==> from <= r.value < |rules| && RuleMatches(rules[r.value], lowered)
    ensures r.Some? ==> forall j :: from <= j < r.value ==> !RuleMatches(rules[j], lowered)
    ensures r.None? ==> forall j :: from <= j < |rules| ==> !RuleMatches(rules[j], lowered)
    decreases |rules| - from
  {
    if from == |rules| then None
    else if RuleMatches(rules[from], lowered) then Some(from)
    else FirstRule(rules, lowered, from + 1)
  }

  /** The tag of the first matching rule of the table, `text` when none matches. */
  function TagByTable(name: string): string
  {
    match FirstRule(TypeRules, ToLower(name), 0)
    case Some(k) => TypeRules[k].tag
    case None => "text"
  }

  /**
    The switch of the source and the first-match reading of the rule table
    agree on every name, and the tag is always one of the ten.
   */
  lemma AnyKeywordOf3(n: string, a: string, b: string, c: string)
    ensures AnyKeyword(n, [a]) <==> Contains(n, a)
    ensures AnyKeyword(n, [a, b]) <==> Contains(n, a) || Contains(n, b)
    ensures AnyKeyword(n, [a, b, c]) <==> Contains(n, a) || Contains(n, b) || Contains(n, c)
  {
    assert [a][1..] == [];
    assert !AnyKeyword(n, []);
    assert [a, b][1..] == [b];
    assert AnyKeyword(n, [b]) <==> Contains(n, b);
    assert [a, b, c][1..] == [b, c];
    assert [b, c][1..] == [c];
    assert AnyKeyword(n, [c]) <==> Contains(n, c);
    assert AnyKeyword(n, [b, c]) <==> Contains(n, b) || Contains(n, c);
  }

  lemma InferTypeIsFirstMatch(name: string)
    ensures InferType(name) == TagByTable(name)
  {
    var n := ToLower(name);
    var r := TypeRules;
    RulesSpecFirst(n);
    RulesSpecMiddle(n);
    RulesSpecLast(n);
    assert FirstRule(r, n, 9) == None;
    assert FirstRule(r, n, 8) == if Contains(n, "email") then Some(8) else None;
    assert FirstRule(r, n, 7) == if Contains(n, "pass") || Contains(n, "password") then Some(7) else FirstRule(r, n, 8);
    assert FirstRule(r, n, 6) == if Contains(n, "user") || Contains(n, "username") then Some(6) else FirstRule(r, n, 7);
    assert FirstRule(r, n, 5) == if Contains(n, "ip") || Contains(n, "address") then Some(5) else FirstRule(r, n, 6);
    assert FirstRule(r, n, 4) == if Contains(n, "url") || Contains(n, "link") then Some(4) else FirstRule(r, n, 5);
    assert FirstRule(r, n, 3) == if Contains(n, "num") || Contains(n, "number") || Contains(n, "count") then Some(3) else FirstRule(r, n, 4);
    assert FirstRule(r, n, 2) == if Contains(n, "port") then Some(2) else FirstRule(r, n, 3);
    assert FirstRule(r, n, 1) == if Contains(n, "dir") || Contains(n, "directory") then Some(1) else FirstRule(r, n, 2);
    assert FirstRule(r, n, 0) == if Contains(n, "file") || Contains(n, "path") then Some(0) else FirstRule(r, n, 1);
  }

  /** The inferred tag is always one of the ten placeholder types. */
  lemma InferTypeTags(name: string)
    ensures InferType(name) in PlaceholderTypes
  {
    var t := InferType(name);
    assert t == "file" || t == "directory" || t == "port" || t == "number" || t == "url"
      || t == "ip" || t == "username" || t == "password" || t == "email" || t == "text";
  }

  lemma RulesSpecFirst(n: string)
    ensures RuleMatches(TypeRules[0], n) <==> Contains(n, "file") || Contains(n, "path")
    ensures RuleMatches(TypeRules[1], n) <==> Contains(n, "dir") || Contains(n, "directory")
    ensures RuleMatches(TypeRules[2], n) <==> Contains(n, "port")
  {
    AnyKeywordOf3(n, "file", "path", "");
    AnyKeywordOf3(n, "dir", "directory", "");
    AnyKeywordOf3(n, "port", "", "");
  }

  lemma RulesSpecMiddle(n: string)
    ensures RuleMatches(TypeRules[3], n) <==> Contains(n, "num") || Contains(n, "number") || Contains(n, "count")
    ensures RuleMatches(TypeRules[4], n) <==> Contains(n, "url") || Contains(n, "link")
    ensures RuleMatches(TypeRules[5], n) <==> Contains(n, "ip") || Contains(n, "address")
  {
    AnyKeywordOf3(n, "num", "number", "count");
    AnyKeywordOf3(n, "url", "link", "");
    AnyKeywordOf3(n, "ip", "address", "");
  }

  lemma RulesSpecLast(n: string)
    ensures RuleMatches(TypeRules[6], n) <==> Contains(n, "user") || Contains(n, "username")
    ensures RuleMatches(TypeRules[7], n) <==> Contains(n, "pass") || Contains(n, "password")
    ensures RuleMatches(TypeRules[8], n) <==> Contains(n, "email")
  {
    AnyKeywordOf3(n, "user", "username", "");
    AnyKeywordOf3(n, "pass", "password", "");
    AnyKeywordOf3(n, "email", "", "");
  }

  /** The rule order decides: a port number is a port, an unknown name is text. */
  /** Rows of the inference table of the Go tests (the name is a parameter fixed by the precondition). */
  lemma InferTypeExamples(p: string)
    requires p == "port_number"
    ensures InferType(p) == "port"
  {
    ToLowerNoUpper(p);
    NotContainsChar(p, "file", 'f');
    NotContainsChar(p, "path", 'h');
    NotContainsChar(p, "dir", 'd');
    NotContainsChar(p, "directory", 'd');
    ContainsAt(p, "port", 0);
  }

  /**
    A name whose lower case lacks every one of the letters f, p, d, m, c, l,
    i, s and e matches no keyword and falls back to `text`.
   */
  lemma InferTypeFallback(name: string)
    requires forall c <- "fpdmclise" :: c !in ToLower(name)
    ensures InferType(name) == "text"
  {
    var u := ToLower(name);
    assert 'f' in "fpdmclise" && 'p' in "fpdmclise" && 'd' in "fpdmclise";
    assert 'm' in "fpdmclise" && 'c' in "fpdmclise" && 'l' in "fpdmclise";
    assert 'i' in "fpdmclise" && 's' in "fpdmclise" && 'e' in "fpdmclise";
    NotContainsChar(u, "file", 'f');
    NotContainsChar(u, "path", 'p');
    NotContainsChar(u, "dir", 'd');
    NotContainsChar(u, "directory", 'd');
    NotContainsChar(u, "port", 'p');
    NotContainsChar(u, "num", 'm');
    NotContainsChar(u, "number", 'm');
    NotContainsChar(u, "count", 'c');
    NotContainsChar(u, "url", 'l');
    NotContainsChar(u, "link", 'l');
    NotContainsChar(u, "ip", 'i');
    NotContainsChar(u, "address", 'd');
    NotContainsChar(u, "user", 's');
    NotContainsChar(u, "username", 's');
    NotContainsChar(u, "pass", 'p');
    NotContainsChar(u, "password", 'p');
    NotContainsChar(u, "email", 'e');
  }

  lemma InferTypeUnknown(u: string)
    requires u == "unknown"
    ensures InferType(u) == "text"
  {
    ToLowerNoUpper(u);
    InferTypeFallback(u);
  }

  // ---------------------------------------------------------------------------
  // Placeholder tokens: the regular expression \{\{([^}]+)\}\}
  // ---------------------------------------------------------------------------

  /** Position of the first `}` in `s`, or `|s|` when there is none. */
  function CloseIndex(s: string): (j: nat)
    ensures j <= |s| && '}' !in s[..j] && (j < |s| ==> s[j] == '}')
  {
    if s == [] || s[0] == '}' then 0 else 1 + CloseIndex(s[1..])
  }

  /** A token match at the start of a string: the captured name and where the match ends. */
  datatype TokenMatch = TokenMatch(name: string, end: nat)

  /**
    Whether the pattern matches at the very start of `s`. The class `[^}]+`
    cannot cross a `}`, so the only candidate for the name is the text up to
    the first `}` after the opening braces.
   */
  function MatchAt(s: string): (r: Option<TokenMatch>)
    ensures r.Some? ==> 4 < r.value.end <= |s|
    ensures r.Some? ==> s[..r.value.end] == "{{" + r.value.name + "}}"
    ensures r.Some? ==> r.value.name != [] && '}' !in r.value.name
  {
    if |s| >= 2 && s[0] == '{' && s[1] == '{' then
      var j := 2 + CloseIndex(s[2..]);
      if j > 2 && j + 1 < |s| && s[j + 1] == '}' then
        assert s[..j + 2] == "{{" + s[2..j] + "}}";
        Some(TokenMatch(s[2..j], j + 2))
      else None
    else None
  }

  /** All matches, leftmost first and non-overlapping (`FindAllStringSubmatch`, `findall`). */
  function Tokens(s: string): seq<string>
    decreases |s|
  {
    if s == [] then []
    else
      match MatchAt(s)
      case Some(m) => [m.name] + Tokens(s[m.end..])
      case None => Tokens(s[1..])
  }

  /** `{{name}}`, the token a placeholder stands for in a command. */
  function Token(name: string): string
  {
    "{{" + name + "}}"
  }

  /** Every captured name is non-empty, free of `}`, and occurs as a token of the command. */
  lemma {:induction false} TokensAreNames(s: string)
    ensures forall n <- Tokens(s) :: n != [] && '}' !in n && Contains(s, Token(n))
    decreases |s|
  {
    if s != [] {
      match MatchAt(s)
      case Some(m) =>
        TokensAreNames(s[m.end..]);
        ContainsAt(s, Token(m.name), 0);
        forall n <- Tokens(s[m.end..]) ensures Contains(s, Token(n)) {
          ContainsSuffix(s, m.end, Token(n));
        }
      case None =>
        TokensAreNames(s[1..]);
        forall n <- Tokens(s[1..]) ensures Contains(s, Token(n)) {
          ContainsSuffix(s, 1, Token(n));
        }
    }
  }

  /** A command without `{` has no tokens. */
  lemma {:induction false} TokensNeedBrace(s: string)
    requires '{' !in s
    ensures Tokens(s) == []
    decreases |s|
  {
    if s != [] {
      assert MatchAt(s).None?;
      TokensNeedBrace(s[1..]);
    }
  }

  // ---------------------------------------------------------------------------
  // Deduplication and the extracted placeholder list
  // ---------------------------------------------------------------------------

  predicate Distinct<T(==)>(s: seq<T>)
  {
    forall i, j :: 0 <= i < j < |s| ==> s[i] != s[j]
  }

  /** The first occurrence of each element, in order of first occurrence. */
  function Dedup<T(==)>(xs: seq<T>): seq<T>
  {
    if xs == [] then []
    else
      var d := Dedup(xs[..|xs| - 1]);
      if xs[|xs| - 1] in d then d else d + [xs[|xs| - 1]]
  }

  /** Position of the first occurrence of `x` in `xs`. */
  function FirstIndex<T(==)>(xs: seq<T>, x: T): (i: nat)
    requires x in xs
    ensures i < |xs| && xs[i] == x && x !in xs[..i]
  {
    if xs[0] == x then 0 else 1 + FirstIndex(xs[1..], x)
  }

  /** The first occurrence is the one position holding `x` with no `x` before it. */
  lemma {:induction false} FirstIndexUnique<T>(xs: seq<T>, x: T, i: nat)
    requires i < |xs| && xs[i] == x && x !in xs[..i]
    ensures FirstIndex(xs, x) == i
  {
    if i > 0 {
      assert xs[0] in xs[..i];
      assert xs[1..][..i - 1] == xs[1..i];
      FirstIndexUnique(xs[1..], x, i - 1);
    }
  }

  lemma FirstIndexExtend<T>(xs: seq<T>, y: T, x: T)
    requires x in xs
    ensures FirstIndex(xs + [y], x) == FirstIndex(xs, x)
  {
    var i := FirstIndex(xs, x);
    assert (xs + [y])[..i] == xs[..i];
    FirstIndexUnique(xs + [y], x, i);
  }

  /**
    Deduplication keeps exactly the elements of the input, each once, in
    the order in which they first occur.
   */
  lemma {:induction false} DedupSpec<T>(xs: seq<T>)
    ensures Distinct(Dedup(xs))
    ensures forall x :: x in Dedup(xs) <==> x in xs
    ensures forall i, j :: 0 <= i < j < |Dedup(xs)| ==>
      FirstIndex(xs, Dedup(xs)[i]) < FirstIndex(xs, Dedup(xs)[j])
  {
    if xs != [] {
      var p := xs[..|xs| - 1];
      var x := xs[|xs| - 1];
      assert xs == p + [x];
      DedupSpec(p);
      var d := Dedup(p);
      forall y | y in p ensures FirstIndex(xs, y) == FirstIndex(p, y) {
        FirstIndexExtend(p, x, y);
      }
      if x !in d {
        assert x !in p;
        assert xs[..|p|] == p;
        FirstIndexUnique(xs, x, |p|);
        forall i | 0 <= i < |d| ensures FirstIndex(xs, d[i]) < FirstIndex(xs, x) {
          assert d[i] in d;
        }
      }
    }
  }

  /** The placeholder record the extractor builds for a captured name. */
  function NewPlaceholder(name: string): Placeholder
  {
    Placeholder(name, InferType(name), "", "")
  }

  function NewPlaceholders(names: seq<string>): seq<Placeholder>
  {
    seq(|names|, i requires 0 <= i < |names| => NewPlaceholder(names[i]))
  }

  /** What `extractPlaceholders` returns for a command. */
  function PlaceholdersOf(command: string): seq<Placeholder>
  {
    NewPlaceholders(Dedup(Tokens(command)))
  }

  function Names(ps: seq<Placeholder>): seq<string>
  {
    seq(|ps|, i requires 0 <= i < |ps| => ps[i].name)
  }

  /**
    The extracted placeholders: one per distinct token name, in order of first
    occurrence, each name non-empty and free of `}`, typed by `InferType`, with
    no default and no description.
   */
  lemma PlaceholdersOfSpec(command: string)
    ensures Distinct(Names(PlaceholdersOf(command)))
    ensures forall n :: n in Names(PlaceholdersOf(command)) <==> n in Tokens(command)
    ensures forall p <- PlaceholdersOf(command) ::
      p.name != [] && '}' !in p.name && Contains(command, Token(p.name))
      && p.kind == InferType(p.name) && p.default == "" && p.description == ""
    ensures forall i, j :: 0 <= i < j < |PlaceholdersOf(command)| ==>
      PlaceholdersOf(command)[i].name in Tokens(command)
      && PlaceholdersOf(command)[j].name in Tokens(command)
      && FirstIndex(Tokens(command), PlaceholdersOf(command)[i].name)
        < FirstIndex(Tokens(command), PlaceholdersOf(command)[j].name)
  {
    var ts := Tokens(command);
    var d := Dedup(ts);
    DedupSpec(ts);
    TokensAreNames(command);
    var ps := PlaceholdersOf(command);
    assert Names(ps) == d;
    forall p <- ps
      ensures p.name != [] && '}' !in p.name && Contains(command, Token(p.name))
    {
      var k :| 0 <= k < |ps| && ps[k] == p;
      assert p.name == d[k];
      assert p.name in ts;
    }
    forall i, j | 0 <= i < j < |ps|
      ensures ps[i].name in ts && ps[j].name in ts && FirstIndex(ts, ps[i].name) < FirstIndex(ts, ps[j].name)
    {
      assert ps[i].name == d[i] && ps[j].name == d[j];
    }
  }

  /** Text without `{` before a command contributes no tokens. */
  lemma {:induction false} TokensSkip(a: string, x: string)
    requires '{' !in a
    ensures Tokens(a + x) == Tokens(x)
    decreases |a|
  {
    if a != [] {
      assert MatchAt(a + x).None?;
      assert (a + x)[1..] == a[1..] + x;
      TokensSkip(a[1..], x);
    } else {
      assert a + x == x;
    }
  }

  /** A command template: literal text and named slots, as a page author writes it. */
  datatype Segment = Lit(text: string) | Slot(name: string)

  /** The command text a template stands for, each slot written `{{name}}`. */
  function Flatten(tpl: seq<Segment>): string
  {
    if tpl == [] then []
    else
      match tpl[0]
      case Lit(t) => t + Flatten(tpl[1..])
      case Slot(n) => Token(n) + Flatten(tpl[1..])
  }

  function SlotNames(tpl: seq<Segment>): seq<string>
  {
    if tpl == [] then []
    else
      match tpl[0]
      case Lit(_) => SlotNames(tpl[1..])
      case Slot(n) => [n] + SlotNames(tpl[1..])
  }

  /** Literal text holds no `{`; slot names are non-empty and hold no `}`. */
  predicate WellFormed(tpl: seq<Segment>)
  {
    forall k :: 0 <= k < |tpl| ==>
      match tpl[k]
      case Lit(t) => '{' !in t
      case Slot(n) => n != [] && '}' !in n
  }

  lemma {:induction false} CloseIndexAppend(a: string, b: string)
    requires '}' !in a && b != [] && b[0] == '}'
    ensures CloseIndex(a + b) == |a|
    decreases |a|
  {
    if a != [] {
      assert (a + b)[1..] == a[1..] + b;
      CloseIndexAppend(a[1..], b);
    } else {
      assert a + b == b;
    }
  }

  /** A slot at the start of the text is matched, and the match ends right after it. */
  lemma MatchAtToken(n: string, rest: string)
    requires n != [] && '}' !in n
    ensures MatchAt(Token(n) + rest) == Some(TokenMatch(n, |n| + 4))
  {
    var s := Token(n) + rest;
    assert s[2..] == n + ("}}" + rest);
    CloseIndexAppend(n, "}}" + rest);
    assert s[2..2 + |n|] == n;
  }

  /** The tokens of a well-formed template are exactly its slot names, in order. */
  lemma {:induction false} TokensOfTemplate(tpl: seq<Segment>)
    requires WellFormed(tpl)
    ensures Tokens(Flatten(tpl)) == SlotNames(tpl)
  {
    if tpl == [] {
    } else {
      var rest := tpl[1..];
      assert WellFormed(rest) by {
        forall k | 0 <= k < |rest| ensures rest[k] == tpl[k + 1] { }
      }
      TokensOfTemplate(rest);
      match tpl[0]
      case Lit(t) =>
        assert '{' !in t by { assert tpl[0] == Lit(t); }
        TokensSkip(t, Flatten(rest));
      case Slot(n) =>
        assert n != [] && '}' !in n by { assert tpl[0] == Slot(n); }
        var s := Token(n) + Flatten(rest);
        MatchAtToken(n, Flatten(rest));
        assert s[|n| + 4..] == Flatten(rest);
    }
  }

  /** So extraction from a well-formed template gives one placeholder per distinct slot name. */
  lemma PlaceholdersOfTemplate(tpl: seq<Segment>)
    requires WellFormed(tpl)
    ensures PlaceholdersOf(Flatten(tpl)) == NewPlaceholders(Dedup(SlotNames(tpl)))
  {
    TokensOfTemplate(tpl);
  }

  /** Rows of the extraction table of the Go tests. */
  lemma PlaceholdersOfNone(c: string)
    requires c == "ls -la"
    ensures PlaceholdersOf(c) == []
  {
    TokensNeedBrace(c);
  }

  /**
    The extractor of the Go source: the regular expression (modelled by
    `Tokens`) lists the matches, and a loop keeps each name the first time it
    is seen.
   */
  method ExtractPlaceholders(command: string) returns (placeholders: seq<Placeholder>)
    ensures placeholders == PlaceholdersOf(command)
  {
    var matches := Tokens(command);
    placeholders := [];
    var seen: set<string> := {};
    var i := 0;
    while i < |matches|
      invariant 0 <= i <= |matches|
      invariant placeholders == NewPlaceholders(Dedup(matches[..i]))
      invariant forall n :: n in seen <==> n in Dedup(matches[..i])
    {
      var name := matches[i];
      assert matches[..i + 1][..i] == matches[..i];
      if name !in seen {
        seen := seen + {name};
        placeholders := placeholders + [NewPlaceholder(name)];
      }
      i := i + 1;
    }
    assert matches[..|matches|] == matches;
  }
}
