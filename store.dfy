/**
  The selection logic of the Python page store (tldrpp/cache.py): resolving a
  command name to a page, searching the catalog and ranking the results. The
  catalog is an in-memory sequence of index entries; reading a page file is
  the parameter `read`, which yields the file's text or nothing when it
  cannot be read; the text is parsed as the Python twin parses it.
 */
module Store {
  import opened Base
  import opened Text
  import opened Types
  import opened Parser
  import opened Sorting

  datatype StoreError = CommandNotFound(command: string) | Unreadable(entry: IndexEntry)

  /** `_load_page`: the entry's page file, parsed; an unreadable file is an error. */
  function LoadPage(read: IndexEntry -> Option<string>, e: IndexEntry): (r: Result<Page, StoreError>)
    ensures r.Err? <==> read(e).None?
    ensures r.Ok? ==> r.value.name == e.name && r.value.platform == e.platform && r.value.rawContent == read(e).value
  {
    match read(e)
    case None => Err(Unreadable(e))
    case Some(content) => Ok(ParseSpec(PyTwin, content, e))
  }

  // ---------------------------------------------------------------------------
  // find_page
  // ---------------------------------------------------------------------------

  /** Entry `i` is the first one named exactly `command` (case matters). */
  predicate FirstExact(index: seq<IndexEntry>, command: string, i: nat)
  {
    i < |index| && index[i].name == command && forall j :: 0 <= j < i ==> index[j].name != command
  }

  predicate HasExact(index: seq<IndexEntry>, command: string)
  {
    exists e <- index :: e.name == command
  }

  /** The lower-cased command occurs in the lower-cased name. */
  predicate PartialMatch(e: IndexEntry, command: string)
  {
    Contains(ToLower(e.name), ToLower(command))
  }

  /** The entries that match partially, in catalog order. */
  function Matches(index: seq<IndexEntry>, command: string): seq<IndexEntry>
    decreases |index|
  {
    if index == [] then []
    else
      var n := |index| - 1;
      Matches(index[..n], command) + (if PartialMatch(index[n], command) then [index[n]] else [])
  }

  /**
    The sort key of `find_page`, `(not name.startswith(command), name)` on the
    lower-cased strings, as a strict order: names that start with the command
    come first, then lexicographic order.
   */
  predicate KeyLessLower(x: string, y: string, q: string)
  {
    (IsPrefix(q, x) && !IsPrefix(q, y)) || (IsPrefix(q, x) == IsPrefix(q, y) && LexLess(x, y))
  }

  predicate KeyLess(a: IndexEntry, b: IndexEntry, command: string)
  {
    KeyLessLower(ToLower(a.name), ToLower(b.name), ToLower(command))
  }

  /**
    Element `i` is what a stable sort by the key puts first: no element has a
    smaller key, and every element before it has a larger one.
   */
  predicate FirstMin(ms: seq<IndexEntry>, command: string, i: nat)
  {
    i < |ms|
    && (forall j :: 0 <= j < |ms| ==> !KeyLess(ms[j], ms[i], command))
    && (forall j :: 0 <= j < i ==> KeyLess(ms[i], ms[j], command))
  }

  lemma KeyLessIrreflexive(a: IndexEntry, command: string)
    ensures !KeyLess(a, a, command)
  {
    LexLessIrreflexive(ToLower(a.name));
  }

  lemma KeyLessTransitive(a: IndexEntry, b: IndexEntry, c: IndexEntry, command: string)
    requires KeyLess(a, b, command) && KeyLess(b, c, command)
    ensures KeyLess(a, c, command)
  {
    var x, y, z := ToLower(a.name), ToLower(b.name), ToLower(c.name);
    if LexLess(x, y) && LexLess(y, z) {
      LexLessTransitive(x, y, z);
    }
  }

  /** Two entries whose lower-cased names differ are ordered one way or the other. */
  lemma KeyLessTotal(a: IndexEntry, b: IndexEntry, command: string)
    requires ToLower(a.name) != ToLower(b.name)
    ensures KeyLess(a, b, command) || KeyLess(b, a, command)
  {
    LexLessTotal(ToLower(a.name), ToLower(b.name));
  }

  /** The first minimum is unique, so the chosen entry is determined. */
  lemma FirstMinUnique(ms: seq<IndexEntry>, command: string, i: nat, k: nat)
    requires FirstMin(ms, command, i) && FirstMin(ms, command, k)
    ensures i == k
  {
    assert !KeyLess(ms[k], ms[i], command);
    assert !KeyLess(ms[i], ms[k], command);
  }

  /**
    `find_page`: the first entry named exactly `command`; otherwise the
    partial match that sorts first; an error when nothing matches. The sort
    followed by taking the first element is a scan for the first smallest key,
    which is the element a stable sort puts first.
   */
  method FindPage(index: seq<IndexEntry>, command: string, read: IndexEntry -> Option<string>)
    returns (r: Result<Page, StoreError>)
    ensures forall i: nat :: FirstExact(index, command, i) ==> r == LoadPage(read, index[i])
    ensures !HasExact(index, command) && Matches(index, command) == [] ==> r == Err(CommandNotFound(command))
    ensures !HasExact(index, command) && Matches(index, command) != [] ==>
      exists i: nat :: FirstMin(Matches(index, command), command, i) && r == LoadPage(read, Matches(index, command)[i])
  {
    var i := 0;
    while i < |index|
      invariant 0 <= i <= |index|
      invariant forall j :: 0 <= j < i ==> index[j].name != command
    {
      if index[i].name == command {
        assert FirstExact(index, command, i);
        forall k | FirstExact(index, command, k) ensures k == i { }
        return LoadPage(read, index[i]);
      }
      i := i + 1;
    }
    assert !HasExact(index, command);
    var matches := [];
    i := 0;
    while i < |index|
      invariant 0 <= i <= |index|
      invariant matches == Matches(index[..i], command)
    {
      assert index[..i + 1][..i] == index[..i];
      if PartialMatch(index[i], command) {
        matches := matches + [index[i]];
      }
      i := i + 1;
    }
    assert index[..|index|] == index;
    if matches == [] {
      return Err(CommandNotFound(command));
    }
    var best := 0;
    var k := 1;
    KeyLessIrreflexive(matches[0], command);
    while k < |matches|
      invariant 1 <= k <= |matches| && best < k
      invariant forall j :: 0 <= j < k ==> !KeyLess(matches[j], matches[best], command)
      invariant forall j :: 0 <= j < best ==> KeyLess(matches[best], matches[j], command)
    {
      if KeyLess(matches[k], matches[best], command) {
        forall j | 0 <= j < k
          ensures !KeyLess(matches[j], matches[k], command) && KeyLess(matches[k], matches[j], command)
        {
          if KeyLess(matches[j], matches[k], command) {
            KeyLessTransitive(matches[j], matches[k], matches[best], command);
          }
          if ToLower(matches[j].name) != ToLower(matches[best].name) {
            KeyLessTotal(matches[j], matches[best], command);
            if KeyLess(matches[best], matches[j], command) {
              KeyLessTransitive(matches[k], matches[best], matches[j], command);
            }
          }
        }
        KeyLessIrreflexive(matches[k], command);
        best := k;
      }
      k := k + 1;
    }
    assert FirstMin(matches, command, best);
    return LoadPage(read, matches[best]);
  }

  lemma {:induction false} MatchesSpec(index: seq<IndexEntry>, command: string)
    ensures forall e :: e in Matches(index, command) <==> e in index && PartialMatch(e, command)
    decreases |index|
  {
    if index != [] {
      var n := |index| - 1;
      MatchesSpec(index[..n], command);
      assert index == index[..n] + [index[n]];
    }
  }

  /**
    What `find_page` settles on when no name is exact: an entry of the
    catalog whose name contains the command ignoring case; one whose name
    starts with the command whenever any does; and among those of its kind
    the lexicographically smallest lower-cased name.
   */
  lemma FindPageChoice(index: seq<IndexEntry>, command: string, i: nat)
    requires FirstMin(Matches(index, command), command, i)
    ensures var m := Matches(index, command)[i];
      var q := ToLower(command);
      m in index && PartialMatch(m, command)
      && ((exists e <- Matches(index, command) :: IsPrefix(q, ToLower(e.name))) ==> IsPrefix(q, ToLower(m.name)))
      && forall e <- Matches(index, command) :: IsPrefix(q, ToLower(e.name)) == IsPrefix(q, ToLower(m.name))
           ==> !LexLess(ToLower(e.name), ToLower(m.name))
  {
    var ms := Matches(index, command);
    MatchesSpec(index, command);
    assert ms[i] in ms;
  }

  // ---------------------------------------------------------------------------
  // _calculate_relevance_score
  // ---------------------------------------------------------------------------

  /** The name tier, on lower-cased strings: exact 100, prefix 50, substring 25. */
  function NameTier(name: string, query: string): nat
  {
    if name == query then 100
    else if IsPrefix(query, name) then 50
    else if Contains(name, query) then 25
    else 0
  }

  /** The number of examples whose lower-cased description contains `query`. */
  function ExampleHits(examples: seq<Example>, query: string): nat
    decreases |examples|
  {
    if examples == [] then 0
    else
      var n := |examples| - 1;
      ExampleHits(examples[..n], query) + (if Contains(ToLower(examples[n].description), query) then 1 else 0)
  }

  /** The relevance score of a page for a query. */
  function Score(page: Page, query: string): int
  {
    var q := ToLower(query);
    NameTier(ToLower(page.name), q)
    + (if Contains(ToLower(page.description), q) then 10 else 0)
    + 15 * ExampleHits(page.examples, q)
  }

  /** `_calculate_relevance_score` as the source accumulates it. */
  method CalculateScore(page: Page, query: string) returns (score: int)
    ensures score == Score(page, query)
  {
    score := 0;
    var q := ToLower(query);
    var name := ToLower(page.name);
    if name == q {
      score := score + 100;
    } else if IsPrefix(q, name) {
      score := score + 50;
    } else if Contains(name, q) {
      score := score + 25;
    }
    if Contains(ToLower(page.description), q) {
      score := score + 10;
    }
    var base := score;
    var i := 0;
    while i < |page.examples|
      invariant 0 <= i <= |page.examples|
      invariant score == base + 15 * ExampleHits(page.examples[..i], q)
    {
      assert page.examples[..i + 1][..i] == page.examples[..i];
      if Contains(ToLower(page.examples[i].description), q) {
        score := score + 15;
      }
      i := i + 1;
    }
    assert page.examples[..|page.examples|] == page.examples;
  }

  lemma {:induction false} ExampleHitsBound(examples: seq<Example>, query: string)
    ensures ExampleHits(examples, query) <= |examples|
    decreases |examples|
  {
    if examples != [] {
      ExampleHitsBound(examples[..|examples| - 1], query);
    }
  }

  /**
    The name tiers exclude each other: the tier is 100 exactly for the name
    itself, at least 50 exactly when the name starts with the query, and
    positive exactly when the name contains it.
   */
  lemma NameTierSpec(name: string, query: string)
    ensures NameTier(name, query) in {0, 25, 50, 100}
    ensures NameTier(name, query) == 100 <==> name == query
    ensures NameTier(name, query) >= 50 <==> IsPrefix(query, name)
    ensures NameTier(name, query) > 0 <==> Contains(name, query)
  {
    if name == query {
      assert name[..|query|] == name;
    }
  }

  /** 0 <= score <= 110 + 15 per example. */
  lemma ScoreBounds(page: Page, query: string)
    ensures 0 <= Score(page, query) <= 110 + 15 * |page.examples|
  {
    ExampleHitsBound(page.examples, ToLower(query));
  }

  // ---------------------------------------------------------------------------
  // search_pages
  // ---------------------------------------------------------------------------

  /**
    An entry is searched when the platform list is empty or names its
    platform, and the lower-cased query occurs in its lower-cased name or
    description.
   */
  predicate Selected(e: IndexEntry, query: string, platforms: seq<string>)
  {
    (platforms == [] || e.platform in platforms)
    && (Contains(ToLower(e.name), ToLower(query)) || Contains(ToLower(e.description), ToLower(query)))
  }

  /** The pages of the selected entries that load, in catalog order. */
  function Candidates(index: seq<IndexEntry>, query: string, platforms: seq<string>, read: IndexEntry -> Option<string>): seq<Page>
    decreases |index|
  {
    if index == [] then []
    else
      var n := |index| - 1;
      var e := index[n];
      Candidates(index[..n], query, platforms, read)
      + (if Selected(e, query, platforms) && LoadPage(read, e).Ok? then [LoadPage(read, e).value] else [])
  }

  /** The score of a page as a sort key. */
  function ByScore(query: string): Page -> int
  {
    p => Score(p, query)
  }

  /** `search_pages` as written: the candidates, stably sorted by ascending score. */
  function SearchSpec(index: seq<IndexEntry>, query: string, platforms: seq<string>, read: IndexEntry -> Option<string>): seq<Page>
  {
    Sort(Candidates(index, query, platforms, read), ByScore(query))
  }

  /**
    The scan of `search_pages`: it keeps the loadable pages of the selected
    entries and skips those that fail to load.
   */
  method CollectCandidates(index: seq<IndexEntry>, query: string, platforms: seq<string>, read: IndexEntry -> Option<string>)
    returns (results: seq<Page>)
    ensures results == Candidates(index, query, platforms, read)
  {
    results := [];
    var i := 0;
    while i < |index|
      invariant 0 <= i <= |index|
      invariant results == Candidates(index[..i], query, platforms, read)
    {
      assert index[..i + 1][..i] == index[..i];
      var e := index[i];
      if (platforms == [] || e.platform in platforms)
         && (Contains(ToLower(e.name), ToLower(query)) || Contains(ToLower(e.description), ToLower(query)))
      {
        var loaded := LoadPage(read, e);
        if loaded.Ok? {
          results := results + [loaded.value];
        }
      }
      i := i + 1;
    }
    assert index[..|index|] == index;
  }

  /** `search_pages` as written: the scan, then Python's stable sort by score. */
  method SearchPages(index: seq<IndexEntry>, query: string, platforms: seq<string>, read: IndexEntry -> Option<string>)
    returns (results: seq<Page>)
    ensures results == SearchSpec(index, query, platforms, read)
  {
    results := CollectCandidates(index, query, platforms, read);
    results := Sort(results, ByScore(query));
  }

  /**
    A page is a candidate exactly when it is the loaded page of a selected
    entry: nothing else is found, and a page that fails to load is skipped
    rather than reported.
   */
  lemma {:induction false} CandidatesSpec(index: seq<IndexEntry>, query: string, platforms: seq<string>, read: IndexEntry -> Option<string>)
    ensures forall p :: p in Candidates(index, query, platforms, read) <==>
      exists e <- index :: Selected(e, query, platforms) && LoadPage(read, e) == Ok(p)
    decreases |index|
  {
    if index != [] {
      var n := |index| - 1;
      CandidatesSpec(index[..n], query, platforms, read);
      assert index == index[..n] + [index[n]];
    }
  }

  /**
    The search results are the candidates reordered: the same pages, every
    one passing the platform and text filters, in ascending score, with pages
    of equal score in catalog order.
   */
  lemma SearchResults(index: seq<IndexEntry>, query: string, platforms: seq<string>, read: IndexEntry -> Option<string>)
    ensures var c := Candidates(index, query, platforms, read);
      var r := SearchSpec(index, query, platforms, read);
      multiset(r) == multiset(c)
      && (forall i, j :: 0 <= i < j < |r| ==> Score(r[i], query) <= Score(r[j], query))
      && (forall k :: WithKey(r, ByScore(query), k) == WithKey(c, ByScore(query), k))
  {
    var c := Candidates(index, query, platforms, read);
    SortPermutes(c, ByScore(query));
    SortSorted(c, ByScore(query));
    forall k ensures WithKey(SearchSpec(index, query, platforms, read), ByScore(query), k) == WithKey(c, ByScore(query), k) {
      SortStable(c, ByScore(query), k);
    }
  }

  /** Every result comes from a selected entry and is that entry's page. */
  lemma SearchResultsSelected(index: seq<IndexEntry>, query: string, platforms: seq<string>, read: IndexEntry -> Option<string>, p: Page)
    requires p in SearchSpec(index, query, platforms, read)
    ensures exists e <- index :: Selected(e, query, platforms) && LoadPage(read, e) == Ok(p)
  {
    var c := Candidates(index, query, platforms, read);
    SearchResults(index, query, platforms, read);
    assert p in multiset(SearchSpec(index, query, platforms, read));
    assert p in multiset(c);
    assert p in c;
    CandidatesSpec(index, query, platforms, read);
  }

  // ---------------------------------------------------------------------------
  // The ranking order
  // ---------------------------------------------------------------------------

  /**
    The catalog `tar`, `tarsnap`, both pages empty, searched for `tar` on all
    platforms: both pages are found, scoring 100 (exact) and 50 (prefix).
   */
  lemma TarCatalog(a: IndexEntry, b: IndexEntry, read: IndexEntry -> Option<string>, query: string)
    requires a == IndexEntry("tar", "", "common") && b == IndexEntry("tarsnap", "", "common")
    requires query == "tar" && read(a) == Some("") && read(b) == Some("")
    ensures var pa, pb := LoadPage(read, a).value, LoadPage(read, b).value;
      Score(pa, query) == 100 && Score(pb, query) == 50
      && Candidates([a, b], query, [], read) == [pa, pb]
  {
    var pa, pb := LoadPage(read, a).value, LoadPage(read, b).value;
    assert ToLower(query) == query && ToLower(a.name) == a.name && ToLower(b.name) == b.name;
    assert Lines("") == [""];
    assert pa.examples == [] && pa.description == "";
    assert pb.examples == [] && pb.description == "";
    assert IsPrefix(query, b.name) && b.name != query;
    assert Selected(a, query, []) && Selected(b, query, []);
    assert [a, b][..1] == [a] && [a][..0] == [];
    assert Candidates([a], query, [], read) == [pa];
  }

  /**
    The ascending sort puts the best match last: for the catalog above,
    `tarsnap` is returned before the page named exactly `tar`.
   */
  lemma AscendingRanksExactLast(a: IndexEntry, b: IndexEntry, read: IndexEntry -> Option<string>, query: string)
    requires a == IndexEntry("tar", "", "common") && b == IndexEntry("tarsnap", "", "common")
    requires query == "tar" && read(a) == Some("") && read(b) == Some("")
    ensures SearchSpec([a, b], query, [], read) == [LoadPage(read, b).value, LoadPage(read, a).value]
  {
    TarCatalog(a, b, read, query);
    var pa, pb := LoadPage(read, a).value, LoadPage(read, b).value;
    assert [pa, pb][..1] == [pa] && [pa][..0] == [];
    assert Sort([pa], ByScore(query)) == [pa];
    assert ByScore(query)(pb) < ByScore(query)(pa);
  }

  /** The score negated: sorting by it stably puts higher scores first. */
  function ByRank(query: string): Page -> int
  {
    p => -Score(p, query)
  }

  /**
    `search_pages` as evidently intended: the most relevant page first, ties
    in catalog order (Python's `sort(key=..., reverse=True)`, which is also
    stable).
   */
  function RankedSpec(index: seq<IndexEntry>, query: string, platforms: seq<string>, read: IndexEntry -> Option<string>): seq<Page>
  {
    Sort(Candidates(index, query, platforms, read), ByRank(query))
  }

  method SearchPagesRanked(index: seq<IndexEntry>, query: string, platforms: seq<string>, read: IndexEntry -> Option<string>)
    returns (results: seq<Page>)
    ensures results == RankedSpec(index, query, platforms, read)
  {
    results := CollectCandidates(index, query, platforms, read);
    results := Sort(results, ByRank(query));
  }

  /**
    The ranked results are the candidates in descending score, equal scores
    in catalog order; in particular the first result scores highest.
   */
  lemma RankedResults(index: seq<IndexEntry>, query: string, platforms: seq<string>, read: IndexEntry -> Option<string>)
    ensures var c := Candidates(index, query, platforms, read);
      var r := RankedSpec(index, query, platforms, read);
      multiset(r) == multiset(c)
      && (forall i, j :: 0 <= i < j < |r| ==> Score(r[i], query) >= Score(r[j], query))
      && (forall k :: WithKey(r, ByRank(query), k) == WithKey(c, ByRank(query), k))
      && (r != [] ==> forall p <- c :: Score(p, query) <= Score(r[0], query))
  {
    var c := Candidates(index, query, platforms, read);
    var r := RankedSpec(index, query, platforms, read);
    SortPermutes(c, ByRank(query));
    SortSorted(c, ByRank(query));
    forall k ensures WithKey(r, ByRank(query), k) == WithKey(c, ByRank(query), k) {
      SortStable(c, ByRank(query), k);
    }
    if r != [] {
      forall p <- c ensures Score(p, query) <= Score(r[0], query) {
        assert p in multiset(r);
        var j :| 0 <= j < |r| && r[j] == p;
        if j > 0 {
          assert ByRank(query)(r[0]) <= ByRank(query)(r[j]);
        }
      }
    }
  }

  /** With the catalog above the corrected order returns `tar` first. */
  lemma RankedPutsExactFirst(a: IndexEntry, b: IndexEntry, read: IndexEntry -> Option<string>, query: string)
    requires a == IndexEntry("tar", "", "common") && b == IndexEntry("tarsnap", "", "common")
    requires query == "tar" && read(a) == Some("") && read(b) == Some("")
    ensures RankedSpec([a, b], query, [], read) == [LoadPage(read, a).value, LoadPage(read, b).value]
  {
    TarCatalog(a, b, read, query);
    var pa, pb := LoadPage(read, a).value, LoadPage(read, b).value;
    assert [pa, pb][..1] == [pa] && [pa][..0] == [];
    assert Sort([pa], ByRank(query)) == [pa];
    assert !(ByRank(query)(pb) < ByRank(query)(pa));
    assert [pa][1..] == [];
    assert Insert(pb, [pa], ByRank(query)) == [pa] + Insert(pb, [], ByRank(query));
  }
}
