# tldr++ core in Dafny

tldr++ is a command-line cheat-sheet tool. It keeps a catalog of tldr pages,
which are short markdown files. Each page has a title, a `> ` description,
and `- ` examples, each followed by a backticked command containing
`{{placeholder}}` slots. From a page the tool can:

- find an example and fill in its placeholders;
- run the filled command, asking first when it looks destructive;
- validate a new example and write it out as a page for submission;
- browse the catalog in a small terminal UI.

The repository has the same core twice: in Go under `internal/` and in
Python under `tldrpp/`. This project models that core and proves the
properties below:

- **Types** (`types.dfy`): the records (index entry, placeholder, example, page).
  - The ordered keyword rules of placeholder-type inference.
  - The `{{name}}` token scan, modelled as a leftmost, non-overlapping scan.
  - The deduplicating placeholder extraction. `ExtractPlaceholders` is the
    loop with a `seen` set; `PlaceholdersOf` is the function it is proved against.
- **Parser** (`parser.dfy`):
  - `ParsePage` is the line loop, proved equal to a fold of a one-line `Step`.
  - Lemmas give the description, the examples in document order, the example
    count and the command of each example.
- **Render** (`render.dfy`):
  - `RenderExample` is the placeholder-filling loop.
  - A template theorem shows that filling a well-formed command replaces
    every slot and leaves no braces.
  - `FindBestExample` is the example choice.
- **App** (`app.dfy`):
  - The destructive-command classifier, with its constant verb list.
  - The confirmation gate.
  - The error order of `render` and `execute`.
- **Sorting** (`sorting.dfy`): Python's stable `list.sort(key=...)`, written
  as insertion sort. Proved sorted, a permutation of its input, and stable.
- **Store** (`store.dfy`): the Python `find_page`, `search_pages` and the
  relevance score, over an in-memory catalog. Reading a page file is the
  parameter `read`.
- **Plugin** (`plugin.dfy`):
  - Example validation, which accumulates a list of issues.
  - Sub-command dispatch of the submission plugin.
  - Markdown generation, in both twins, with a round trip through the parser.
  - The plugin registry, `PluginManager`, written as a class.
  - The per-line decision of the interactive prompt.
- **Tui** (`tui.dfy`): the terminal UI's state machine.
  - The class `App` has the source's fields and methods: `HandleKeyPress`,
    `LoadPages`, `Run`, `ToggleAllPlatforms` and `TogglePlatform`.
  - Each method is proved against the pure transition `KeyPress` on a
    `Screen` snapshot.
- **Cli** (`cli.dfy`): the `--vars key=value,...` parser of the Python
  command line, with a round trip from clean pairs.

Where the twins differ, a `Twin` parameter (`GoTwin` or `PyTwin`) selects
the behaviour:

- how many backticks are stripped from a command line;
- how a placeholder's value is chosen;
- whether lengths are counted in bytes or in code points;
- the trailing newline of the generated markdown;
- how the confirmation reply is read.

`search_pages` treats an empty platform list as "no filter": the test
`if platforms and ...` at tldrpp/cache.py:173 skips the platform check when
the list is empty, so every platform passes.

Where the tests and the code disagree, the model follows the code:

- Parsed example descriptions keep their trailing `:`, and the page
  description its trailing `.`. The tests at internal/types/types_test.go:34
  and :46 and at tests/test_cache.py:164 expect them without.
- Constructing an `Example` does not extract placeholders. The tests at
  tests/test_cache.py:32-40 expect the constructor to find `{{file}}`.

## Model

| member | source | states |
|---|---|---|
| Types.InferType | internal/types/types.go:163-187 | Defines `inferPlaceholderType`: the lower-cased name tested against the keyword cases in order, `text` when none holds. Stated by `InferTypeIsFirstMatch` and `InferTypeTags`. |
| Types.Tokens | internal/types/types.go:141-142 | Defines the regex scan `\{\{([^}]+)\}\}`: leftmost, non-overlapping matches, each giving its capture. Stated by `TokensAreNames` and `TokensOfTemplate`. |
| Types.Dedup | internal/types/types.go:144-157 | Defines the `seen` pass: each name kept at its first occurrence. Stated by `DedupSpec`. |
| Types.PlaceholdersOf | internal/types/types.go:137-160 | Defines `extractPlaceholders`: one placeholder per distinct scanned name, with the inferred type. Stated by `PlaceholdersOfSpec`. |
| Types.FirstRule | internal/types/types.go:166-187 | The rule found is the first one in table order whose keyword the lower-cased name contains. None is found only when no rule matches. |
| Types.InferTypeIsFirstMatch | internal/types/types.go:163-187 | Type inference equals the first-match lookup in the fixed rule table. |
| Types.InferTypeTags | internal/types/types.go:163-187 | The inferred type is always one of the ten tags. |
| Types.RulesSpecFirst | internal/types/types.go:167-172 | Rules 1-3 fire exactly on "file"/"path", "dir"/"directory" and "port". |
| Types.RulesSpecMiddle | internal/types/types.go:173-178 | Rules 4-6 fire exactly on "num"/"number"/"count", "url"/"link" and "ip"/"address". |
| Types.RulesSpecLast | internal/types/types.go:179-184 | Rules 7-9 fire exactly on "user"/"username", "pass"/"password" and "email". |
| Types.InferTypeFallback | internal/types/types.go:185-186 | A name whose lower case has none of the letters f, p, d, m, c, l, i, s, e infers "text". |
| Types.InferTypeExamples | internal/types/types_test.go:190 | "port_number" infers "port": the earlier rule wins over the later "number" rule. |
| Types.InferTypeUnknown | internal/types/types_test.go:203 | "unknown" infers "text". |
| Types.MatchAt | internal/types/types.go:141 | A match at the start of the text is `{{` + name + `}}`, with a non-empty name free of `}`. |
| Types.TokensAreNames | internal/types/types.go:141-147 | Every scanned name is non-empty, has no `}`, and occurs as `{{name}}` in the command. |
| Types.TokensNeedBrace | internal/types/types.go:141-142 | A command without `{` has no tokens. |
| Types.TokensOfTemplate | internal/types/types.go:141-142 | For a command built from literal text and slots, the scan returns exactly the slot names in order. |
| Types.DedupSpec | internal/types/types.go:144-157 | The seen-set pass keeps each name once, loses none, and keeps first-occurrence order. |
| Types.PlaceholdersOfSpec | internal/types/types.go:137-160 | Names are distinct, are exactly the scanned names, and appear in first-occurrence order. Each is non-empty, free of `}` and present in the command. Each has the inferred type and an empty default and description. |
| Types.PlaceholdersOfTemplate | internal/types/types.go:137-160 | The placeholders of a template command are its deduplicated slot names. |
| Types.PlaceholdersOfNone | internal/types/types_test.go:147 | "ls -la" has no placeholders. |
| Types.ExtractPlaceholders | internal/types/types.go:137-160 | The loop with the `seen` set returns `PlaceholdersOf(command)`. |
| Parser.StripTicks | internal/types/types.go:72 | Defines the command of a code line: Go removes every leading and trailing backtick, Python one from each end. Stated by `DropLeadingTicks`, `DropTrailingTicks` and `StripSubmittedTicks`. |
| Parser.Step | internal/types/types.go:53-78 | Defines one loop iteration on a trimmed line, its branches in the source's order. Stated by `StepHeading`, `StepBlank` and `StepTicked`. |
| Parser.Fold | internal/types/types.go:52-79 | Defines the loop over all lines as repeated `Step`. Stated by `FoldDescription`, `FoldBlock` and `FoldExamples`. |
| Parser.DropLeadingTicks | internal/types/types.go:72 | Go's `strings.Trim(line, "`")`, leading side: the result is a suffix of the input that does not start with a backtick. |
| Parser.DropTrailingTicks | internal/types/types.go:72 | The trailing side: the result is a prefix of the input that does not end with a backtick. |
| Parser.ParseSpec | internal/types/types.go:40-47 | The page's name and platform come from the index entry, and its raw content is the text parsed. |
| Parser.ParsePage | internal/types/types.go:40-87 | The line loop returns the page given by the fold of one-line steps. No error is ever returned. |
| Parser.FoldDescription | internal/types/types.go:58-60 | Over any lines, the description is the text after the last `> ` line, else the one before. |
| Parser.ParseDescription | internal/types/types.go:42-60 | The page description is the text after the last `> ` line, or the entry's description when there is none. |
| Parser.FoldBlock | internal/types/types.go:70-78 | Within an example's block, lines change only the open example's command, and only while no blank line has occurred. |
| Parser.ItemBlock | internal/types/types.go:61-69 | A `- ` line and its block add exactly one example. Its description is the line without `- `, the colon kept. |
| Parser.FoldExamples | internal/types/types.go:61-84 | Folding lines that start at an item appends exactly the examples of the item blocks. |
| Parser.ParseExamples | internal/types/types.go:61-84 | The page's examples are those of its item blocks, in document order. |
| Parser.ExamplesOfCount | internal/types/types.go:61-69 | The number of examples equals the number of trimmed lines starting with `- `. |
| Parser.ExamplesOfConsistent | internal/types/types.go:73-74 | Every parsed example's placeholders are those extracted from its command. |
| Parser.GoCommandsUnticked | internal/types/types.go:70-74 | In the Go twin, no parsed command starts or ends with a backtick. |
| Parser.StepHeading | internal/types/types.go:55-57 | A `#` title line changes nothing. |
| Parser.StepBlank | internal/types/types.go:75-78 | A blank line closes the example's block and changes nothing else. |
| Parser.StepTicked | internal/types/types.go:70-74 | A backticked line inside a block sets the command to the stripped text and re-extracts the placeholders. |
| Plugin.ExampleIssues | internal/plugin/plugin.go:108-137 | Defines the issue list: the four example checks, then the per-placeholder checks. Stated by `ValidateExample` and `ValidationPasses`. |
| Plugin.Verdict | internal/plugin/plugin.go:139-149 | Defines the verdict: success for no issue, else failure with the count. Stated by `ValidateExample`. |
| Plugin.Execute | internal/plugin/plugin.go:15-19 | Defines a plugin's `Execute`: the submit plugin's dispatch, or an external plugin's result. Stated by `SubmitDispatch`. |
| Plugin.GenerateMarkdown | internal/plugin/plugin.go:194-208 | Defines the generated page text per twin. Stated by `MarkdownTextGo`, `MarkdownTwins` and `MarkdownRoundTrip`. |
| Plugin.Classify | internal/plugin/plugin.go:268-295 | Defines the decision on one interactive line. Stated by `ClassifyDispatch` and `ClassifyTrimmed`. |
| Plugin.StripSubmittedTicks | tldrpp/cache.py:304 | One backtick on each side is removed. The Python twin removes exactly one whatever the command; the Go twin does so for a command that neither starts nor ends with a backtick. |
| Render.Fill | internal/types/types.go:116-134 | Defines `Render`: each placeholder's `{{name}}` replaced by its value, in list order. Stated by `FillTemplate` and `RenderTemplate`. |
| Render.BestExample | internal/types/types.go:90-113 | Defines `FindBestExample`: the first matching example, else the first, none for no examples. Stated by `BestExampleSpec`. |
| Render.ValueFor | internal/types/types.go:121-127 | The value is never empty for a named placeholder. A non-empty supplied value is used as is. |
| Render.ValueForUnbound | tldrpp/cache.py:58-60 | Without a supplied value, both twins use the default when it is non-empty, else the name. |
| Render.ValueForTwins | tldrpp/cache.py:58-60 | The twins differ exactly when an empty value is supplied and the default is non-empty and differs from the name. Go then uses the default and Python the name. |
| Render.RenderExample | internal/types/types.go:116-134 | The loop over placeholders returns `Fill`, the replacement applied placeholder by placeholder in list order. |
| Render.FillNoBraces | internal/types/types.go:116-134 | A command without `{` comes back unchanged, whatever the placeholders. |
| Render.ReplaceTemplate | internal/types/types.go:129-130 | Replacing `{{n}}` in a clean template replaces exactly the slots named n. |
| Render.FillTemplate | internal/types/types.go:116-134 | For any placeholders with brace-free names and defaults, filling a clean template replaces each slot that a placeholder names by that placeholder's value (variable, default or name, per twin), the first placeholder of a name winning. The literal text and the other slots stay. |
| Render.SlotFillFirst | internal/types/types.go:119-131 | A slot takes the value of the first placeholder with its name. |
| Render.FillDefault | internal/types/types_test.go:114-128 | A command ending in one slot, rendered with no variables, ends in the placeholder's non-empty default, as `tar -xf {{file}}` with default `archive.tar.gz` does. |
| Render.RenderTemplate | internal/types/types.go:116-134 | Rendering a clean template with its own extracted placeholders replaces every `{{name}}` by its value. |
| Render.RenderLeavesNoBraces | internal/types/types.go:116-134 | With brace-free values, the rendered template contains no `{`. |
| Render.FirstMatch | internal/types/types.go:98-102 | Returns the first example whose lower-cased description contains the lower-cased query, or None when no example does. |
| Render.FindBestExample | internal/types/types.go:90-113 | The scan with early return computes `BestExample`. |
| Render.BestExampleSpec | internal/types/types.go:90-113 | There is no result exactly when there are no examples. Otherwise the result is the first matching example, else the first example. |
| Render.BestExampleEmptyQuery | internal/types/types.go:95-102 | An empty query picks the first example. |
| App.IsDestructive | internal/app/app.go:175-196 | Defines the classifier: some verb equals the lower-cased command or starts it with a following space. Stated by `DestructiveByFirstWord`. |
| App.Reply | internal/app/app.go:132-134 | Defines the reply read: Go's `Scanln` keeps the first word, Python's `input()` the whole line. Stated by `ReplyTwins`. |
| App.Confirms | internal/app/app.go:134 | Defines a confirming reply: lower-cased, it is `y` or `yes`. Used by `Gate` and `ReplyTwins`. |
| App.ExecuteCommand | internal/app/app.go:114-138 | Defines `execute`: the render flow, then the confirmation gate on the rendered command. Stated by `ExecuteMatchesRender`. |
| App.IsDestructiveCommand | internal/app/app.go:175-196 | Holds exactly when the lower-cased command equals a listed verb or starts with a verb followed by a space. |
| App.ScanVerbs | internal/app/app.go:190-195 | The early-return loop decides whether any verb starts the text. |
| App.VerbsArePlain | internal/app/app.go:176-187 | Every one of the 32 verbs is a non-empty lower-case word without spaces. |
| App.DestructiveByFirstWord | internal/app/app.go:189-194 | A command is destructive exactly when its lower-cased first space-separated word is a verb. |
| App.DestructiveIgnoresCase | internal/app/app.go:189 | Case is ignored. |
| App.LeadingSpaceNotDestructive | internal/app/app.go:189-194 | Nothing is trimmed: a command starting with a space is never destructive. |
| App.VerbIsDestructive | internal/app/app.go:176-194 | Every verb alone, or followed by a space and arguments, is destructive. |
| App.SafeByFirstWord | internal/app/app.go:189-194 | A lower-case first word that is not a verb, followed by nothing or by a space, makes the command safe. |
| App.CaseSample | internal/app/app.go:189 | "RM x" is destructive. |
| App.SudoSample | internal/app/app.go:191 | "sudo rm -rf /" is not destructive: the verb must come first. |
| App.RemovalSample | tests/test_app.py:135 | "rm file.txt" is destructive. |
| App.Gate | internal/app/app.go:129-138 | The outcome carries the rendered command. It is cancelled exactly when the command is destructive, confirmation is on, and the lower-cased reply is neither "y" nor "yes". |
| App.GateAsksOnlyWhenDestructive | tldrpp/app.py:57 | Unless the command is destructive and confirmation is on, the reply does not matter and the command runs. |
| App.ReplyTwins | internal/app/app.go:132-134 | Go reads the first word of the reply line, so " y" confirms. Python compares the whole line, so " y" does not. |
| App.RenderCommand | internal/app/app.go:83-95 | A lookup failure gives "command not found". A page without examples gives "no suitable example". Otherwise the result is `Ok`: the first example whose description contains the command, ignoring case, filled with the variables; when no description does, the first example filled. |
| App.ExecuteMatchesRender | internal/app/app.go:114-138 | `execute` fails exactly as `render` does. Otherwise it runs or cancels the rendered command, as the gate decides. |
| Sorting.SortPermutes | tldrpp/cache.py:187 | Sorting only reorders: the result is a permutation of the input. |
| Sorting.SortSorted | tldrpp/cache.py:187 | The result is in ascending key order. |
| Sorting.SortStable | tldrpp/cache.py:187 | Elements with equal keys keep their input order. |
| Store.Score | tldrpp/cache.py:362-386 | Defines the relevance score: the name tier, 10 for a description hit, 15 per example hit. Stated by `NameTierSpec` and `ScoreBounds`. |
| Store.Candidates | tldrpp/cache.py:171-184 | Defines the scan's result: the loaded pages of the selected entries, in catalog order. Stated by `CandidatesSpec`. |
| Store.SearchSpec | tldrpp/cache.py:165-188 | Defines `search_pages` as written: the candidates stably sorted by ascending score. Stated by `SearchResults`. |
| Store.LoadPage | tldrpp/cache.py:264-271 | An unreadable page is an error. A readable one is parsed with the entry's name and platform, its raw content being the file text. |
| Store.FindPage | tldrpp/cache.py:139-163 | The first entry named exactly the command, case-sensitively, wins. Otherwise, no partial match is "command not found". Otherwise the result is the page of the minimum partial match under (not a prefix, lower-cased name). |
| Store.MatchesSpec | tldrpp/cache.py:149-152 | The partial matches are exactly the entries whose lower-cased name contains the lower-cased command. |
| Store.FindPageChoice | tldrpp/cache.py:157-163 | The chosen entry matches partially. A prefix match is preferred when one exists, and among equally preferred entries no name is smaller. |
| Store.FirstMinUnique | tldrpp/cache.py:158-163 | At most one entry has no smaller key and a strictly larger key in every entry before it. This is the entry a stable sort puts first, so the choice is determined, ties going to the earlier entry. |
| Store.CalculateScore | tldrpp/cache.py:362-386 | The accumulating loop computes `Score`. |
| Store.NameTierSpec | tldrpp/cache.py:369-375 | The name tiers are exclusive: 100 exactly for equality, at least 50 exactly for a prefix, above 0 exactly for a substring. |
| Store.ScoreBounds | tldrpp/cache.py:362-386 | The score lies between 0 and 110 + 15 times the number of examples. |
| Store.CollectCandidates | tldrpp/cache.py:171-184 | The loop collects the pages of the selected, readable entries in catalog order. |
| Store.CandidatesSpec | tldrpp/cache.py:171-184 | A page is a candidate exactly when some entry passes the platform filter, matches the query in name or description, and loads to it. An empty filter lets every platform through. |
| Store.SearchPages | tldrpp/cache.py:165-188 | `search_pages` as written returns the candidates stably sorted by ascending score. |
| Store.SearchResults | tldrpp/cache.py:187 | The results are a permutation of the candidates, in ascending score, with ties in catalog order. |
| Store.SearchResultsSelected | tldrpp/cache.py:171-188 | Every result comes from an entry that passes the filter and matches the query. |
| Store.TarCatalog | tldrpp/cache.py:369-373 | In the catalog [tar, tarsnap], the query "tar" scores 100 for tar and 50 for tarsnap. |
| Store.AscendingRanksExactLast | tldrpp/cache.py:187 | As written, the same search lists tarsnap before tar: the exact match comes last. |
| Store.SearchPagesRanked | tldrpp/cache.py:186-188 | The corrected search returns the candidates stably sorted by descending score. |
| Store.RankedResults | tldrpp/cache.py:186-187 | Corrected: a permutation of the candidates, in descending score, ties in catalog order, the first result scoring highest. |
| Store.RankedPutsExactFirst | tldrpp/cache.py:186-187 | Corrected: the search for "tar" lists tar before tarsnap. |
| Plugin.Utf8LengthBounds | internal/plugin/plugin.go:111 | A string's byte length lies between its length in code points and four times that. The two are equal exactly for ASCII. |
| Plugin.CheckExample | internal/plugin/plugin.go:110-127 | The four example checks append their issues in the fixed order. |
| Plugin.ValidateExample | internal/plugin/plugin.go:105-150 | The issue list is the example-level checks and then the per-placeholder checks, in order. The verdict is success exactly when the list is empty, else a failure carrying the count. |
| Plugin.PlaceholderIssuesNone | internal/plugin/plugin.go:130-137 | Placeholders give no issue exactly when every name is non-empty and at most 20 long. |
| Plugin.ValidationPasses | internal/plugin/plugin.go:139-149 | Validation passes exactly when the example meets every rule. |
| Plugin.NameIssuesAtMostOne | tldrpp/plugin.py:118-122 | An empty name and a too-long name exclude each other, so each placeholder gives at most one issue. |
| Plugin.PlaceholderIssuesBound | internal/plugin/plugin.go:130-137 | There are at most as many placeholder issues as placeholders. |
| Plugin.IssueCountBound | internal/plugin/plugin.go:108-137 | There are at most 4 + (number of placeholders) issues. |
| Plugin.ValidationTwinsAgreeOnAscii | tldrpp/plugin.py:103-122 | On ASCII text, the byte-counting and code-point-counting twins report the same issues. |
| Plugin.ValidationGoStricter | tldrpp/plugin.py:103-122 | An example the Go twin accepts, the Python twin accepts too. |
| Plugin.SubmitExecute | internal/plugin/plugin.go:46-61 | No arguments is an error. `init`, `validate` and `create-pr` go to their handlers. Any other first argument is an "unknown command" error. |
| Plugin.SubmitDispatch | tldrpp/plugin.py:48-62 | Only the three sub-commands can succeed. `validate` succeeds exactly when the example is acceptable. |
| Plugin.MarkdownTextGo | internal/plugin/plugin.go:194-208 | The Go text is exactly ``# N\n\n> D.\n\n- E:\n  `C`\n``. |
| Plugin.MarkdownTextPython | tldrpp/plugin.py:174-188 | The Python text is the four parts joined by newlines: the same text with no final newline. |
| Plugin.MarkdownTwins | tldrpp/plugin.py:188 | The Go text is the Python text plus one newline. |
| Plugin.MarkdownRoundTrip | internal/plugin/plugin.go:194-208 | With single-line fields, parsing the generated page gives description D + "." and exactly one example: description E + ":", command C, and C's placeholders. For Go, C must neither start nor end with a backtick. |
| Plugin.PluginManager.constructor | internal/plugin/plugin.go:228-232 | The registry starts empty. |
| Plugin.PluginManager.RegisterPlugin | internal/plugin/plugin.go:235-237 | The plugin is stored under its name, replacing any earlier one. The listing order gains the name only when it is new. |
| Plugin.PluginManager.ExecutePlugin | internal/plugin/plugin.go:240-247 | An unregistered name is "plugin not found". Otherwise the result is that plugin's `Execute`. |
| Plugin.PluginManager.ListPlugins | tldrpp/plugin.py:225-227 | One plugin per registered name, in first-registration order. |
| Plugin.ListedOnce | internal/plugin/plugin.go:250-256 | Each registered name is listed exactly once. |
| Plugin.ClassifyDispatch | internal/plugin/plugin.go:287-295 | A dispatched line names a plugin word and at least one argument word, and these are exactly the fields of the trimmed line. |
| Plugin.ClassifyTrimmed | internal/plugin/plugin.go:268 | Surrounding white space does not change the decision. |
| Tui.Transition | internal/tui/tui.go:116-142 | Defines the state change of `?`, enter, esc and tab. Stated by `EscGoesUp`, `DownThenEsc` and `HelpToggles`. |
| Tui.QuitsOn | internal/tui/tui.go:114-162 | Defines the keys that return `bubbletea.Quit` on each screen. Stated by `QuitKeys`. |
| Tui.Toggled | internal/tui/tui.go:489-503 | Defines `togglePlatform`'s list: the platform removed if present, else appended. Stated by `ToggledSpec` and `ToggleTwice`. |
| Tui.ToggledAll | internal/tui/tui.go:462-468 | Defines `toggleAllPlatforms`' list. Stated by `ToggleAllSpec`. |
| Tui.Reload | internal/tui/tui.go:190-198 | Defines `loadPages` on the screen. Stated by `ReloadFailureKeeps`. |
| Tui.KeyPress | internal/tui/tui.go:112-182 | Defines the screen after one key. Stated by `KeyPressKeepsSelection`, `OtherKeysKeepScreen` and `KeysActOnOwnScreen`. |
| Tui.KeyOf | internal/tui/tui.go:113-178 | Names the key cases of the handler. A digit key is one of the six platform digits. |
| Tui.App.constructor | internal/tui/tui.go:50-60 | The UI starts in Search, with an empty query, no pages, index 0 and the configured platforms. |
| Tui.App.LoadPages | internal/tui/tui.go:190-198 | A successful search replaces the pages and resets the index to 0. A failed one changes nothing and reports the error. |
| Tui.App.Run | internal/tui/tui.go:63-69 | Sets the query, then loads the pages. |
| Tui.App.ToggleAllPlatforms | internal/tui/tui.go:462-470 | Sets the platforms by `ToggledAll`, then reloads. |
| Tui.App.TogglePlatform | internal/tui/tui.go:473-505 | An unmapped key changes nothing. Otherwise the loop computes `Toggled` and the pages are reloaded. |
| Tui.App.HandleKeyPress | internal/tui/tui.go:112-182 | The new screen is `KeyPress` of the old one. The handler quits exactly on `QuitsOn`. |
| Tui.KeyPressKeepsSelection | internal/tui/tui.go:171-178 | Every key keeps 0 <= selectedIdx <= max(0, number of pages - 1). |
| Tui.DownThenUp | internal/tui/tui.go:171-178 | Below the last page, down then up returns to the same screen. |
| Tui.EscGoesUp | internal/tui/tui.go:128-138 | Esc is a no-op in Search and goes one level up elsewhere. |
| Tui.DownThenEsc | internal/tui/tui.go:122-142 | Enter (in Search or Pages) and Tab (in Examples) go one level down, and Esc undoes them. |
| Tui.HelpToggles | internal/tui/tui.go:116-121 | `?` opens Help from any other state and returns from Help to Search. |
| Tui.OtherKeysKeepScreen | internal/tui/tui.go:113-179 | Only `?`, enter, esc and tab change the state. |
| Tui.KeysActOnOwnScreen | internal/tui/tui.go:139-170 | Tab acts only in Examples, `r` only in Search, `a` and the digits only in Pages. Keys that quit leave the screen alone. |
| Tui.QuitKeys | internal/tui/tui.go:114-162 | `q` and ctrl+c quit everywhere. `y` quits exactly in Examples and Edit. `r` and esc never quit. |
| Tui.VimKeys | internal/tui/tui.go:171-178 | `k` is up and `j` is down. |
| Tui.DigitKeys | internal/tui/tui.go:474-481 | "1" is common and "6" is android. |
| Tui.ReloadFailureKeeps | internal/tui/tui.go:190-194 | A failed search leaves the screen unchanged. |
| Tui.WithoutSpec | internal/tui/tui.go:489-497 | Removing a platform drops every occurrence and keeps every other entry. |
| Tui.ToggledSpec | internal/tui/tui.go:489-503 | After a toggle the platform is present exactly when it was absent, and the other entries are as before. |
| Tui.ToggleTwice | internal/tui/tui.go:489-503 | Toggling an absent platform twice restores the list. |
| Tui.ToggleAllSpec | internal/tui/tui.go:462-468 | The result depends only on the list's length and is ["common"] or all six. Applying it again always changes it, with period two. |
| Cli.PairOf | tldrpp/cli.py:75-76 | Defines a piece's pair: split at the first `=`, both sides stripped. Stated by `PairOfText`. |
| Cli.VarsOf | tldrpp/cli.py:73-76 | Defines the map after the pieces in order. Stated by `VarsOfKeys`, `VarsOfLastWins` and `VarsOfSkips`. |
| Cli.Variables | tldrpp/cli.py:71-76 | Defines the option's map, empty for an absent or empty option. Stated by `VariablesClean` and `VariablesRoundTrip`. |
| Cli.ParseVars | tldrpp/cli.py:71-76 | The loop over comma-separated pieces returns `Variables(vars)`. An absent or empty option gives the empty map. |
| Cli.VariablesClean | tldrpp/cli.py:73-76 | Keys and values are stripped and contain no comma. Keys contain no `=`. |
| Cli.VarsOfKeys | tldrpp/cli.py:73-76 | A key is set exactly when some piece with `=` has it before its first `=`. |
| Cli.VarsOfLastWins | tldrpp/cli.py:76 | A key's value comes from the last piece naming it. |
| Cli.VarsOfSkips | tldrpp/cli.py:74 | Pieces without `=` are ignored. |
| Cli.PairOfText | tldrpp/cli.py:75-76 | A piece splits at its first `=`, so the value may itself contain `=`. |
| Cli.VariablesRoundTrip | tldrpp/cli.py:71-76 | Writing clean pairs as `k=v` joined by commas and parsing the result gives the map of the pairs, later pairs overriding earlier ones. |

## Left out

- Network and file I/O are left out. This covers downloading, saving and loading the index and the page files, and the "initialized" file check (tldrpp/cache.py:110-271). The catalog is a sequence, and reading a page is the parameter `read`.
- The Go cache package is not part of this model. The UI's page search is the parameter `search` of `Tui.App`.
- Shell execution, audit logging and the `git`/`gh` calls are left out, because they are foreign calls with side effects. The same goes for the temporary files of `init` and `create-pr`. Their results are the `Effects` parameter.
- Configuration loading (viper/yaml, home directories) is left out. Its only inputs to the model are the confirmation flag and the platform list, both passed in.
- Command-line wiring (cobra, click) is left out, apart from the `--vars` parser.
- All drawing is left out: `View`, the `render*` functions, themes, bubbletea's `Update` loop and window resizing, and the whole Python textual UI (tldrpp/tui.py).
- In the UI, executing, copying, pasting and opening the pager are modelled only as quitting, which is what the source does. Refreshing the cache is modelled as reloading the pages.
- `InteractiveMode`: only the decision for one line is modelled (`Plugin.Classify`). Reading stdin, printing the help and the plugin list, and reporting errors are I/O.
- Render: replacement is literal. Go's `ReplaceAllString` expands `$` in a value and Python's `re.sub` processes backslashes; neither is modelled.
- Lower-casing, `TrimSpace`/`strip()` and `Fields`/`split()` are modelled on ASCII letters and ASCII white space only. Unicode case folding and Unicode spaces are not modelled.
- The Python parser and extractor would raise on real input. `Example(description=...)` omits the required `command`, and `Placeholder(type=...)` passes a keyword the constructor does not have. The model runs their evident algorithm, with the command starting empty. As written, `search_pages` loads each page inside `try` and its `except Exception` (tldrpp/cache.py:182) catches that TypeError, so it silently skips every page that has a `- ` line, and `find_page` raises on such a page.
- Go's `FindBestExample` runs the same loop twice. It is modelled once, since the second loop can never find anything the first did not.
- Store.FindPage: the sort followed by taking the first element is modelled as a scan for the first entry with the smallest key, which is what a stable sort puts first. The sort itself is not modelled for this call.
- Plugin.PluginManager.ListPlugins: the Go map's listing order is unspecified. The model uses Python's first-registration order, which is one of the orders Go may produce.
- Tests that expect descriptions without the trailing `.` or `:`, or placeholders extracted by the `Example` constructor, disagree with the code and are not stated as properties.
- The test suite's other sample commands are not stated one by one. Among them are "rmx", "ls -la", "dd if=/dev/zero of=file", "chmod 777 file", "cat file.txt", "echo hello" and "pwd". They are instances of `App.VerbIsDestructive` and `App.SafeByFirstWord`.

## Findings

| source | as written | input that shows it | evidently intended | confidence | as-written member | corrected member |
|---|---|---|---|---|---|---|
| tldrpp/cache.py:187 | `results.sort(key=score)` sorts search results by ascending relevance, so the best match comes last | catalog [tar, tarsnap], query "tar", no platform filter: the scores are 100 and 50 and the result is [tarsnap, tar] | most relevant first (`reverse=True`), ties in catalog order | not executed | Store.AscendingRanksExactLast | Store.RankedPutsExactFirst |
