/**
  The navigation state machine of the terminal interface
  (internal/tui/tui.go): five screens, key-driven transitions, a selection
  index kept within the page list, and the platform filter. Drawing the
  screens is outside the model, and so is the cache manager: its page search
  is the parameter `search` of the application.
 */
module Tui {
  import opened Base
  import opened Types

  datatype AppState = StateSearch | StatePages | StateExamples | StateEdit | StateHelp

  /** The fields of the application that the key handler reads and writes. */
  datatype Screen = Screen(state: AppState, searchQuery: string, pages: seq<Page>, selectedIdx: int, platforms: seq<string>)

  /** The cache manager's page search. */
  type Search = (string, seq<string>) -> Result<seq<Page>, string>

  // ---------------------------------------------------------------------------
  // The transition function
  // ---------------------------------------------------------------------------

  /** The keys the handler tells apart, in the order of its cases. */
  datatype Key =
    | QuitKey            // `ctrl+c`, `q`
    | HelpKey            // `?`
    | EnterKey           // `enter`
    | EscKey             // `esc`
    | TabKey             // `tab`
    | ActionKey          // `ctrl+enter`, `y`, `p`: execute, copy, paste
    | RefreshKey         // `r`
    | PagerKey           // `o`
    | AllKey             // `a`
    | NumberKey(digit: string)  // `1` to `6`
    | UpKey              // `up`, `k`
    | DownKey            // `down`, `j`
    | OtherKey

  function KeyOf(key: string): (k: Key)
    ensures k.NumberKey? ==> k.digit == key && PlatformKey(key).Some?
  {
    if key == "ctrl+c" || key == "q" then QuitKey
    else if key == "?" then HelpKey
    else if key == "enter" then EnterKey
    else if key == "esc" then EscKey
    else if key == "tab" then TabKey
    else if key == "ctrl+enter" || key == "y" || key == "p" then ActionKey
    else if key == "r" then RefreshKey
    else if key == "o" then PagerKey
    else if key == "a" then AllKey
    else if PlatformKey(key).Some? then NumberKey(key)
    else if key == "up" || key == "k" then UpKey
    else if key == "down" || key == "j" then DownKey
    else OtherKey
  }

  /** The screen a key leads to. */
  function Transition(s: AppState, k: Key): AppState
  {
    match k
    case HelpKey => if s == StateHelp then StateSearch else StateHelp
    case EnterKey => if s == StateSearch then StatePages else if s == StatePages then StateExamples else s
    case EscKey =>
      (match s
       case StatePages => StateSearch
       case StateExamples => StatePages
       case StateEdit => StateExamples
       case StateHelp => StateSearch
       case StateSearch => StateSearch)
    case TabKey => if s == StateExamples then StateEdit else s
    case _ => s
  }

  /**
    The keys that end the program: `q` and `ctrl+c` everywhere, and the
    execute, copy, paste and pager actions, which end it where they apply.
   */
  predicate QuitsOn(s: AppState, k: Key)
  {
    k == QuitKey
    || (k == ActionKey && (s == StateExamples || s == StateEdit))
    || (k == PagerKey && s == StateExamples)
  }

  /** The platform a number key toggles. */
  function PlatformKey(key: string): Option<string>
  {
    if key == "1" then Some("common")
    else if key == "2" then Some("linux")
    else if key == "3" then Some("osx")
    else if key == "4" then Some("sunos")
    else if key == "5" then Some("windows")
    else if key == "6" then Some("android")
    else None
  }

  const AllPlatforms: seq<string> := ["common", "linux", "osx", "sunos", "windows", "android"]

  /** `s` without any occurrence of `p`, the rest in order. */
  function Without(s: seq<string>, p: string): seq<string>
    decreases |s|
  {
    if s == [] then []
    else
      var n := |s| - 1;
      Without(s[..n], p) + (if s[n] == p then [] else [s[n]])
  }

  /** `togglePlatform`: drop the platform if present, otherwise add it at the end. */
  function Toggled(platforms: seq<string>, p: string): seq<string>
  {
    Without(platforms, p) + (if p in platforms then [] else [p])
  }

  /** `toggleAllPlatforms`: six platforms become `common`, anything else all six. */
  function ToggledAll(platforms: seq<string>): seq<string>
  {
    if |platforms| == |AllPlatforms| then ["common"] else AllPlatforms
  }

  /** `loadPages`: a successful search replaces the pages and resets the selection. */
  function Reload(sc: Screen, search: Search): Screen
  {
    match search(sc.searchQuery, sc.platforms)
    case Ok(pages) => sc.(pages := pages, selectedIdx := 0)
    case Err(_) => sc
  }

  /** What one key press does to the screen. */
  function KeyPress(sc: Screen, k: Key, search: Search): Screen
  {
    var s := sc.state;
    match k
    case RefreshKey => if s == StateSearch then Reload(sc, search) else sc
    case AllKey => if s == StatePages then Reload(sc.(platforms := ToggledAll(sc.platforms)), search) else sc
    case NumberKey(digit) =>
      if s == StatePages && PlatformKey(digit).Some? then
        Reload(sc.(platforms := Toggled(sc.platforms, PlatformKey(digit).value)), search)
      else sc
    case UpKey => sc.(selectedIdx := if sc.selectedIdx > 0 then sc.selectedIdx - 1 else sc.selectedIdx)
    case DownKey => sc.(selectedIdx := if sc.selectedIdx < |sc.pages| - 1 then sc.selectedIdx + 1 else sc.selectedIdx)
    case _ => sc.(state := Transition(s, k))
  }

  // ---------------------------------------------------------------------------
  // The application object
  // ---------------------------------------------------------------------------

  class App {
    var state: AppState
    var searchQuery: string
    var pages: seq<Page>
    var selectedIdx: int
    var platforms: seq<string>
    const search: Search

    function Snap(): Screen
      reads this
    {
      Screen(state, searchQuery, pages, selectedIdx, platforms)
    }

    /** `New`: the search screen, no pages yet, the configured platforms. */
    constructor(configPlatforms: seq<string>, search: Search)
      ensures Snap() == Screen(StateSearch, "", [], 0, configPlatforms) && this.search == search
    {
      state := StateSearch;
      searchQuery := "";
      pages := [];
      selectedIdx := 0;
      platforms := configPlatforms;
      this.search := search;
    }

    /** `loadPages`: the error of the search, if any, with the pages replaced only on success. */
    method LoadPages() returns (err: Option<string>)
      modifies this
      ensures Snap() == Reload(old(Snap()), search)
      ensures err.Some? <==> search(old(searchQuery), old(platforms)).Err?
    {
      var found := search(searchQuery, platforms);
      if found.Err? {
        return Some(found.error);
      }
      pages := found.value;
      selectedIdx := 0;
      return None;
    }

    /** `Run` up to starting the event loop: set the query and load the first pages. */
    method Run(query: string) returns (err: Option<string>)
      modifies this
      ensures Snap() == Reload(old(Snap()).(searchQuery := query), search)
      ensures err.Some? <==> search(query, old(platforms)).Err?
    {
      searchQuery := query;
      err := LoadPages();
    }

    method ToggleAllPlatforms()
      modifies this
      ensures Snap() == Reload(old(Snap()).(platforms := ToggledAll(old(platforms))), search)
    {
      if |platforms| == |AllPlatforms| {
        platforms := ["common"];
      } else {
        platforms := AllPlatforms;
      }
      var _ := LoadPages();
    }

    /** `togglePlatform`: rebuild the list without the platform, noting whether it was there. */
    method TogglePlatform(platformNum: string)
      modifies this
      ensures PlatformKey(platformNum).None? ==> Snap() == old(Snap())
      ensures PlatformKey(platformNum).Some? ==>
        Snap() == Reload(old(Snap()).(platforms := Toggled(old(platforms), PlatformKey(platformNum).value)), search)
    {
      var key := PlatformKey(platformNum);
      if key.None? {
        return;
      }
      var platform := key.value;
      var newPlatforms := [];
      var found := false;
      var i := 0;
      while i < |platforms|
        invariant 0 <= i <= |platforms|
        invariant newPlatforms == Without(platforms[..i], platform)
        invariant found <==> platform in platforms[..i]
      {
        assert platforms[..i + 1][..i] == platforms[..i];
        assert platforms[..i + 1] == platforms[..i] + [platforms[i]];
        if platforms[i] == platform {
          found := true;
        } else {
          newPlatforms := newPlatforms + [platforms[i]];
        }
        i := i + 1;
      }
      assert platforms[..|platforms|] == platforms;
      if !found {
        newPlatforms := newPlatforms + [platform];
      }
      platforms := newPlatforms;
      assert Snap() == old(Snap()).(platforms := Toggled(old(platforms), platform));
      var _ := LoadPages();
    }

    /**
      `handleKeyPress`: the new screen is `KeyPress` of the old one, and the
      result says whether the program ends.
     */
    method HandleKeyPress(key: string) returns (quit: bool)
      modifies this
      ensures Snap() == KeyPress(old(Snap()), KeyOf(key), search)
      ensures quit == QuitsOn(old(state), KeyOf(key))
    {
      quit := false;
      match KeyOf(key)
      case QuitKey =>
        return true;
      case HelpKey =>
        if state == StateHelp {
          state := StateSearch;
        } else {
          state := StateHelp;
        }
      case EnterKey =>
        if state == StateSearch {
          state := StatePages;
        } else if state == StatePages {
          state := StateExamples;
        }
      case EscKey =>
        match state {
          case StatePages => state := StateSearch;
          case StateExamples => state := StatePages;
          case StateEdit => state := StateExamples;
          case StateHelp => state := StateSearch;
          case StateSearch =>
        }
      case TabKey =>
        if state == StateExamples {
          state := StateEdit;
        }
      case ActionKey =>
        if state == StateExamples || state == StateEdit {
          return true;
        }
      case RefreshKey =>
        if state == StateSearch {
          var _ := LoadPages();
        }
      case PagerKey =>
        if state == StateExamples {
          return true;
        }
      case AllKey =>
        if state == StatePages {
          ToggleAllPlatforms();
        }
      case NumberKey(digit) =>
        if state == StatePages {
          TogglePlatform(digit);
        }
      case UpKey =>
        if selectedIdx > 0 {
          selectedIdx := selectedIdx - 1;
        }
      case DownKey =>
        if selectedIdx < |pages| - 1 {
          selectedIdx := selectedIdx + 1;
        }
      case OtherKey =>
    }
  }

  // ---------------------------------------------------------------------------
  // Properties
  // ---------------------------------------------------------------------------

  /** The selection lies in 0 .. max(0, |pages| - 1). */
  predicate SelectionInRange(sc: Screen)
  {
    0 <= sc.selectedIdx && (sc.selectedIdx == 0 || sc.selectedIdx < |sc.pages|)
  }

  /** Every key keeps the selection in range. */
  lemma KeyPressKeepsSelection(sc: Screen, k: Key, search: Search)
    requires SelectionInRange(sc)
    ensures SelectionInRange(KeyPress(sc, k, search))
  {
  }

  /** Moving down and back up returns to the same entry when there is one below. */
  lemma DownThenUp(sc: Screen, search: Search)
    requires SelectionInRange(sc) && sc.selectedIdx < |sc.pages| - 1
    ensures KeyPress(KeyPress(sc, DownKey, search), UpKey, search) == sc
  {
  }

  /**
    Screens form a tree rooted at the search screen: pages and help one
    level down, examples two, the editor three.
   */
  function Depth(s: AppState): nat
  {
    match s
    case StateSearch => 0
    case StatePages => 1
    case StateHelp => 1
    case StateExamples => 2
    case StateEdit => 3
  }

  /** `esc` goes one level up and does nothing on the search screen. */
  lemma EscGoesUp(s: AppState)
    ensures s == StateSearch ==> Transition(s, EscKey) == s
    ensures s != StateSearch ==> Depth(Transition(s, EscKey)) == Depth(s) - 1
  {
  }

  /** `enter` and `tab` go one level down where they apply, and `esc` undoes them. */
  lemma DownThenEsc(s: AppState, k: Key)
    requires (k == EnterKey && (s == StateSearch || s == StatePages)) || (k == TabKey && s == StateExamples)
    ensures Depth(Transition(s, k)) == Depth(s) + 1
    ensures Transition(Transition(s, k), EscKey) == s
  {
  }

  /** `?` opens help from every screen and closes it back to the search screen. */
  lemma HelpToggles(s: AppState)
    ensures Transition(s, HelpKey) == StateHelp <==> s != StateHelp
    ensures Transition(Transition(s, HelpKey), HelpKey) == (if s == StateHelp then StateHelp else StateSearch)
  {
  }

  /** Keys other than `?`, `enter`, `esc` and `tab` never change the screen. */
  lemma OtherKeysKeepScreen(sc: Screen, k: Key, search: Search)
    requires k != HelpKey && k != EnterKey && k != EscKey && k != TabKey
    ensures KeyPress(sc, k, search).state == sc.state
  {
  }

  /** The screen-specific keys act only on their own screen. */
  lemma KeysActOnOwnScreen(sc: Screen, k: Key, search: Search)
    ensures k == TabKey && sc.state != StateExamples ==> KeyPress(sc, k, search) == sc
    ensures k == RefreshKey && sc.state != StateSearch ==> KeyPress(sc, k, search) == sc
    ensures (k == AllKey || k.NumberKey?) && sc.state != StatePages ==> KeyPress(sc, k, search) == sc
    ensures QuitsOn(sc.state, k) ==> KeyPress(sc, k, search) == sc
  {
  }

  /** `q` and `ctrl+c` end the program on every screen; `y` only where there is an example. */
  lemma QuitKeys(s: AppState)
    ensures QuitsOn(s, KeyOf("q")) && QuitsOn(s, KeyOf("ctrl+c"))
    ensures QuitsOn(s, KeyOf("y")) <==> s == StateExamples || s == StateEdit
    ensures !QuitsOn(s, KeyOf("r")) && !QuitsOn(s, KeyOf("esc"))
  {
  }

  /** Vim-style `k` and `j` are the arrow keys. */
  lemma VimKeys()
    ensures KeyOf("k") == KeyOf("up") == UpKey
    ensures KeyOf("j") == KeyOf("down") == DownKey
  {
  }

  /** The digits one to six select platforms, `common` first and `android` last. */
  lemma DigitKeys()
    ensures KeyOf("1") == NumberKey("1") && PlatformKey("1") == Some("common")
    ensures KeyOf("6") == NumberKey("6") && PlatformKey("6") == Some("android")
  {
  }

  /** A failed search leaves the pages and the selection alone. */
  lemma ReloadFailureKeeps(sc: Screen, search: Search)
    requires search(sc.searchQuery, sc.platforms).Err?
    ensures Reload(sc, search) == sc
  {
  }

  lemma {:induction false} WithoutSpec(s: seq<string>, p: string)
    ensures p !in Without(s, p)
    ensures forall q :: q != p ==> (q in Without(s, p) <==> q in s)
    ensures |Without(s, p)| <= |s|
    decreases |s|
  {
    if s != [] {
      var n := |s| - 1;
      WithoutSpec(s[..n], p);
      assert s == s[..n] + [s[n]];
    }
  }

  lemma {:induction false} WithoutAbsent(s: seq<string>, p: string)
    requires p !in s
    ensures Without(s, p) == s
    decreases |s|
  {
    if s != [] {
      var n := |s| - 1;
      assert s == s[..n] + [s[n]];
      WithoutAbsent(s[..n], p);
    }
  }

  lemma {:induction false} WithoutAppend(a: seq<string>, b: seq<string>, p: string)
    ensures Without(a + b, p) == Without(a, p) + Without(b, p)
    decreases |b|
  {
    if b == [] {
      assert a + b == a;
    } else {
      var n := |b| - 1;
      assert (a + b)[..|a| + n] == a + b[..n];
      WithoutAppend(a, b[..n], p);
    }
  }

  lemma WithoutIdempotent(s: seq<string>, p: string)
    ensures Without(Without(s, p), p) == Without(s, p)
  {
    WithoutSpec(s, p);
    WithoutAbsent(Without(s, p), p);
  }

  /**
    Toggling flips whether the platform is in the filter and leaves the other
    platforms as they were, in the same order.
   */
  lemma ToggledSpec(platforms: seq<string>, p: string)
    ensures p in Toggled(platforms, p) <==> p !in platforms
    ensures Without(Toggled(platforms, p), p) == Without(platforms, p)
  {
    WithoutSpec(platforms, p);
    WithoutAppend(Without(platforms, p), if p in platforms then [] else [p], p);
    WithoutIdempotent(platforms, p);
  }

  /** Toggling an absent platform twice restores the filter. */
  lemma ToggleTwice(platforms: seq<string>, p: string)
    requires p !in platforms
    ensures Toggled(Toggled(platforms, p), p) == platforms
  {
    WithoutAbsent(platforms, p);
    var t := platforms + [p];
    WithoutAppend(platforms, [p], p);
    assert Without([p], p) == [];
    assert p in t;
  }

  /**
    `toggleAllPlatforms` looks only at the length of the filter: it yields
    `common` alone or all six, and from then on alternates between the two.
   */
  lemma ToggleAllSpec(platforms: seq<string>, other: seq<string>)
    requires |platforms| == |other|
    ensures ToggledAll(platforms) == ToggledAll(other)
    ensures ToggledAll(platforms) == ["common"] || ToggledAll(platforms) == AllPlatforms
    ensures ToggledAll(ToggledAll(platforms)) != ToggledAll(platforms)
    ensures ToggledAll(ToggledAll(ToggledAll(platforms))) == ToggledAll(platforms)
  {
  }
}
