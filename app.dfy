/**
  The command flows of the application (internal/app/app.go, tldrpp/app.py):
  look the page up, choose an example, render it, and before running a
  destructive command ask for confirmation. Reading the configuration,
  running the shell and writing the audit log are outside the model: the
  page lookup, the confirmation setting and the user's reply are parameters.
 */
module App {
  import opened Base
  import opened Text
  import opened Types
  import opened Render

  // ---------------------------------------------------------------------------
  // Destructive commands
  // ---------------------------------------------------------------------------

  /** The verbs that make a command destructive, in the source's order and groups. */
  const DestructiveVerbs: seq<string> :=
    DeletionVerbs + DiskVerbs + FirewallVerbs + PermissionVerbs + ProcessVerbs
    + PowerVerbs + MoveVerbs + CopyVerbs + ArchiveVerbs + VersionControlVerbs

  const DeletionVerbs: seq<string> := ["rm", "rmdir", "del", "erase"]
  const DiskVerbs: seq<string> := ["dd", "mkfs", "fdisk", "parted"]
  const FirewallVerbs: seq<string> := ["iptables", "ufw", "firewall-cmd"]
  const PermissionVerbs: seq<string> := ["chmod", "chown", "chattr"]
  const ProcessVerbs: seq<string> := ["kill", "killall", "pkill"]
  const PowerVerbs: seq<string> := ["shutdown", "reboot", "halt"]
  const MoveVerbs: seq<string> := ["mv", "move", "rename"]
  const CopyVerbs: seq<string> := ["cp", "copy", "xcopy"]
  const ArchiveVerbs: seq<string> := ["tar", "zip", "unzip"]
  const VersionControlVerbs: seq<string> := ["git", "svn", "hg"]

  /** The lower-cased command is the verb, or starts with the verb and a space. */
  predicate StartsWithVerb(lowered: string, verb: string)
  {
    IsPrefix(verb + " ", lowered) || lowered == verb
  }

  /** Some verb of the list starts the lower-cased command. */
  predicate StartsWithAny(lowered: string, verbs: seq<string>)
  {
    exists v <- verbs :: StartsWithVerb(lowered, v)
  }

  /** Some destructive verb starts the lower-cased command. */
  predicate IsDestructive(command: string)
  {
    StartsWithAny(ToLower(command), DestructiveVerbs)
  }

  /** `isDestructiveCommand` / `_is_destructive_command`. */
  method IsDestructiveCommand(command: string) returns (destructive: bool)
    ensures destructive == IsDestructive(command)
  {
    var lowered := ToLower(command);
    destructive := ScanVerbs(lowered, DestructiveVerbs);
  }

  /** The source's scan over the verb list, stopping at the first verb that matches. */
  method ScanVerbs(lowered: string, verbs: seq<string>) returns (found: bool)
    ensures found == StartsWithAny(lowered, verbs)
  {
    var i := 0;
    while i < |verbs|
      invariant 0 <= i <= |verbs|
      invariant forall j :: 0 <= j < i ==> !StartsWithVerb(lowered, verbs[j])
    {
      var verb := verbs[i];
      if IsPrefix(verb + " ", lowered) || lowered == verb {
        assert StartsWithVerb(lowered, verbs[i]);
        return true;
      }
      i := i + 1;
    }
    return false;
  }

  /** The text before the first space, the whole text when there is none. */
  function FirstWord(s: string): (w: string)
    ensures ' ' !in w && IsPrefix(w, s)
  {
    if ' ' in s then s[..IndexOf(s, ' ')] else s
  }

  lemma StartsWithVerbFirstWord(l: string, v: string)
    requires ' ' !in v
    ensures StartsWithVerb(l, v) <==> FirstWord(l) == v
  {
    if IsPrefix(v + " ", l) {
      assert l[|v|] == ' ';
      assert l[..|v|] == v;
      IndexOfUnique(l, ' ', |v|);
    }
    if FirstWord(l) == v && ' ' in l {
      var i := IndexOf(l, ' ');
      assert l[..i + 1] == v + " ";
    }
  }

  /** A verb is one non-empty lower-case word. */
  predicate Plain(v: string)
  {
    v != [] && ' ' !in v && forall i :: 0 <= i < |v| ==> !('A' <= v[i] <= 'Z')
  }

  predicate AllPlain(verbs: seq<string>)
  {
    forall v <- verbs :: Plain(v)
  }

  /** Every verb is plain, group by group. */
  lemma VerbsArePlain()
    ensures AllPlain(DestructiveVerbs)
  {
    PlainDeletion();
    var v := DeletionVerbs;
    PlainDisk();
    AllPlainAppend(v, DiskVerbs);
    v := v + DiskVerbs;
    PlainFirewall();
    AllPlainAppend(v, FirewallVerbs);
    v := v + FirewallVerbs;
    PlainPermission();
    AllPlainAppend(v, PermissionVerbs);
    v := v + PermissionVerbs;
    PlainProcess();
    AllPlainAppend(v, ProcessVerbs);
    v := v + ProcessVerbs;
    PlainPower();
    AllPlainAppend(v, PowerVerbs);
    v := v + PowerVerbs;
    PlainMove();
    AllPlainAppend(v, MoveVerbs);
    v := v + MoveVerbs;
    PlainCopy();
    AllPlainAppend(v, CopyVerbs);
    v := v + CopyVerbs;
    PlainArchive();
    AllPlainAppend(v, ArchiveVerbs);
    v := v + ArchiveVerbs;
    PlainVersionControl();
    AllPlainAppend(v, VersionControlVerbs);
    v := v + VersionControlVerbs;
  }

  lemma AllPlainAppend(a: seq<string>, b: seq<string>)
    requires AllPlain(a) && AllPlain(b)
    ensures AllPlain(a + b)
  {
  }

  lemma PlainDeletion()
    ensures AllPlain(DeletionVerbs)
  {
  }

  lemma PlainDisk()
    ensures AllPlain(DiskVerbs)
  {
  }

  lemma PlainFirewall()
    ensures AllPlain(FirewallVerbs)
  {
  }

  lemma PlainPermission()
    ensures AllPlain(PermissionVerbs)
  {
  }

  lemma PlainProcess()
    ensures AllPlain(ProcessVerbs)
  {
  }

  lemma PlainPower()
    ensures AllPlain(PowerVerbs)
  {
  }

  lemma PlainMove()
    ensures AllPlain(MoveVerbs)
  {
  }

  lemma PlainCopy()
    ensures AllPlain(CopyVerbs)
  {
  }

  lemma PlainArchive()
    ensures AllPlain(ArchiveVerbs)
  {
  }

  lemma PlainVersionControl()
    ensures AllPlain(VersionControlVerbs)
  {
  }

  /** Against a list of plain words, a command starts with one exactly when its first word is one. */
  lemma FirstWordDecides(l: string, verbs: seq<string>)
    requires AllPlain(verbs)
    ensures StartsWithAny(l, verbs) <==> FirstWord(l) in verbs
  {
    forall v <- verbs ensures StartsWithVerb(l, v) <==> FirstWord(l) == v {
      StartsWithVerbFirstWord(l, v);
    }
  }

  /**
    A command is destructive exactly when its first space-separated word,
    ignoring case, is one of the verbs: `sudo rm` or a command with a leading
    space is not, and neither is one whose verb is followed by a tab.
   */
  lemma DestructiveByFirstWord(command: string)
    ensures IsDestructive(command) <==> FirstWord(ToLower(command)) in DestructiveVerbs
  {
    VerbsArePlain();
    FirstWordDecides(ToLower(command), DestructiveVerbs);
  }

  /** Case does not matter. */
  lemma DestructiveIgnoresCase(command: string)
    ensures IsDestructive(command) == IsDestructive(ToLower(command))
  {
    ToLowerIdempotent(command);
  }

  /** A command that starts with white space is never treated as destructive. */
  lemma LeadingSpaceNotDestructive(command: string)
    requires command != [] && command[0] == ' '
    ensures !IsDestructive(command)
  {
    var l := ToLower(command);
    assert l[0] == ' ';
    assert IndexOf(l, ' ') == 0;
    assert FirstWord(l) == [];
    VerbsArePlain();
    FirstWordDecides(l, DestructiveVerbs);
  }

  /**
    A lower-case first word that is not a verb, followed by nothing or by a
    space and arguments, makes the command safe.
   */
  lemma SafeByFirstWord(c: string, w: string, rest: string)
    requires ' ' !in w && w !in DestructiveVerbs
    requires forall i :: 0 <= i < |w| ==> !('A' <= w[i] <= 'Z')
    requires rest == [] || rest[0] == ' '
    requires c == w + rest
    ensures !IsDestructive(c)
  {
    DestructiveByFirstWord(c);
    ToLowerAppend(w, rest);
    ToLowerNoUpper(w);
    var l := ToLower(c);
    assert l[..|w|] == w;
    if rest != [] {
      assert l[|w|] == ' ';
      IndexOfUnique(l, ' ', |w|);
    } else {
      assert l == w;
    }
  }

  /** Membership in the verb list, group by group. */
  lemma InGroups(w: string)
    requires w in DeletionVerbs || w in DiskVerbs || w in FirewallVerbs || w in PermissionVerbs
      || w in ProcessVerbs || w in PowerVerbs || w in MoveVerbs || w in CopyVerbs
      || w in ArchiveVerbs || w in VersionControlVerbs
    ensures w in DestructiveVerbs
  {
  }

  lemma NotInGroups(w: string)
    requires w !in DeletionVerbs && w !in DiskVerbs && w !in FirewallVerbs && w !in PermissionVerbs
    requires w !in ProcessVerbs && w !in PowerVerbs && w !in MoveVerbs && w !in CopyVerbs
    requires w !in ArchiveVerbs && w !in VersionControlVerbs
    ensures w !in DestructiveVerbs
  {
  }

  /** Upper case does not hide a verb. */
  lemma CaseSample(c: string)
    requires c == "RM x"
    ensures IsDestructive(c)
  {
    InGroups("rm");
    VerbIsDestructive("rm", "x");
    assert "rm" + " " + "x" == "rm x";
    DestructiveIgnoresCase(c);
    assert ToLower(c) == "rm x";
  }

  /** A verb behind `sudo` is not seen. */
  lemma SudoSample(c: string)
    requires c == "sudo rm -rf /"
    ensures !IsDestructive(c)
  {
    NotInGroups("sudo");
    SafeByFirstWord(c, "sudo", " rm -rf /");
  }

  /** Removing a file is. */
  lemma RemovalSample(c: string)
    requires c == "rm file.txt"
    ensures IsDestructive(c)
  {
    InGroups("rm");
    VerbIsDestructive("rm", "file.txt");
    assert "rm" + " " + "file.txt" == c;
  }

  /** Every verb alone, or followed by a space and arguments, is destructive. */
  lemma VerbIsDestructive(v: string, args: string)
    requires v in DestructiveVerbs
    ensures IsDestructive(v) && IsDestructive(v + " " + args)
  {
    VerbsArePlain();
    ToLowerNoUpper(v);
    ToLowerAppend(v + " ", args);
    ToLowerNoUpper(v + " ");
    assert StartsWithVerb(ToLower(v), v);
    assert StartsWithVerb(ToLower(v + " " + args), v);
  }

  lemma ToLowerAppend(a: string, b: string)
    ensures ToLower(a + b) == ToLower(a) + ToLower(b)
  {
  }

  // ---------------------------------------------------------------------------
  // Confirmation
  // ---------------------------------------------------------------------------

  /**
    What the program takes as the reply to its question: Go's `fmt.Scanln`
    reads the first white-space separated word of the line (nothing when the
    line is blank), Python's `input()` the whole line.
   */
  function Reply(twin: Twin, line: string): string
  {
    match twin
    case GoTwin => var ws := Fields(line); if ws == [] then [] else ws[0]
    case PyTwin => line
  }

  /** The reply is `y` or `yes` in any case. */
  predicate Confirms(reply: string)
  {
    ToLower(reply) == "y" || ToLower(reply) == "yes"
  }

  /** What running a found example leads to. */
  datatype Outcome = Cancelled(command: string) | Ran(command: string)

  datatype AppError = CommandNotFound(reason: string) | NoSuitableExample(command: string)

  /**
    The confirmation gate: the question is asked only for a destructive
    command when confirmation is switched on, and then only a confirming
    reply lets the command run.
   */
  function Gate(twin: Twin, rendered: string, confirmDestructive: bool, line: string): (o: Outcome)
    ensures o.command == rendered
    ensures o.Cancelled? <==> IsDestructive(rendered) && confirmDestructive && !Confirms(Reply(twin, line))
  {
    if IsDestructive(rendered) && confirmDestructive then
      if !Confirms(Reply(twin, line)) then Cancelled(rendered) else Ran(rendered)
    else Ran(rendered)
  }

  /** The reply matters only when the question is asked. */
  lemma GateAsksOnlyWhenDestructive(twin: Twin, rendered: string, confirmDestructive: bool, a: string, b: string)
    requires !(IsDestructive(rendered) && confirmDestructive)
    ensures Gate(twin, rendered, confirmDestructive, a) == Gate(twin, rendered, confirmDestructive, b) == Ran(rendered)
  {
  }

  /**
    A confirming word typed after a space confirms for Go, whose reader skips
    the space, but not for Python, which compares the whole line.
   */
  lemma ReplyTwins(w: string)
    requires IsWord(w) && Confirms(w)
    ensures Reply(GoTwin, " " + w) == w && Confirms(Reply(GoTwin, " " + w))
    ensures !Confirms(Reply(PyTwin, " " + w))
  {
    FieldsOfWord(" ", w);
    assert ToLower(" " + w)[0] == ' ';
  }

  // ---------------------------------------------------------------------------
  // The two command flows
  // ---------------------------------------------------------------------------

  /**
    `RenderCommand` / `render_command`: the page found for the command (an
    error when the lookup failed), then the first example whose description
    mentions the command, or the first example when none does, rendered with
    the variables; a page without examples is an error.
   */
  function RenderCommand(twin: Twin, found: Result<Page, string>, command: string, vars: map<string, string>): (r: Result<string, AppError>)
    ensures found.Err? ==> r == Err(CommandNotFound(found.error))
    ensures found.Ok? && found.value.examples == [] ==> r == Err(NoSuitableExample(command))
    ensures r.Ok? ==> found.Ok? && exists e <- found.value.examples :: r.value == Fill(twin, e.command, e.placeholders, vars)
    ensures found.Ok? ==> forall i :: (0 <= i < |found.value.examples| && Matches(found.value.examples[i], command)
      && (forall j :: 0 <= j < i ==> !Matches(found.value.examples[j], command))) ==>
      r == Ok(Fill(twin, found.value.examples[i].command, found.value.examples[i].placeholders, vars))
    ensures found.Ok? && found.value.examples != [] && (forall j :: 0 <= j < |found.value.examples| ==> !Matches(found.value.examples[j], command)) ==>
      r == Ok(Fill(twin, found.value.examples[0].command, found.value.examples[0].placeholders, vars))
  {
    match found
    case Err(reason) => Err(CommandNotFound(reason))
    case Ok(page) =>
      BestExampleSpec(page.examples, command);
      match BestExample(page.examples, command)
      case None => Err(NoSuitableExample(command))
      case Some(e) =>
        Ok(Fill(twin, e.command, e.placeholders, vars))
  }

  /**
    `ExecuteCommand` / `execute_command`: the same lookup and rendering, then
    the confirmation gate; what runs is exactly what `RenderCommand` prints.
   */
  function ExecuteCommand(twin: Twin, found: Result<Page, string>, command: string, vars: map<string, string>,
                          confirmDestructive: bool, line: string): (r: Result<Outcome, AppError>)
  {
    match RenderCommand(twin, found, command, vars)
    case Err(e) => Err(e)
    case Ok(rendered) => Ok(Gate(twin, rendered, confirmDestructive, line))
  }

  /**
    Executing fails exactly when rendering does, with the same error;
    otherwise it concerns the rendered command, and it is cancelled only when
    that command is destructive, confirmation is on and the reply does not
    confirm.
   */
  lemma ExecuteMatchesRender(twin: Twin, found: Result<Page, string>, command: string, vars: map<string, string>,
                             confirmDestructive: bool, line: string)
    ensures var x := ExecuteCommand(twin, found, command, vars, confirmDestructive, line);
      var r := RenderCommand(twin, found, command, vars);
      (x.Err? <==> r.Err?)
      && (x.Err? ==> x.error == r.error)
      && (x.Ok? ==> (x.value.command == r.value
             && (x.value.Cancelled? <==> IsDestructive(r.value) && confirmDestructive && !Confirms(Reply(twin, line)))))
  {
  }
}
