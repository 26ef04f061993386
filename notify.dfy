/**
 * Desktop notifications on macOS: `Send` refuses an empty message, then runs
 * `terminal-notifier` when it is installed and `osascript` otherwise. The
 * command executor is a class that records every command it is asked to run;
 * which programs are installed and which commands fail are fixed when it is
 * made.
 */
module Notify {
  import opened Wrappers

  datatype Notification = Notification(title: string, message: string, subtitle: string, sound: string, openUrl: string)

  datatype Command = Command(name: string, args: seq<string>)

  const TerminalNotifier := "terminal-notifier"
  const Osascript := "osascript"
  const EmptyMessageError := "notification message cannot be empty"

  /** Runs commands and records them; `installed` answers `LookPath`, `failures` the outcome of `Run`. */
  class Executor {
    const installed: set<string>
    const failures: Command -> Option<string>
    var runs: seq<Command>

    constructor(installed: set<string>, failures: Command -> Option<string>)
      ensures this.installed == installed && this.failures == failures && runs == []
    {
      this.installed := installed;
      this.failures := failures;
      runs := [];
    }

    /** `LookPath` succeeds. */
    predicate Found(file: string) {
      file in installed
    }

    /** `Run`: records the command and returns its error, if any. */
    method Run(name: string, args: seq<string>) returns (err: Option<string>)
      modifies this
      ensures runs == old(runs) + [Command(name, args)]
      ensures err == failures(Command(name, args))
    {
      runs := runs + [Command(name, args)];
      err := failures(Command(name, args));
    }
  }

  // ---------------------------------------------------------------------
  // The arguments of terminal-notifier
  // ---------------------------------------------------------------------

  /** A flag and its value, or nothing for an empty value. */
  function Flag(flag: string, value: string): (r: seq<string>)
    ensures value == "" ==> r == []
    ensures value != "" ==> r == [flag, value]
  {
    if value == "" then [] else [flag, value]
  }

  /** The arguments `sendTerminalNotifier` passes. */
  function TerminalNotifierArgs(n: Notification): seq<string> {
    ["-message", n.message] + Flag("-title", n.title) + Flag("-subtitle", n.subtitle)
      + Flag("-sound", n.sound) + Flag("-open", n.openUrl)
  }

  /** Reads flag pairs back into `n`. */
  function DecodeFlags(args: seq<string>, n: Notification): Option<Notification>
    decreases |args|
  {
    if args == [] then Some(n)
    else if |args| < 2 then None
    else
      var flag, value := args[0], args[1];
      if flag == "-title" then DecodeFlags(args[2..], n.(title := value))
      else if flag == "-subtitle" then DecodeFlags(args[2..], n.(subtitle := value))
      else if flag == "-sound" then DecodeFlags(args[2..], n.(sound := value))
      else if flag == "-open" then DecodeFlags(args[2..], n.(openUrl := value))
      else None
  }

  /** Reads terminal-notifier arguments back into a notification. */
  function DecodeArgs(args: seq<string>): Option<Notification> {
    if |args| < 2 || args[0] != "-message" then None
    else DecodeFlags(args[2..], Notification("", args[1], "", "", ""))
  }

  lemma DecodeFlagStep(flag: string, value: string, rest: seq<string>, n: Notification)
    requires flag in ["-title", "-subtitle", "-sound", "-open"]
    ensures value != "" ==> DecodeFlags(Flag(flag, value) + rest, n) == DecodeFlags(rest,
      if flag == "-title" then n.(title := value)
      else if flag == "-subtitle" then n.(subtitle := value)
      else if flag == "-sound" then n.(sound := value)
      else n.(openUrl := value))
    ensures value == "" ==> DecodeFlags(Flag(flag, value) + rest, n) == DecodeFlags(rest, n)
  {
    if value != "" {
      assert (Flag(flag, value) + rest)[2..] == rest;
    } else {
      assert Flag(flag, value) + rest == rest;
    }
  }

  /**
   * The arguments are `-message` and the message, then `-title`, `-subtitle`,
   * `-sound` and `-open` pairs in that order, each only for a non-empty field:
   * they can be read back into the very notification.
   */
  lemma TerminalNotifierArgsRoundTrip(n: Notification)
    ensures DecodeArgs(TerminalNotifierArgs(n)) == Some(n)
  {
    var args := TerminalNotifierArgs(n);
    var t, su, so, o := Flag("-title", n.title), Flag("-subtitle", n.subtitle), Flag("-sound", n.sound), Flag("-open", n.openUrl);
    Reassociate(["-message", n.message], t, su, so, o);
    assert args[2..] == t + (su + (so + o));
    var n0 := Notification("", n.message, "", "", "");
    var n1 := n0.(title := n.title);
    var n2 := n1.(subtitle := n.subtitle);
    var n3 := n2.(sound := n.sound);
    DecodeFlagStep("-title", n.title, su + (so + o), n0);
    DecodeFlagStep("-subtitle", n.subtitle, so + o, n1);
    DecodeFlagStep("-sound", n.sound, o, n2);
    DecodeFlagStep("-open", n.openUrl, [], n3);
    assert o + [] == o;
  }

  // ---------------------------------------------------------------------
  // The AppleScript of osascript
  // ---------------------------------------------------------------------

  function EscapeChar(c: char): string {
    if c == '"' || c == '\\' then ['\\', c] else [c]
  }

  function Escape(s: string): string {
    if s == [] then [] else EscapeChar(s[0]) + Escape(s[1..])
  }

  /** `%q`: the text in double quotes, with `"` and `\` escaped by a backslash. */
  function Quote(s: string): string {
    "\"" + Escape(s) + "\""
  }

  /** Reads escaped text up to the closing quote; returns the text and what follows the quote. */
  function ReadQuoted(t: string): Option<(string, string)>
    decreases |t|
  {
    if t == [] then None
    else if t[0] == '"' then Some(([], t[1..]))
    else if t[0] == '\\' then
      if |t| < 2 then None
      else
        match ReadQuoted(t[2..])
        case None => None
        case Some((s, rest)) => Some(([t[1]] + s, rest))
    else
      match ReadQuoted(t[1..])
      case None => None
      case Some((s, rest)) => Some(([t[0]] + s, rest))
  }

  /** Reads a quoted string at the start of `t`. */
  function Unquote(t: string): Option<(string, string)> {
    if t == [] || t[0] != '"' then None else ReadQuoted(t[1..])
  }

  lemma {:induction false} ReadQuotedEscape(s: string, rest: string)
    ensures ReadQuoted(Escape(s) + "\"" + rest) == Some((s, rest))
    decreases |s|
  {
    if s == [] {
      assert Escape(s) + "\"" + rest == ['"'] + rest;
    } else {
      ReadQuotedEscape(s[1..], rest);
      var tail := Escape(s[1..]) + "\"" + rest;
      if s[0] == '"' || s[0] == '\\' {
        assert Escape(s) + "\"" + rest == ['\\', s[0]] + tail;
        assert (['\\', s[0]] + tail)[2..] == tail;
      } else {
        assert Escape(s) + "\"" + rest == [s[0]] + tail;
        assert ([s[0]] + tail)[1..] == tail;
      }
      assert [s[0]] + s[1..] == s;
    }
  }

  /** Quoting can be undone, whatever follows the quoted text. */
  lemma UnquoteQuote(s: string, rest: string)
    ensures Unquote(Quote(s) + rest) == Some((s, rest))
  {
    assert Quote(s) + rest == ['"'] + (Escape(s) + "\"" + rest);
    assert (['"'] + (Escape(s) + "\"" + rest))[1..] == Escape(s) + "\"" + rest;
    ReadQuotedEscape(s, rest);
  }

  const DisplayNotification := "display notification "
  const WithTitle := " with title "
  const SubtitleClause := " subtitle "
  const SoundName := " sound name "

  /** A clause and its quoted value, or nothing for an empty value. */
  function Clause(keyword: string, value: string): string {
    if value == "" then "" else keyword + Quote(value)
  }

  /** The script `sendOsascript` passes after `-e`; the URL has no place in it. */
  function OsascriptScript(n: Notification): string {
    DisplayNotification + Quote(n.message) + Clause(WithTitle, n.title)
      + Clause(SubtitleClause, n.subtitle) + Clause(SoundName, n.sound)
  }

  /** Reads an optional clause: its value and what follows it, the empty value when the keyword is absent. */
  function ReadClause(keyword: string, t: string): Option<(string, string)> {
    if keyword <= t then Unquote(t[|keyword|..]) else Some(("", t))
  }

  /** Reads a script back into a notification (without URL). */
  function DecodeScript(script: string): Option<Notification> {
    if !(DisplayNotification <= script) then None
    else
      match Unquote(script[|DisplayNotification|..])
      case None => None
      case Some((message, rest)) => DecodeTitle(message, rest)
  }

  function DecodeTitle(message: string, t: string): Option<Notification> {
    match ReadClause(WithTitle, t)
    case None => None
    case Some((title, rest)) => DecodeSubtitle(message, title, rest)
  }

  function DecodeSubtitle(message: string, title: string, t: string): Option<Notification> {
    match ReadClause(SubtitleClause, t)
    case None => None
    case Some((subtitle, rest)) => DecodeSound(message, title, subtitle, rest)
  }

  function DecodeSound(message: string, title: string, subtitle: string, t: string): Option<Notification> {
    match ReadClause(SoundName, t)
    case None => None
    case Some((sound, rest)) => if rest == "" then Some(Notification(title, message, subtitle, sound, "")) else None
  }

  lemma ReadClauseOf(keyword: string, value: string, rest: string)
    requires keyword != "" && !(keyword <= rest)
    ensures ReadClause(keyword, Clause(keyword, value) + rest) == Some((value, rest))
  {
    if value != "" {
      var t := keyword + Quote(value) + rest;
      assert t == keyword + (Quote(value) + rest);
      assert keyword <= t;
      assert t[|keyword|..] == Quote(value) + rest;
      UnquoteQuote(value, rest);
    } else {
      assert Clause(keyword, value) + rest == rest;
    }
  }

  /** A clause cannot be mistaken for another keyword that differs from its own at position `i`. */
  lemma NotPrefix(keyword: string, other: string, value: string, rest: string, i: nat)
    requires i < |keyword| && i < |other| && keyword[i] != other[i]
    requires !(keyword <= rest)
    ensures !(keyword <= Clause(other, value) + rest)
  {
    if value != "" {
      assert (Clause(other, value) + rest)[i] == (other + (Quote(value) + rest))[i] == other[i];
    } else {
      assert Clause(other, value) + rest == rest;
    }
  }

  lemma DecodeSoundOf(message: string, title: string, subtitle: string, sound: string)
    ensures DecodeSound(message, title, subtitle, Clause(SoundName, sound)) == Some(Notification(title, message, subtitle, sound, ""))
  {
    assert !(SoundName <= "");
    ReadClauseOf(SoundName, sound, "");
    assert Clause(SoundName, sound) + "" == Clause(SoundName, sound);
  }

  lemma DecodeSubtitleOf(message: string, title: string, subtitle: string, sound: string)
    ensures DecodeSubtitle(message, title, Clause(SubtitleClause, subtitle) + Clause(SoundName, sound))
      == Some(Notification(title, message, subtitle, sound, ""))
  {
    assert !(SubtitleClause <= "");
    assert SubtitleClause[2] != SoundName[2];
    NotPrefix(SubtitleClause, SoundName, sound, "", 2);
    assert Clause(SoundName, sound) + "" == Clause(SoundName, sound);
    ReadClauseOf(SubtitleClause, subtitle, Clause(SoundName, sound));
    DecodeSoundOf(message, title, subtitle, sound);
  }

  lemma DecodeTitleOf(message: string, title: string, subtitle: string, sound: string)
    ensures DecodeTitle(message, Clause(WithTitle, title) + (Clause(SubtitleClause, subtitle) + Clause(SoundName, sound)))
      == Some(Notification(title, message, subtitle, sound, ""))
  {
    var c2, c3 := Clause(SubtitleClause, subtitle), Clause(SoundName, sound);
    assert !(WithTitle <= "");
    assert WithTitle[1] != SoundName[1] && WithTitle[1] != SubtitleClause[1];
    NotPrefix(WithTitle, SoundName, sound, "", 1);
    assert c3 + "" == c3;
    NotPrefix(WithTitle, SubtitleClause, subtitle, c3, 1);
    ReadClauseOf(WithTitle, title, c2 + c3);
    DecodeSubtitleOf(message, title, subtitle, sound);
  }

  /**
   * The script is `display notification` with the quoted message, then the
   * title, subtitle and sound clauses in that order, each only for a non-empty
   * field: it can be read back into the notification, all but the URL.
   */
  lemma OsascriptScriptRoundTrip(n: Notification)
    ensures DecodeScript(OsascriptScript(n)) == Some(n.(openUrl := ""))
  {
    var c1, c2, c3 := Clause(WithTitle, n.title), Clause(SubtitleClause, n.subtitle), Clause(SoundName, n.sound);
    var q := Quote(n.message);
    Reassociate(DisplayNotification, q, c1, c2, c3);
    DecodeScriptOf(n.message, c1 + (c2 + c3));
    DecodeTitleOf(n.message, n.title, n.subtitle, n.sound);
  }

  lemma Reassociate<T>(a: seq<T>, b: seq<T>, c: seq<T>, d: seq<T>, e: seq<T>)
    ensures a + b + c + d + e == a + (b + (c + (d + e)))
  {
  }

  lemma DecodeScriptOf(message: string, rest: string)
    ensures DecodeScript(DisplayNotification + (Quote(message) + rest)) == DecodeTitle(message, rest)
  {
    var script := DisplayNotification + (Quote(message) + rest);
    assert script[..|DisplayNotification|] == DisplayNotification;
    assert script[|DisplayNotification|..] == Quote(message) + rest;
    UnquoteQuote(message, rest);
  }

  /** The URL never changes the script. */
  lemma OsascriptIgnoresUrl(n: Notification, url: string)
    ensures OsascriptScript(n.(openUrl := url)) == OsascriptScript(n)
    ensures DecodeScript(OsascriptScript(n.(openUrl := url))) == Some(n.(openUrl := ""))
  {
    OsascriptScriptRoundTrip(n);
  }

  /** The command `Send` runs for a non-empty message, given whether terminal-notifier is found. */
  function SendCommand(n: Notification, hasTerminalNotifier: bool): Command {
    if hasTerminalNotifier then Command(TerminalNotifier, TerminalNotifierArgs(n))
    else Command(Osascript, ["-e", OsascriptScript(n)])
  }

  /** Sends notifications through an executor. */
  class MacNotifier {
    const executor: Executor

    constructor(executor: Executor)
      ensures this.executor == executor
    {
      this.executor := executor;
    }

    /**
     * `Send`: an empty message is an error and runs nothing; otherwise exactly
     * one command runs, terminal-notifier when it is found and osascript
     * otherwise, and its error is returned unchanged.
     */
    method Send(n: Notification) returns (err: Option<string>)
      modifies executor
      ensures n.message == "" ==> err == Some(EmptyMessageError) && executor.runs == old(executor.runs)
      ensures n.message != "" ==>
        var cmd := SendCommand(n, executor.Found(TerminalNotifier));
        executor.runs == old(executor.runs) + [cmd] && err == executor.failures(cmd)
    {
      if n.message == "" {
        return Some(EmptyMessageError);
      }
      if executor.Found(TerminalNotifier) {
        err := SendTerminalNotifier(n);
      } else {
        err := SendOsascript(n);
      }
    }

    /** `sendTerminalNotifier`: builds the arguments pair by pair and runs terminal-notifier. */
    method SendTerminalNotifier(n: Notification) returns (err: Option<string>)
      modifies executor
      ensures executor.runs == old(executor.runs) + [Command(TerminalNotifier, TerminalNotifierArgs(n))]
      ensures err == executor.failures(Command(TerminalNotifier, TerminalNotifierArgs(n)))
    {
      var args := ["-message", n.message];
      if n.title != "" {
        args := args + ["-title", n.title];
      }
      if n.subtitle != "" {
        args := args + ["-subtitle", n.subtitle];
      }
      if n.sound != "" {
        args := args + ["-sound", n.sound];
      }
      if n.openUrl != "" {
        args := args + ["-open", n.openUrl];
      }
      assert args == TerminalNotifierArgs(n);
      err := executor.Run(TerminalNotifier, args);
    }

    /** `sendOsascript`: builds the script clause by clause and runs osascript with `-e`. */
    method SendOsascript(n: Notification) returns (err: Option<string>)
      modifies executor
      ensures executor.runs == old(executor.runs) + [Command(Osascript, ["-e", OsascriptScript(n)])]
      ensures err == executor.failures(Command(Osascript, ["-e", OsascriptScript(n)]))
    {
      var script := DisplayNotification + Quote(n.message);
      if n.title != "" {
        script := script + (WithTitle + Quote(n.title));
      }
      assert script == DisplayNotification + Quote(n.message) + Clause(WithTitle, n.title);
      if n.subtitle != "" {
        script := script + (SubtitleClause + Quote(n.subtitle));
      }
      assert script == DisplayNotification + Quote(n.message) + Clause(WithTitle, n.title) + Clause(SubtitleClause, n.subtitle);
      if n.sound != "" {
        script := script + (SoundName + Quote(n.sound));
      }
      assert script == OsascriptScript(n);
      err := executor.Run(Osascript, ["-e", script]);
    }
  }
}
