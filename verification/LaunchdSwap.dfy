/** The rollback-safe launchd swap of lm_loop_apply.py, against an arbitrary launchctl. */
module LaunchdSwap {
  import opened Basics

  type Arguments = seq<string>

  // ---------------------------------------------------------------- lines of text

  /** The characters at which `splitlines` ends a line. */
  predicate LineBreak(c: char)
  {
    '\n' <= c <= '\r' || '\U{1C}' <= c <= '\U{1E}' || c == '\U{85}' || '\U{2028}' <= c <= '\U{2029}'
  }

  /** The characters that `strip` removes. */
  predicate White(c: char)
  {
    || LineBreak(c) || c == '\t' || c == ' ' || c == '\U{1F}' || c == '\U{A0}' || c == '\U{1680}'
    || '\U{2000}' <= c <= '\U{200A}' || c == '\U{202F}' || c == '\U{205F}' || c == '\U{3000}'
  }

  predicate OneLine(s: string) { forall i :: 0 <= i < |s| ==> !LineBreak(s[i]) }

  predicate AllWhite(s: string) { forall i :: 0 <= i < |s| ==> White(s[i]) }

  predicate Trimmed(s: string) { s != "" ==> !White(s[0]) && !White(s[|s| - 1]) }

  function Strip(s: string): (r: string)
    ensures Trimmed(r) && (Trimmed(s) ==> r == s)
    ensures OneLine(s) ==> OneLine(r)
  {
    if s == "" then s
    else if White(s[0]) then Strip(s[1..])
    else if White(s[|s| - 1]) then Strip(s[..|s| - 1])
    else s
  }

  /** Outside this part there is white space only. */
  predicate WhiteOutside(s: string, from: nat, to: nat)
  {
    forall i :: 0 <= i < |s| && (i < from || to <= i) ==> White(s[i])
  }

  lemma {:induction false} StripIsSlice(s: string) returns (from: nat, to: nat)
    ensures from <= to <= |s| && Strip(s) == s[from..to] && WhiteOutside(s, from, to)
    decreases |s|
  {
    if s != "" && White(s[0]) {
      var rest := s[1..];
      from, to := StripIsSlice(rest);
      assert WhiteOutside(s, from + 1, to + 1) by { assert forall i :: 1 <= i < |s| ==> s[i] == rest[i - 1]; }
      assert rest[from..to] == s[from + 1..to + 1];
      from, to := from + 1, to + 1;
    } else if s != "" && White(s[|s| - 1]) {
      var rest := s[..|s| - 1];
      from, to := StripIsSlice(rest);
      assert WhiteOutside(s, from, to) by { assert forall i :: 0 <= i < |rest| ==> s[i] == rest[i]; }
      assert rest[from..to] == s[from..to];
    } else {
      from, to := 0, |s|;
    }
  }

  /** What is stripped is white space at the two ends, and all of it. */
  lemma StripExactly(s: string) returns (lead: string, trail: string)
    ensures s == lead + Strip(s) + trail && AllWhite(lead) && AllWhite(trail) && Trimmed(Strip(s))
  {
    var from, to := StripIsSlice(s);
    lead, trail := s[..from], s[to..];
    assert s == s[..from] + s[from..to] + s[to..];
  }

  /** The two sets of characters by code point. */
  lemma CharactersByCodePoint(c: char)
    ensures LineBreak(c) <==> c as int in {10, 11, 12, 13, 28, 29, 30, 0x85, 0x2028, 0x2029}
    ensures White(c) <==>
      || LineBreak(c)
      || c as int in {9, 31, 32, 0xA0, 0x1680, 0x202F, 0x205F, 0x3000}
      || 0x2000 <= c as int <= 0x200A
  {
  }

  predicate EndsAt(text: string, n: nat)
  {
    n <= |text| && (forall i :: 0 <= i < n ==> !LineBreak(text[i])) && (n < |text| ==> LineBreak(text[n]))
  }

  /** Where the first line ends. */
  function LineEnd(text: string): (n: nat)
    ensures EndsAt(text, n)
  {
    if text == "" || LineBreak(text[0]) then 0 else 1 + LineEnd(text[1..])
  }

  /** Where the next line starts: a carriage return and a line feed end a line together. */
  function NextLine(text: string, end: nat): (n: nat)
    requires end < |text|
    ensures end < n <= |text|
  {
    if text[end] == '\r' && end + 1 < |text| && text[end + 1] == '\n' then end + 2 else end + 1
  }

  function Lines(text: string): (r: seq<string>)
    ensures forall i :: 0 <= i < |r| ==> OneLine(r[i])
    decreases |text|, 1
  {
    if text == "" then [] else [text[..LineEnd(text)]] + LaterLines(text)
  }

  function LaterLines(text: string): (r: seq<string>)
    ensures forall i :: 0 <= i < |r| ==> OneLine(r[i])
    decreases |text|, 0
  {
    if LineEnd(text) < |text| then Lines(text[NextLine(text, LineEnd(text))..]) else []
  }

  function StripAll(lines: seq<string>): (r: seq<string>)
    ensures |r| == |lines| && forall i :: 0 <= i < |r| ==> r[i] == Strip(lines[i])
  {
    if lines == [] then [] else [Strip(lines[0])] + StripAll(lines[1..])
  }

  /** The stripped lines of a text. */
  function Clean(text: string): (r: seq<string>)
    ensures forall i :: 0 <= i < |r| ==> OneLine(r[i]) && Trimmed(r[i])
  {
    StripAll(Lines(text))
  }

  function Unlines(indent: string, lines: seq<string>): string
  {
    if lines == [] then "" else indent + lines[0] + "\n" + Unlines(indent, lines[1..])
  }

  predicate WholeLines(text: string) { text != "" ==> text[|text| - 1] == '\n' }

  predicate Indentation(s: string) { AllWhite(s) && OneLine(s) }

  lemma Regroup<T>(a: seq<T>, b: seq<T>, c: seq<T>)
    ensures (a + b) + c == a + (b + c)
  {
  }

  lemma EndIs(text: string, n: nat)
    requires EndsAt(text, n)
    ensures LineEnd(text) == n
  {
  }

  lemma {:induction false} LinesInTwo(a: string, b: string)
    requires WholeLines(a)
    ensures Lines(a + b) == Lines(a) + Lines(b)
    decreases |a|, 1
  {
    if a == "" {
      assert a + b == b;
    } else {
      LaterLinesInTwo(a, b);
      Regroup([a[..LineEnd(a)]], LaterLines(a), Lines(b));
    }
  }

  lemma {:induction false} LaterLinesInTwo(a: string, b: string)
    requires a != "" && WholeLines(a)
    ensures (a + b)[..LineEnd(a + b)] == a[..LineEnd(a)] && LaterLines(a + b) == LaterLines(a) + Lines(b)
    decreases |a|, 0
  {
    EndInTwo(a, b);
    LinesInTwo(a[NextLine(a, LineEnd(a))..], b);
  }

  lemma EndInTwo(a: string, b: string)
    requires a != "" && WholeLines(a)
    ensures LineEnd(a) == LineEnd(a + b) < |a| && (a + b)[..LineEnd(a)] == a[..LineEnd(a)]
    ensures var next := NextLine(a, LineEnd(a));
      next == NextLine(a + b, LineEnd(a)) && (a + b)[next..] == a[next..] + b && WholeLines(a[next..])
  {
    assert LineBreak(a[|a| - 1]);
    EndIs(a + b, LineEnd(a));
  }

  lemma CleanInTwo(a: string, b: string)
    requires WholeLines(a)
    ensures Clean(a + b) == Clean(a) + Clean(b)
  {
    LinesInTwo(a, b);
  }

  lemma NextOneMore(c: char, text: string, end: nat)
    requires end < |text|
    ensures ([c] + text)[NextLine([c] + text, 1 + end)..] == text[NextLine(text, end)..]
  {
    assert NextLine([c] + text, 1 + end) == 1 + NextLine(text, end);
  }

  lemma EndOneMore(c: char, text: string)
    requires !LineBreak(c) && text != ""
    ensures var end := LineEnd(text); LineEnd([c] + text) == 1 + end && ([c] + text)[..1 + end] == [c] + text[..end]
    ensures LaterLines([c] + text) == LaterLines(text)
  {
    var end, longer := LineEnd(text), [c] + text;
    assert longer[1..] == text;
    if end < |text| { NextOneMore(c, text, end); }
  }

  lemma LinesOneMore(c: char, text: string)
    requires !LineBreak(c) && text != ""
    ensures Lines(text) != [] && Lines([c] + text) == [[c] + Lines(text)[0]] + Lines(text)[1..]
  {
    EndOneMore(c, text);
  }

  lemma CleanOneMore(c: char, text: string)
    requires White(c) && !LineBreak(c) && text != ""
    ensures Clean([c] + text) == Clean(text)
  {
    LinesOneMore(c, text);
    assert ([c] + Lines(text)[0])[1..] == Lines(text)[0];
  }

  lemma {:induction false} CleanIndented(indent: string, text: string)
    requires Indentation(indent) && text != ""
    ensures Clean(indent + text) == Clean(text)
  {
    if indent == "" {
      assert indent + text == text;
    } else {
      assert indent + text == [indent[0]] + (indent[1..] + text);
      CleanIndented(indent[1..], text);
      CleanOneMore(indent[0], indent[1..] + text);
    }
  }

  lemma CleanLine(line: string)
    requires OneLine(line)
    ensures Clean(line + "\n") == [Strip(line)]
  {
    var text := line + "\n";
    EndIs(text, |line|);
    assert text[..|line|] == line && text[NextLine(text, |line|)..] == "";
    assert Lines(text) == [line] + Lines("");
  }

  lemma CleanIndentedLine(indent: string, line: string)
    requires Indentation(indent) && OneLine(line)
    ensures Clean(indent + line + "\n") == [Strip(line)] && WholeLines(indent + line + "\n")
  {
    assert indent + line + "\n" == indent + (line + "\n");
    CleanIndented(indent, line + "\n");
    CleanLine(line);
  }

  /** A line ends at a line feed, at a carriage return, or at both together. */
  lemma LineEndings(line: string, text: string)
    requires OneLine(line)
    ensures Lines(line + ("\n" + text)) == [line] + Lines(text)
    ensures Lines(line + ("\r\n" + text)) == [line] + Lines(text)
    ensures (text != "" ==> text[0] != '\n') ==> Lines(line + ("\r" + text)) == [line] + Lines(text)
  {
    LineEndsWith(line, "\n", text);
    LineEndsWith(line, "\r\n", text);
    if text != "" ==> text[0] != '\n' { LineEndsWith(line, "\r", text); }
  }

  lemma LineEndsWith(line: string, end: string, text: string)
    requires OneLine(line) && (end == "\n" || end == "\r\n" || (end == "\r" && (text != "" ==> text[0] != '\n')))
    ensures Lines(line + (end + text)) == [line] + Lines(text)
  {
    var t := line + (end + text);
    assert t[|line|] == end[0];
    EndIs(t, |line|);
    assert t[..|line|] == line && t[|line| + |end|..] == text;
    assert NextLine(t, |line|) == |line| + |end|;
  }

  lemma WholeUnlines(indent: string, lines: seq<string>)
    ensures WholeLines(Unlines(indent, lines))
  {
  }

  /** Indenting changes no stripped line, even where a line has breaks of its own. */
  lemma {:induction false} CleanUnlines(indent: string, lines: seq<string>)
    requires Indentation(indent)
    ensures Clean(Unlines(indent, lines)) == Clean(Unlines("", lines))
  {
    if lines != [] {
      var first, rest := lines[0] + "\n", lines[1..];
      assert indent + lines[0] + "\n" == indent + first && "" + lines[0] + "\n" == first;
      CleanIndented(indent, first);
      CleanInTwo(indent + first, Unlines(indent, rest));
      CleanInTwo(first, Unlines("", rest));
      CleanUnlines(indent, rest);
    }
  }

  // ---------------------------------------------------------------- reading back the loaded job

  const HEADER: string := "arguments = {"

  /** The stripped lines between the header and the next closing brace, blank lines and repeated headers left out. */
  function Block(lines: seq<string>, inside: bool): Arguments
  {
    if lines == [] then []
    else if lines[0] == HEADER then Block(lines[1..], true)
    else if inside && lines[0] == "}" then []
    else if inside && lines[0] != "" then [lines[0]] + Block(lines[1..], inside)
    else Block(lines[1..], inside)
  }

  /** What reading a printed text gives. */
  function Loaded(text: string): Arguments { Block(Clean(text), false) }

  method LoadedArguments(text: string) returns (arguments: Arguments)
    ensures arguments == Loaded(text)
  {
    arguments := [];
    var inside := false;
    var raw := Lines(text);
    ghost var lines := Clean(text);
    var i := 0;
    while i < |raw|
      invariant 0 <= i <= |raw| == |lines|
      invariant Block(lines, false) == arguments + Block(lines[i..], inside)
    {
      assert lines[i..][1..] == lines[i + 1..];
      var line := Strip(raw[i]);
      if line == HEADER {
        inside := true;
      } else if inside && line == "}" {
        break;
      } else if inside && line != "" {
        arguments := arguments + [line];
      }
      i := i + 1;
    }
    if i == |raw| { assert Block(lines[i..], inside) == []; }
    assert arguments + [] == arguments;
  }

  /** An argument that stands on a line of its own and is not taken for anything else. */
  predicate Printable(arg: string) { OneLine(arg) && Trimmed(arg) && arg != "" && arg != "}" && arg != HEADER }

  predicate AllPrintable(args: Arguments) { forall i :: 0 <= i < |args| ==> Printable(args[i]) }

  /** How launchctl prints a job: one argument per line, between other lines. */
  function Printed(before: string, indent: string, args: Arguments, after: string): string
  {
    before + ((indent + HEADER + "\n") + (Unlines(indent + "\t", args) + ((indent + "}" + "\n") + after)))
  }

  /** What reading back these arguments gives, wherever they are printed. */
  function Shown(args: Arguments): Arguments { Block(Clean(Unlines("", args)) + ["}"], true) }

  lemma {:induction false} SkipBefore(before: seq<string>, rest: seq<string>)
    requires HEADER !in before
    ensures Block(before + rest, false) == Block(rest, false)
  {
    if before == [] {
      assert before + rest == rest;
    } else {
      assert (before + rest)[1..] == before[1..] + rest;
      SkipBefore(before[1..], rest);
    }
  }

  lemma {:induction false} BlockEnds(lines: seq<string>, after: seq<string>)
    ensures Block(lines + (["}"] + after), true) == Block(lines + ["}"], true)
  {
    if lines != [] {
      assert (lines + (["}"] + after))[1..] == lines[1..] + (["}"] + after);
      assert (lines + ["}"])[1..] == lines[1..] + ["}"];
      BlockEnds(lines[1..], after);
    }
  }

  lemma CleanFromBody(indent: string, args: Arguments, after: string)
    requires Indentation(indent)
    ensures Clean(Unlines(indent + "\t", args) + ((indent + "}" + "\n") + after))
         == Clean(Unlines("", args)) + (["}"] + Clean(after))
  {
    CleanIndentedLine(indent, "}");
    CleanUnlines(indent + "\t", args);
    WholeUnlines(indent + "\t", args);
    CleanInTwo(indent + "}" + "\n", after);
    CleanInTwo(Unlines(indent + "\t", args), (indent + "}" + "\n") + after);
  }

  lemma CleanPrinted(before: string, indent: string, args: Arguments, after: string)
    requires WholeLines(before) && Indentation(indent)
    ensures Clean(Printed(before, indent, args, after))
         == Clean(before) + ([HEADER] + (Clean(Unlines("", args)) + (["}"] + Clean(after))))
  {
    var header, rest := indent + HEADER + "\n", Unlines(indent + "\t", args) + ((indent + "}" + "\n") + after);
    CleanIndentedLine(indent, HEADER);
    CleanInTwo(header, rest);
    CleanInTwo(before, header + rest);
    CleanFromBody(indent, args, after);
  }

  /** The lines between the header and the brace, without the blank ones and repeated headers. */
  function BetweenBraces(lines: seq<string>): seq<string>
  {
    if lines == [] then []
    else (if lines[0] == "" || lines[0] == "arguments = {" then [] else [lines[0]]) + BetweenBraces(lines[1..])
  }

  lemma {:induction false} BlockBetween(lines: seq<string>, rest: seq<string>)
    requires "}" !in lines && (rest == [] || rest[0] == "}")
    ensures Block(lines + rest, true) == BetweenBraces(lines)
  {
    if lines == [] {
      assert lines + rest == rest;
    } else {
      assert (lines + rest)[1..] == lines[1..] + rest;
      BlockBetween(lines[1..], rest);
    }
  }

  /** Whatever the text: the first header opens the block, the next brace or the end of the text closes it. */
  lemma FirstBlockIsRead(text: string, before: seq<string>, inside: seq<string>, rest: seq<string>)
    requires Clean(text) == before + (["arguments = {"] + (inside + rest))
    requires "arguments = {" !in before && "}" !in inside && (rest == [] || rest[0] == "}")
    ensures Loaded(text) == BetweenBraces(inside)
  {
    var block := ["arguments = {"] + (inside + rest);
    SkipBefore(before, block);
    assert block[1..] == inside + rest;
    BlockBetween(inside, rest);
  }

  /** What is printed around the arguments, and how they are indented, does not matter. */
  lemma PrintedIsShown(before: string, indent: string, args: Arguments, after: string)
    requires WholeLines(before) && HEADER !in Clean(before) && Indentation(indent)
    ensures Loaded(Printed(before, indent, args, after)) == Shown(args)
  {
    CleanPrinted(before, indent, args, after);
    var rest := Clean(Unlines("", args)) + (["}"] + Clean(after));
    SkipBefore(Clean(before), [HEADER] + rest);
    assert ([HEADER] + rest)[1..] == rest;
    BlockEnds(Clean(Unlines("", args)), Clean(after));
  }

  /** Whatever the text, only printable arguments are ever read back. */
  lemma {:induction false} BlockIsPrintable(lines: seq<string>, inside: bool)
    requires forall i :: 0 <= i < |lines| ==> OneLine(lines[i]) && Trimmed(lines[i])
    ensures AllPrintable(Block(lines, inside))
  {
    if lines != [] {
      BlockIsPrintable(lines[1..], true);
      BlockIsPrintable(lines[1..], false);
    }
  }

  lemma {:induction false} CleanPrintable(args: Arguments)
    requires AllPrintable(args)
    ensures Clean(Unlines("", args)) == args
  {
    if args != [] {
      var first := args[0] + "\n";
      assert "" + args[0] + "\n" == first;
      CleanLine(args[0]);
      CleanInTwo(first, Unlines("", args[1..]));
      CleanPrintable(args[1..]);
    }
  }

  lemma {:induction false} BlockOfPrintable(args: Arguments)
    requires AllPrintable(args)
    ensures Block(args + ["}"], true) == args
  {
    if args == [] {
      assert (args + ["}"])[0] == "}";
    } else {
      assert (args + ["}"])[1..] == args[1..] + ["}"];
      BlockOfPrintable(args[1..]);
    }
  }

  lemma ShownExactly(args: Arguments)
    ensures AllPrintable(Shown(args)) && (Shown(args) == args <==> AllPrintable(args))
  {
    BlockIsPrintable(Clean(Unlines("", args)) + ["}"], true);
    if AllPrintable(args) {
      CleanPrintable(args);
      BlockOfPrintable(args);
    }
  }

  /** Reading back a printed job gives its arguments exactly when each of them is printable. */
  lemma ReadbackExactly(before: string, indent: string, args: Arguments, after: string)
    requires WholeLines(before) && HEADER !in Clean(before) && Indentation(indent)
    ensures Loaded(Printed(before, indent, args, after)) == args <==> AllPrintable(args)
  {
    PrintedIsShown(before, indent, args, after);
    ShownExactly(args);
  }

  // ---------------------------------------------------------------- preserved attributes

  type Setting = string

  datatype Plist = Plist(settings: map<string, Setting>, programArguments: Arguments, environment: map<string, string>)

  const PRESERVED: seq<string> := ["WorkingDirectory", "RunAtLoad", "ThrottleInterval", "Umask", "Nice"]

  function PreservedNames(processType: bool): seq<string>
  {
    if processType then PRESERVED + ["ProcessType"] else PRESERVED
  }

  /** The loop over preserved keys, and the merged environment in which new values win. */
  method Preserve(incoming: Plist, previous: Plist, processType: bool) returns (merged: Plist)
    ensures merged.programArguments == incoming.programArguments
    ensures forall k :: k in PreservedNames(processType) && k in previous.settings ==>
      k in merged.settings && merged.settings[k] == previous.settings[k]
    ensures forall k :: !(k in PreservedNames(processType) && k in previous.settings) ==>
      (k in merged.settings <==> k in incoming.settings) &&
       (k in merged.settings ==> merged.settings[k] == incoming.settings[k])
    // the five operational keys come from the old plist, and the process type when it is to be preserved
    ensures forall k :: k in merged.settings ==>
      merged.settings[k] == (
        if k in previous.settings
           && (k == "WorkingDirectory" || k == "RunAtLoad" || k == "ThrottleInterval" || k == "Umask" || k == "Nice"
               || (processType && k == "ProcessType"))
        then previous.settings[k] else if k in incoming.settings then incoming.settings[k] else "")
    ensures forall k :: k in merged.environment <==> k in previous.environment || k in incoming.environment
    ensures forall k :: k in merged.environment ==>
      merged.environment[k] == if k in incoming.environment then incoming.environment[k] else previous.environment[k]
  {
    var names := PreservedNames(processType);
    var settings := incoming.settings;
    for i := 0 to |names|
      invariant forall k :: k in names[..i] && k in previous.settings ==>
        k in settings && settings[k] == previous.settings[k]
      invariant forall k :: !(k in names[..i] && k in previous.settings) ==>
        (k in settings <==> k in incoming.settings) && (k in settings ==> settings[k] == incoming.settings[k])
    {
      assert names[..i + 1] == names[..i] + [names[i]];
      if names[i] in previous.settings {
        settings := settings[names[i] := previous.settings[names[i]]];
      }
    }
    assert names[..|names|] == names;
    merged := Plist(settings, incoming.programArguments, previous.environment + incoming.environment);
  }

  // ---------------------------------------------------------------- launchctl

  datatype Command = Print | Bootout | Bootstrap

  /** One call's answer, and what is loaded afterwards. */
  datatype Reply = Reply(rc: int, text: string, loaded: Option<Arguments>)

  /** Any launchctl: it may depend on the call number, the command, the plist file and what is loaded. */
  type Behaviour = (nat, Command, Option<seq<nat>>, Option<Arguments>) -> Reply

  /** Bootout always unloads. */
  ghost predicate BootoutUnloads(b: Behaviour)
  {
    forall n, file, loaded :: b(n, Bootout, file, loaded).loaded == None
  }

  /** Print changes nothing, succeeds exactly when a job is loaded, and shows its arguments. */
  ghost predicate PrintTruthful(b: Behaviour)
  {
    forall n, file, loaded :: var r := b(n, Print, file, loaded);
      && r.loaded == loaded
      && (r.rc == 0 <==> loaded.Some?)
      && (loaded.Some? ==> Loaded(r.text) == Shown(loaded.value))
  }

  /** Bootstrapping this plist with nothing loaded loads these arguments. */
  ghost predicate BootstrapLoads(b: Behaviour, file: seq<nat>, args: Arguments)
  {
    forall n :: var r := b(n, Bootstrap, Some(file), None); r.rc == 0 && r.loaded == Some(args)
  }

  /** What a working launchctl does with one plist. */
  ghost predicate Works(b: Behaviour, file: seq<nat>, args: Arguments)
  {
    PrintTruthful(b) && BootoutUnloads(b) && BootstrapLoads(b, file, args)
  }

  /** A launchctl that loads what a plist says, unloads, and prints the loaded job after some other lines. */
  function Honest(argumentsOf: seq<nat> -> Arguments, before: string, indent: string, after: string): Behaviour
  {
    (n: nat, command: Command, file: Option<seq<nat>>, loaded: Option<Arguments>) =>
      match command
      case Print => if loaded.Some? then Reply(0, Printed(before, indent, loaded.value, after), loaded)
        else Reply(1, "", None)
      case Bootout => Reply(0, "", None)
      case Bootstrap => if file.Some? then Reply(0, "", Some(argumentsOf(file.value))) else Reply(1, "", loaded)
  }

  /** There are such launchctls: printing each argument on its own line is showing it. */
  lemma HonestWorks(argumentsOf: seq<nat> -> Arguments, before: string, indent: string, after: string, file: seq<nat>)
    requires WholeLines(before) && HEADER !in Clean(before) && Indentation(indent)
    ensures Works(Honest(argumentsOf, before, indent, after), file, argumentsOf(file))
  {
    forall loaded: Option<Arguments> | loaded.Some?
      ensures Loaded(Printed(before, indent, loaded.value, after)) == Shown(loaded.value)
    {
      PrintedIsShown(before, indent, loaded.value, after);
    }
  }

  // ---------------------------------------------------------------- the host

  datatype Exchange = Exchange(command: Command, file: Option<seq<nat>>, reply: Reply)

  function LoadedAfter(history: seq<Exchange>, atStart: Option<Arguments>): Option<Arguments>
  {
    if history == [] then atStart else history[|history| - 1].reply.loaded
  }

  /** What this launchctl answers, call by call. */
  ghost predicate Answers(b: Behaviour, history: seq<Exchange>, atStart: Option<Arguments>)
  {
    history == [] ||
    var before, last := history[..|history| - 1], history[|history| - 1];
    Answers(b, before, atStart) && last.reply == b(|before|, last.command, last.file, LoadedAfter(before, atStart))
  }

  class Host {
    const behave: Behaviour
    const atStart: Option<Arguments>
    var file: Option<seq<nat>>
    var loaded: Option<Arguments>
    var calls: nat
    ghost var history: seq<Exchange>

    ghost predicate Valid()
      reads this
    {
      calls == |history| && loaded == LoadedAfter(history, atStart) && Answers(behave, history, atStart)
    }

    constructor (behave: Behaviour, file: Option<seq<nat>>, loaded: Option<Arguments>)
      ensures Valid() && this.behave == behave && this.file == file && this.loaded == loaded && history == []
    {
      this.behave, this.atStart, this.file, this.loaded, this.calls, this.history :=
        behave, loaded, file, loaded, 0, [];
    }

    method Launchctl(command: Command) returns (r: Reply)
      requires Valid()
      modifies this
      ensures Valid() && file == old(file) && loaded == r.loaded
      ensures r == behave(old(calls), command, file, old(loaded))
      ensures history == old(history) + [Exchange(command, file, r)]
    {
      r := behave(calls, command, file, loaded);
      loaded, calls := r.loaded, calls + 1;
      history := history + [Exchange(command, file, r)];
      assert history[..|history| - 1] == old(history);
    }
  }

  /** The arguments one print answer shows: none when it failed. */
  function ReadFrom(r: Reply): Arguments { if r.rc == 0 then Loaded(r.text) else [] }

  // ---------------------------------------------------------------- what install_one says to launchctl

  /**
    One attempt: bootstrap refused, or what is printed does not match; both are booted out. Otherwise the job is kept.
   */
  datatype Round =
    | Refused(bootstrap: Reply, bootout: Reply)
    | Mismatched(bootstrap: Reply, readback: Reply, bootout: Reply)
    | Kept(bootstrap: Reply, readback: Reply)
  {
    predicate Failed(expected: Arguments)
    {
      match this
      case Refused(b, _) => b.rc != 0
      case Mismatched(b, r, _) => b.rc == 0 && ReadFrom(r) != expected
      case Kept(_, _) => false
    }

    predicate Confirmed(expected: Arguments) { Kept? && Confirms(bootstrap, readback, expected) }

    ghost function Exchanges(file: Option<seq<nat>>): seq<Exchange>
    {
      var up := [Exchange(Bootstrap, file, bootstrap)];
      match this
      case Refused(_, out) => up + [Exchange(Bootout, file, out)]
      case Mismatched(_, r, out) => up + ([Exchange(Print, file, r)] + [Exchange(Bootout, file, out)])
      case Kept(_, r) => up + [Exchange(Print, file, r)]
    }
  }

  ghost function ExchangesOf(rounds: seq<Round>, file: Option<seq<nat>>): seq<Exchange>
  {
    if rounds == [] then [] else ExchangesOf(rounds[..|rounds| - 1], file) + rounds[|rounds| - 1].Exchanges(file)
  }

  ghost predicate Succeeded(rounds: seq<Round>, expected: Arguments)
  {
    rounds != [] && rounds[|rounds| - 1].Confirmed(expected)
  }

  /** Rounds until one is confirmed or all have failed. */
  ghost predicate Tried(rounds: seq<Round>, expected: Arguments, attempts: nat)
  {
    && |rounds| <= attempts && (!Succeeded(rounds, expected) ==> |rounds| == attempts)
    && forall i :: 0 <= i < |rounds| ==>
         rounds[i].Failed(expected) || (i == |rounds| - 1 && rounds[i].Confirmed(expected))
  }

  /** Everything one run says and hears: is a job loaded, unload it, the rounds, the old plist bootstrapped again. */
  datatype Talk = Talk(first: Reply, unload: Reply, rounds: seq<Round>, putBack: Option<Round>)
  {
    ghost function Exchanges(was: Option<seq<nat>>, now: Option<seq<nat>>): seq<Exchange>
    {
      var tried := ExchangesOf(rounds, now);
      Opening(first, unload, was, now) + if putBack.Some? then tried + putBack.value.Exchanges(was) else tried
    }

    /** The old plist is bootstrapped again only after failed attempts, for a job that was loaded. */
    ghost predicate Follows(expected: Arguments, attempts: nat, had: bool)
    {
      && Tried(rounds, expected, attempts)
      && (putBack.Some? <==> !Succeeded(rounds, expected) && first.rc == 0 && had)
      && (putBack.Some? ==> putBack.value.Kept?)
    }

    /** The old job counts as restored when none was loaded, or when a successful print shows its arguments. */
    ghost predicate Restored(previous: Arguments)
    {
      if putBack.Some? then putBack.value.Confirmed(previous) && putBack.value.readback.rc == 0 else first.rc != 0
    }
  }

  ghost function Opening(first: Reply, unload: Reply, was: Option<seq<nat>>, now: Option<seq<nat>>): seq<Exchange>
  {
    [Exchange(Print, was, first)] + [Exchange(Bootout, now, unload)]
  }

  datatype Outcome =
    | Installed(loadedArguments: Arguments)
    | FailedRestored
    | FailedNotRestored

  /**
    A conversation that follows the rules, in plain answers: a kept round ends the attempts, each before it having
    failed; without one all of them are made. The old job is back when none was loaded, or when bootstrap and print
    succeed and its arguments are read back.
   */
  lemma TalkInPlainAnswers(talk: Talk, expected: Arguments, attempts: nat, had: bool, previous: Arguments)
    requires talk.Follows(expected, attempts, had)
    ensures Succeeded(talk.rounds, expected) <==>
      && 0 < |talk.rounds| <= attempts && talk.rounds[|talk.rounds| - 1].Kept?
    ensures forall i :: 0 <= i < |talk.rounds| ==>
      match talk.rounds[i]
      case Refused(up, _) => up.rc != 0
      case Mismatched(up, shown, _) => up.rc == 0 && (if shown.rc == 0 then Loaded(shown.text) else []) != expected
      case Kept(up, shown) =>
        i == |talk.rounds| - 1 && up.rc == 0 && (if shown.rc == 0 then Loaded(shown.text) else []) == expected
    ensures |talk.rounds| < attempts ==> talk.rounds != [] && talk.rounds[|talk.rounds| - 1].Kept?
    ensures talk.putBack.Some? <==> !Succeeded(talk.rounds, expected) && talk.first.rc == 0 && had
    ensures talk.Restored(previous) <==>
      if talk.putBack.None? then talk.first.rc != 0 else
        match talk.putBack.value
        case Kept(up, shown) => up.rc == 0 && shown.rc == 0 && Loaded(shown.text) == previous
        case _ => false
  {
    var n := |talk.rounds|;
    assert forall i :: 0 <= i < n ==>
      talk.rounds[i].Failed(expected) || (i == n - 1 && talk.rounds[i].Confirmed(expected));
  }

  lemma ReadIsPrintable(r: Reply)
    ensures AllPrintable(ReadFrom(r))
  {
    BlockIsPrintable(Clean(r.text), false);
  }

  /** A truthful print that shows these arguments means that they are loaded. */
  lemma ShownMeansLoaded(b: Behaviour, n: nat, file: Option<seq<nat>>, loaded: Option<Arguments>, args: Arguments)
    requires PrintTruthful(b) && ReadFrom(b(n, Print, file, loaded)) == args
    requires args != [] || b(n, Print, file, loaded).rc == 0
    ensures loaded.Some? && Shown(loaded.value) == args
  {
  }

  predicate Confirms(bootstrap: Reply, readback: Reply, args: Arguments)
  {
    bootstrap.rc == 0 && ReadFrom(readback) == args
  }

  /** A bootstrap and a print by a launchctl that works show the arguments exactly when they are printable. */
  lemma WorkingRound(b: Behaviour, n: nat, file: seq<nat>, args: Arguments)
    requires Works(b, file, args)
    ensures var up := b(n, Bootstrap, Some(file), None); var p := b(n + 1, Print, Some(file), up.loaded);
      up.rc == 0 && p.rc == 0 && (ReadFrom(p) == args <==> AllPrintable(args))
  {
    ShownExactly(args);
  }

  /** One attempt: bootstrap, and after a success read the job back; anything else is booted out again. */
  method Attempt(host: Host, expected: Arguments) returns (ok: bool, ghost round: Round)
    requires host.Valid()
    modifies host
    ensures host.Valid() && host.file == old(host.file)
    ensures host.history == old(host.history) + round.Exchanges(host.file)
    ensures if ok then round.Confirmed(expected) && AllPrintable(expected) else round.Failed(expected)
    ensures !ok && BootoutUnloads(host.behave) ==> host.loaded == None
    ensures ok && PrintTruthful(host.behave) && expected != [] ==>
      host.loaded.Some? && Shown(host.loaded.value) == expected
    ensures old(host.loaded) == None && host.file.Some? && Works(host.behave, host.file.value, expected) ==>
      (ok <==> AllPrintable(expected))
  {
    if old(host.loaded) == None && host.file.Some? && Works(host.behave, host.file.value, expected) {
      WorkingRound(host.behave, host.calls, host.file.value, expected);
    }
    ghost var before := host.history;
    var b := host.Launchctl(Bootstrap);
    ghost var up := [Exchange(Bootstrap, host.file, b)];
    if b.rc == 0 {
      ghost var n, loaded := host.calls, host.loaded;
      var r := host.Launchctl(Print);
      ghost var shown := [Exchange(Print, host.file, r)];
      Regroup(before, up, shown);
      var arguments := [];
      if r.rc == 0 {
        arguments := LoadedArguments(r.text);
        ReadIsPrintable(r);
      }
      if arguments == expected {
        if PrintTruthful(host.behave) && expected != [] {
          ShownMeansLoaded(host.behave, n, host.file, loaded, expected);
        }
        return true, Kept(b, r);
      }
      var out := host.Launchctl(Bootout);
      Regroup(before, up + shown, [Exchange(Bootout, host.file, out)]);
      Regroup(up, shown, [Exchange(Bootout, host.file, out)]);
      return false, Mismatched(b, r, out);
    }
    var out := host.Launchctl(Bootout);
    Regroup(before, up, [Exchange(Bootout, host.file, out)]);
    return false, Refused(b, out);
  }

  /** The attempts, each starting with nothing loaded when bootout unloads. */
  method Attempts(host: Host, expected: Arguments, attempts: nat) returns (ok: bool, ghost rounds: seq<Round>)
    requires host.Valid() && (BootoutUnloads(host.behave) ==> host.loaded == None)
    modifies host
    ensures host.Valid() && host.file == old(host.file)
    ensures host.history == old(host.history) + ExchangesOf(rounds, host.file)
    ensures Tried(rounds, expected, attempts) && (ok <==> Succeeded(rounds, expected)) &&
      (ok ==> AllPrintable(expected))
    ensures !ok && BootoutUnloads(host.behave) ==> host.loaded == None
    ensures ok && PrintTruthful(host.behave) && expected != [] ==>
      host.loaded.Some? && Shown(host.loaded.value) == expected
    ensures attempts > 0 && host.file.Some? && Works(host.behave, host.file.value, expected) ==>
      (ok <==> AllPrintable(expected))
  {
    rounds := [];
    ok := false;
    ghost var before := host.history;
    assert before + [] == before;
    var attempt := 0;
    while attempt < attempts
      invariant host.Valid() && host.file == old(host.file) && attempt == |rounds| <= attempts
      invariant host.history == before + ExchangesOf(rounds, host.file)
      invariant forall i :: 0 <= i < |rounds| ==> rounds[i].Failed(expected)
      invariant BootoutUnloads(host.behave) ==> host.loaded == None
      invariant attempt > 0 && host.file.Some? && Works(host.behave, host.file.value, expected) ==>
        !AllPrintable(expected)
    {
      ghost var round;
      ok, round := Attempt(host, expected);
      Regroup(before, ExchangesOf(rounds, host.file), round.Exchanges(host.file));
      assert (rounds + [round])[..|rounds|] == rounds;
      rounds := rounds + [round];
      if ok {
        return;
      }
      attempt := attempt + 1;
    }
  }

  /** What a bootstrap and a print mean for the arguments that should be back. */
  lemma RestoringRound(
      b: Behaviour, n: nat, file: Option<seq<nat>>, loaded: Option<Arguments>, up: Reply, r: Reply, args: Arguments)
    requires up == b(n, Bootstrap, file, loaded) && r == b(n + 1, Print, file, up.loaded)
    ensures r.rc == 0 && Confirms(up, r, args) ==> AllPrintable(args)
    ensures r.rc == 0 && Confirms(up, r, args) && PrintTruthful(b) ==> r.loaded.Some? && Shown(r.loaded.value) == args
    ensures loaded == None && file.Some? && Works(b, file.value, args) ==>
      (r.rc == 0 && Confirms(up, r, args) <==> AllPrintable(args))
  {
    ReadIsPrintable(r);
    if loaded == None && file.Some? && Works(b, file.value, args) { WorkingRound(b, n, file.value, args); }
  }

  /** Bootstrap the plist that was there before, and see whether its job is back. */
  method PutBackJob(host: Host, previous: Arguments) returns (restored: bool, ghost round: Round)
    requires host.Valid()
    modifies host
    ensures host.Valid() && host.file == old(host.file)
    ensures host.history == old(host.history) + round.Exchanges(host.file)
    ensures round.Kept? && (restored <==> round.Confirmed(previous) && round.readback.rc == 0)
    ensures restored ==> AllPrintable(previous)
    ensures restored && PrintTruthful(host.behave) ==> host.loaded.Some? && Shown(host.loaded.value) == previous
    ensures old(host.loaded) == None && host.file.Some? && Works(host.behave, host.file.value, previous) ==>
      (restored <==> AllPrintable(previous))
  {
    ghost var before, n, loaded := host.history, host.calls, host.loaded;
    var b := host.Launchctl(Bootstrap);
    var r := host.Launchctl(Print);
    Regroup(before, [Exchange(Bootstrap, host.file, b)], [Exchange(Print, host.file, r)]);
    RestoringRound(host.behave, n, host.file, loaded, b, r, previous);
    var arguments := LoadedArguments(r.text);
    restored := b.rc == 0 && r.rc == 0 && arguments == previous;
    round := Kept(b, r);
  }

  /**
    `merge` is the new file content computed from the old one; `argumentsOf` reads ProgramArguments from a plist file.
   */
  method InstallOne(
      host: Host, expected: Arguments, merge: Option<seq<nat>> -> seq<nat>, argumentsOf: seq<nat> -> Arguments,
      attempts: nat)
    returns (outcome: Outcome, ghost talk: Talk)
    requires host.Valid()
    modifies host
    // every word exchanged with launchctl, and what is reported about it
    ensures host.Valid()
    ensures host.history == old(host.history) + talk.Exchanges(old(host.file), Some(merge(old(host.file))))
    ensures talk.Follows(expected, attempts, old(host.file).Some?)
    ensures outcome == if Succeeded(talk.rounds, expected) then Installed(expected)
                       else if talk.Restored(if old(host.file).Some? then argumentsOf(old(host.file).value) else [])
                       then FailedRestored else FailedNotRestored
    // success leaves the new plist, failure the old one, byte for byte
    ensures host.file == if outcome.Installed? then Some(merge(old(host.file))) else old(host.file)
    // success means the expected arguments are the ones loaded; arguments that cannot be read back never succeed
    ensures outcome.Installed? ==> AllPrintable(expected)
    ensures outcome.Installed? && PrintTruthful(host.behave) && expected != [] ==>
      host.loaded.Some? && Shown(host.loaded.value) == expected
    ensures attempts > 0 && Works(host.behave, merge(old(host.file)), expected) ==>
      (outcome.Installed? <==> AllPrintable(expected))
    // a reported restoration is real
    ensures outcome.FailedRestored? && talk.putBack.Some? ==>
      old(host.file).Some? && AllPrintable(argumentsOf(old(host.file).value))
    ensures outcome.FailedRestored? && PrintTruthful(host.behave) && BootoutUnloads(host.behave) ==>
      if old(host.loaded).None? then host.loaded == None
      else old(host.file).Some? && host.loaded.Some? && Shown(host.loaded.value) == argumentsOf(old(host.file).value)
    // with a launchctl that works on the old plist, a loaded job comes back exactly when it can be read back
    ensures !outcome.Installed? && old(host.loaded).Some? && old(host.file).Some? ==>
      var previous := argumentsOf(old(host.file).value);
      Works(host.behave, old(host.file).value, previous) ==> (outcome.FailedRestored? <==> AllPrintable(previous))
    ensures outcome.FailedNotRestored? && PrintTruthful(host.behave) ==> old(host.loaded).Some?
  {
    var oldBytes := host.file;
    var first := host.Launchctl(Print);
    host.file := Some(merge(oldBytes));
    var unload := host.Launchctl(Bootout);
    Regroup(old(host.history), [Exchange(Print, oldBytes, first)], [Exchange(Bootout, host.file, unload)]);
    ghost var opening := Opening(first, unload, oldBytes, host.file);
    var installed, rounds := Attempts(host, expected, attempts);
    ghost var tried := ExchangesOf(rounds, host.file);
    Regroup(old(host.history), opening, tried);
    talk := Talk(first, unload, rounds, None);
    if installed {
      return Installed(expected), talk;
    }
    host.file := oldBytes;
    var restored := first.rc != 0;
    if first.rc == 0 && oldBytes.Some? {
      ghost var round;
      restored, round := PutBackJob(host, argumentsOf(oldBytes.value));
      Regroup(old(host.history) + opening, tried, round.Exchanges(oldBytes));
      Regroup(old(host.history), opening, tried + round.Exchanges(oldBytes));
      talk := Talk(first, unload, rounds, Some(round));
    }
    outcome := if restored then FailedRestored else FailedNotRestored;
  }
}
