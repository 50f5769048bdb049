/** The command line of the LOD builder: quoted and joined here, split again by the Microsoft C
    runtime ("Parsing C command-line arguments"). Arguments contain no NUL. */
module CommandLine {

  predicate IsBlank(c: char) {
    c == ' ' || c == '\t'
  }

  function Slashes(n: nat): (s: string)
    ensures |s| == n && forall i :: 0 <= i < n ==> s[i] == '\\'
  {
    seq(n, i => '\\')
  }

  // ----- quoting and joining -----

  predicate NeedsQuotes(arg: string) {
    arg == "" || exists i :: 0 <= i < |arg| && (IsBlank(arg[i]) || arg[i] == '"')
  }

  /** What quoteArg still writes before the closing quote, with `pending` backslashes just written. */
  function Body(arg: string, pending: nat): string {
    if arg == "" then Slashes(pending)
    else if arg[0] == '\\' then "\\" + Body(arg[1..], pending + 1)
    else if arg[0] == '"' then Slashes(pending + 1) + "\"" + Body(arg[1..], 0)
    else [arg[0]] + Body(arg[1..], 0)
  }

  function Quoted(arg: string): string {
    if NeedsQuotes(arg) then "\"" + Body(arg, 0) + "\"" else arg
  }

  function Joined(args: seq<string>): string {
    if args == [] then ""
    else if |args| == 1 then Quoted(args[0])
    else Joined(args[..|args| - 1]) + " " + Quoted(args[|args| - 1])
  }

  method QuoteArg(arg: string) returns (out: string)
    ensures out == Quoted(arg)
  {
    if !NeedsQuotes(arg) {
      return arg;
    }
    hide NeedsQuotes;
    out := "\"";
    var backslashes := 0;
    for i := 0 to |arg|
      invariant backslashes >= 0
      invariant out + Body(arg[i..], backslashes) == "\"" + Body(arg, 0)
    {
      var c := arg[i];
      assert arg[i..][1..] == arg[i + 1..];
      ghost var before := out;
      if c == '\\' {
        backslashes := backslashes + 1;
        out := out + [c];
        assert before + ("\\" + Body(arg[i + 1..], backslashes)) == out + Body(arg[i + 1..], backslashes);
      } else if c == '"' {
        out := out + Slashes(backslashes + 1);
        out := out + "\"";
        assert before + (Slashes(backslashes + 1) + "\"" + Body(arg[i + 1..], 0)) == out + Body(arg[i + 1..], 0);
        backslashes := 0;
      } else {
        backslashes := 0;
        out := out + [c];
        assert before + ([c] + Body(arg[i + 1..], 0)) == out + Body(arg[i + 1..], 0);
      }
    }
    out := out + Slashes(backslashes);
    out := out + "\"";
  }

  method JoinArgs(args: seq<string>) returns (cmdLine: string)
    ensures cmdLine == Joined(args)
  {
    hide Quoted;
    cmdLine := "";
    for i := 0 to |args|
      invariant cmdLine == Joined(args[..i])
    {
      assert args[..i + 1][..i] == args[..i];
      if i > 0 {
        cmdLine := cmdLine + " ";
      }
      var quoted := QuoteArg(args[i]);
      cmdLine := cmdLine + quoted;
    }
    assert args[..|args|] == args;
  }

  // ----- the runtime's rules -----

  function LeadingSlashes(s: string): (n: nat)
    ensures n <= |s| && (forall i :: 0 <= i < n ==> s[i] == '\\') && (n < |s| ==> s[n] != '\\')
  {
    if s != "" && s[0] == '\\' then 1 + LeadingSlashes(s[1..]) else 0
  }

  /** One argument: its value and what follows it. 2n backslashes before a quote are n, and the
      quote opens, closes or, doubled inside quotes, stands for itself; 2n+1 are n and a quote;
      other backslashes are literal; a blank outside quotes ends the argument. */
  function ParseArg(s: string, inQuotes: bool): (r: (string, string))
    ensures |r.1| <= |s| && (s != "" && !IsBlank(s[0]) ==> |r.1| < |s|)
    decreases |s|
  {
    var n := LeadingSlashes(s);
    var t := s[n..];
    if t != "" && t[0] == '"' then
      if n % 2 == 1 then
        var r := ParseArg(t[1..], inQuotes);
        (Slashes(n / 2) + "\"" + r.0, r.1)
      else if inQuotes && |t| >= 2 && t[1] == '"' then
        var r := ParseArg(t[2..], inQuotes);
        (Slashes(n / 2) + "\"" + r.0, r.1)
      else
        var r := ParseArg(t[1..], !inQuotes);
        (Slashes(n / 2) + r.0, r.1)
    else if t == "" || (!inQuotes && IsBlank(t[0])) then (Slashes(n), t)
    else
      var r := ParseArg(t[1..], inQuotes);
      (Slashes(n) + [t[0]] + r.0, r.1)
  }

  function ParseArgs(s: string): seq<string>
    decreases |s|
  {
    if s == "" then []
    else if IsBlank(s[0]) then ParseArgs(s[1..])
    else
      var r := ParseArg(s, false);
      [r.0] + ParseArgs(r.1)
  }

  /** The program name: quotes only toggle and backslashes mean nothing; one blank is consumed. */
  function ParseProgram(s: string, inQuotes: bool): (string, string)
    decreases |s|
  {
    if s == "" then ("", "")
    else if s[0] == '"' then ParseProgram(s[1..], !inQuotes)
    else if !inQuotes && IsBlank(s[0]) then ("", s[1..])
    else
      var r := ParseProgram(s[1..], inQuotes);
      ([s[0]] + r.0, r.1)
  }

  function ParseCommandLine(s: string): seq<string> {
    var r := ParseProgram(s, false);
    [r.0] + ParseArgs(r.1)
  }

  // ----- one argument back -----

  /** Where an argument may end. */
  predicate Boundary(tail: string) {
    tail == "" || IsBlank(tail[0])
  }

  lemma {:induction false} LeadingCount(n: nat, t: string)
    requires t == "" || t[0] != '\\'
    ensures LeadingSlashes(Slashes(n) + t) == n && (Slashes(n) + t)[n..] == t
    decreases n
  {
    var s := Slashes(n) + t;
    if n > 0 {
      assert s[1..] == Slashes(n - 1) + t;
      LeadingCount(n - 1, t);
    }
  }

  lemma ParseEnd(n: nat, tail: string)
    requires Boundary(tail)
    ensures ParseArg(Slashes(n) + tail, false) == (Slashes(n), tail)
  {
    LeadingCount(n, tail);
  }

  lemma ParseLiteral(n: nat, c: char, t: string, inQuotes: bool)
    requires c != '\\' && c != '"' && (inQuotes || !IsBlank(c))
    ensures var r := ParseArg(t, inQuotes);
      ParseArg(Slashes(n) + ([c] + t), inQuotes) == (Slashes(n) + [c] + r.0, r.1)
  {
    LeadingCount(n, [c] + t);
    assert ([c] + t)[1..] == t;
  }

  lemma ParseEscapedQuote(n: nat, t: string)
    ensures var r := ParseArg(t, true);
      ParseArg(Slashes(2 * n + 1) + ("\"" + t), true) == (Slashes(n) + "\"" + r.0, r.1)
  {
    LeadingCount(2 * n + 1, "\"" + t);
    assert ("\"" + t)[1..] == t;
    assert (2 * n + 1) / 2 == n && (2 * n + 1) % 2 == 1;
  }

  lemma ParseClosing(n: nat, tail: string)
    requires Boundary(tail)
    ensures ParseArg(Slashes(2 * n) + ("\"" + tail), true) == (Slashes(n), tail)
  {
    LeadingCount(2 * n, "\"" + tail);
    assert ("\"" + tail)[1..] == tail;
    ParseEnd(0, tail);
    assert Slashes(0) + tail == tail;
    assert (2 * n) / 2 == n && (2 * n) % 2 == 0;
    assert Slashes(n) + Slashes(0) == Slashes(n);
  }

  lemma SlashesAdd(m: nat, n: nat)
    ensures Slashes(m) + Slashes(n) == Slashes(m + n)
  {
  }

  lemma AnotherSlash(n: nat, b: string)
    ensures Slashes(n) + ("\\" + b) == Slashes(n + 1) + b
  {
  }

  lemma MoreSlashes(n: nat, b: string)
    ensures Slashes(n) + (Slashes(n + 1) + "\"" + b) == Slashes(2 * n + 1) + ("\"" + b)
  {
    SlashesAdd(n, n + 1);
  }

  lemma Associates(a: string, b: string, c: string)
    ensures (a + b) + c == a + (b + c)
  {
  }

  /** Nothing is pending. */
  lemma NoSlashes(b: string)
    ensures Slashes(0) + b == b
  {
  }

  /** Inside quotes, the written form of an argument reads back as the argument. */
  lemma {:induction false} BodyBack(arg: string, pending: nat, tail: string)
    requires Boundary(tail)
    ensures ParseArg(Slashes(pending) + (Body(arg, pending) + ("\"" + tail)), true) == (Slashes(pending) + arg, tail)
    decreases |arg|
  {
    hide ParseArg, Slashes, Body;
    var close := "\"" + tail;
    BodyCases(arg, pending);
    if arg == "" {
      ParseClosing(pending, tail);
      SlashesAdd(pending, pending);
      Associates(Slashes(pending), Slashes(pending), close);
      assert Slashes(pending) + arg == Slashes(pending);
    } else {
      var c, rest := arg[0], arg[1..];
      assert arg == [c] + rest;
      if c == '\\' {
        var b := Body(rest, pending + 1);
        BodyBack(rest, pending + 1, tail);
        Associates("\\", b, close);
        AnotherSlash(pending, b + close);
        AnotherSlash(pending, rest);
      } else {
        var b := Body(rest, 0);
        BodyBack(rest, 0, tail);
        NoSlashes(b + close);
        NoSlashes(rest);
        Associates(Slashes(pending), [c], rest);
        if c == '"' {
          ParseEscapedQuote(pending, b + close);
          Associates(Slashes(pending + 1) + "\"", b, close);
          MoreSlashes(pending, b + close);
        } else {
          ParseLiteral(pending, c, b + close, true);
          Associates([c], b, close);
        }
      }
    }
  }

  lemma BodyCases(arg: string, pending: nat)
    ensures arg == "" ==> Body(arg, pending) == Slashes(pending)
    ensures arg != "" && arg[0] == '\\' ==> Body(arg, pending) == "\\" + Body(arg[1..], pending + 1)
    ensures arg != "" && arg[0] == '"' ==> Body(arg, pending) == Slashes(pending + 1) + "\"" + Body(arg[1..], 0)
    ensures arg != "" && arg[0] != '\\' && arg[0] != '"' ==> Body(arg, pending) == [arg[0]] + Body(arg[1..], 0)
  {
    hide Slashes;
  }

  /** Without blanks and quotes an argument reads back as it is. */
  lemma {:induction false} PlainBack(arg: string, pending: nat, tail: string)
    requires Boundary(tail) && forall i :: 0 <= i < |arg| ==> !IsBlank(arg[i]) && arg[i] != '"'
    ensures ParseArg(Slashes(pending) + (arg + tail), false) == (Slashes(pending) + arg, tail)
    decreases |arg|
  {
    hide ParseArg;
    if arg == "" {
      ParseEnd(pending, tail);
      assert arg + tail == tail && Slashes(pending) + arg == Slashes(pending);
    } else {
      var rest := arg[1..];
      assert arg == [arg[0]] + rest;
      if arg[0] == '\\' {
        PlainBack(rest, pending + 1, tail);
        SlashesAdd(pending, 1);
        assert Slashes(pending) + (arg + tail) == Slashes(pending + 1) + (rest + tail);
        assert Slashes(pending) + arg == Slashes(pending + 1) + rest;
      } else {
        PlainBack(rest, 0, tail);
        assert Slashes(0) + (rest + tail) == rest + tail && Slashes(0) + rest == rest;
        ParseLiteral(pending, arg[0], rest + tail, false);
        assert arg + tail == [arg[0]] + (rest + tail);
        assert Slashes(pending) + [arg[0]] + rest == Slashes(pending) + arg;
      }
    }
  }

  lemma ParseOpening(t: string)
    ensures ParseArg("\"" + t, false) == ParseArg(t, true)
  {
    LeadingCount(0, "\"" + t);
    var s := "\"" + t;
    assert Slashes(0) + s == s && s[1..] == t;
    var r := ParseArg(t, true);
    assert Slashes(0) + r.0 == r.0;
  }

  /** Every argument, quoted or not, reads back as itself up to the next blank. */
  lemma QuotedBack(arg: string, tail: string)
    requires Boundary(tail)
    ensures ParseArg(Quoted(arg) + tail, false) == (arg, tail)
  {
    hide ParseArg;
    if NeedsQuotes(arg) {
      var inner := Body(arg, 0) + ("\"" + tail);
      BodyBack(arg, 0, tail);
      assert Slashes(0) + inner == inner && Slashes(0) + arg == arg;
      ParseOpening(inner);
      assert Quoted(arg) + tail == "\"" + inner;
    } else {
      PlainBack(arg, 0, tail);
      assert Slashes(0) + (arg + tail) == arg + tail && Slashes(0) + arg == arg;
    }
  }

  lemma QuotedHead(arg: string)
    ensures Quoted(arg) != "" && !IsBlank(Quoted(arg)[0])
  {
  }

  // ----- the whole list -----

  /** The arguments as they stand behind the program name, each with a blank before it. */
  function Spaced(args: seq<string>): string {
    if args == [] then "" else " " + Quoted(args[0]) + Spaced(args[1..])
  }

  lemma {:induction false} SpacedAppend(args: seq<string>, last: string)
    ensures Spaced(args + [last]) == Spaced(args) + (" " + Quoted(last))
    decreases |args|
  {
    hide Quoted;
    if args == [] {
      assert [last][1..] == [];
    } else {
      assert (args + [last])[1..] == args[1..] + [last];
      SpacedAppend(args[1..], last);
      assert (" " + Quoted(args[0])) + (Spaced(args[1..]) + (" " + Quoted(last)))
        == (" " + Quoted(args[0]) + Spaced(args[1..])) + (" " + Quoted(last));
    }
  }

  lemma {:induction false} JoinedSplit(args: seq<string>)
    requires args != []
    ensures Joined(args) == Quoted(args[0]) + Spaced(args[1..])
    decreases |args|
  {
    hide Quoted;
    var n := |args| - 1;
    if n == 0 {
      assert Quoted(args[0]) + "" == Quoted(args[0]);
    } else {
      var last := " " + Quoted(args[n]);
      JoinedSplit(args[..n]);
      SpacedAppend(args[..n][1..], args[n]);
      assert args[..n][1..] + [args[n]] == args[1..];
      assert (Quoted(args[0]) + Spaced(args[..n][1..])) + last == Quoted(args[0]) + (Spaced(args[..n][1..]) + last);
      assert Joined(args[..n]) + " " + Quoted(args[n]) == Joined(args[..n]) + last;
    }
  }

  /** The arguments behind the program name come back as they were, whatever they contain. */
  lemma {:induction false} SpacedBack(args: seq<string>)
    ensures ParseArgs(Spaced(args)) == args
    decreases |args|
  {
    hide Quoted, ParseArg;
    if args != [] {
      var tail := Spaced(args[1..]);
      var s := Quoted(args[0]) + tail;
      SpacedBoundary(args[1..]);
      QuotedBack(args[0], tail);
      QuotedHead(args[0]);
      SpacedBack(args[1..]);
      assert Spaced(args) == " " + s;
      assert (" " + s)[1..] == s;
      assert s[0] == Quoted(args[0])[0];
      assert ParseArgs(s) == [args[0]] + ParseArgs(tail);
    }
  }

  lemma SpacedBoundary(args: seq<string>)
    ensures Boundary(Spaced(args))
  {
    hide Quoted;
    if args != [] {
      assert Spaced(args)[0] == ' ';
    }
  }

  /** The whole list joined, read with the argument rules throughout. */
  lemma JoinedBack(args: seq<string>)
    ensures ParseArgs(Joined(args)) == args
  {
    hide Quoted, ParseArg;
    if args != [] {
      JoinedSplit(args);
      SpacedBack(args);
      var s := Joined(args);
      assert Spaced(args) == " " + s;
      assert (" " + s)[1..] == s;
    }
  }

  // ----- the program name -----

  /** A program name that survives the runtime's simpler rule for it. */
  predicate ProgramOk(name: string) {
    '"' !in name && (NeedsQuotes(name) && name != "" ==> name[|name| - 1] != '\\')
  }

  lemma {:induction false} ProgramNoQuotes(s: string, inQuotes: bool)
    ensures '"' !in ParseProgram(s, inQuotes).0
    decreases |s|
  {
    if s != "" {
      ProgramNoQuotes(s[1..], if s[0] == '"' then !inQuotes else inQuotes);
    }
  }

  lemma ProgramChar(c: char, rest: string, inQuotes: bool)
    requires c != '"' && (inQuotes || !IsBlank(c))
    ensures var r := ParseProgram(rest, inQuotes);
      ParseProgram([c] + rest, inQuotes) == ([c] + r.0, r.1)
  {
    assert ([c] + rest)[1..] == rest;
  }

  lemma ProgramCloses(tail: string)
    ensures ParseProgram("\"" + tail, true) == ParseProgram(tail, false)
  {
    assert ("\"" + tail)[1..] == tail;
  }

  lemma {:induction false} ProgramInQuotes(text: string, tail: string)
    requires '"' !in text
    ensures var r := ParseProgram(tail, false);
      ParseProgram(text + ("\"" + tail), true) == (text + r.0, r.1)
    decreases |text|
  {
    hide ParseProgram;
    var r, close := ParseProgram(tail, false), "\"" + tail;
    if text == "" {
      assert text + close == close && text + r.0 == r.0;
      ProgramCloses(tail);
    } else {
      var c, rest := text[0], text[1..];
      assert text == [c] + rest;
      Associates([c], rest, close);
      Associates([c], rest, r.0);
      ProgramChar(c, rest + close, true);
      ProgramInQuotes(rest, tail);
    }
  }

  lemma {:induction false} ProgramPlain(text: string, tail: string)
    requires forall i :: 0 <= i < |text| ==> !IsBlank(text[i]) && text[i] != '"'
    ensures var r := ParseProgram(tail, false);
      ParseProgram(text + tail, false) == (text + r.0, r.1)
    decreases |text|
  {
    hide ParseProgram, IsBlank;
    var r := ParseProgram(tail, false);
    if text == "" {
      assert text + tail == tail && text + r.0 == r.0;
    } else {
      var c, rest := text[0], text[1..];
      assert text == [c] + rest;
      Associates([c], rest, tail);
      Associates([c], rest, r.0);
      ProgramChar(c, rest + tail, false);
      ProgramPlain(rest, tail);
    }
  }

  /** The written form of a text without quotes: itself, with its trailing backslashes doubled. */
  lemma {:induction false} BodyNoQuotes(arg: string, pending: nat)
    requires '"' !in arg
    ensures '"' !in Body(arg, pending) && |Body(arg, pending)| >= |arg|
    ensures arg != "" && arg[|arg| - 1] != '\\' ==> Body(arg, pending) == arg
    ensures arg != "" && arg[|arg| - 1] == '\\' ==> |Body(arg, pending)| > |arg|
    decreases |arg|
  {
    if arg != "" {
      var rest := arg[1..];
      assert arg == [arg[0]] + rest;
      BodyNoQuotes(rest, if arg[0] == '\\' then pending + 1 else 0);
    }
  }

  lemma TailStops(args: seq<string>)
    ensures var r := ParseProgram(Spaced(args), false);
      r.0 == "" && ParseArgs(r.1) == args
  {
    hide Quoted;
    SpacedBack(args);
    if args != [] {
      var s := Quoted(args[0]) + Spaced(args[1..]);
      assert Spaced(args) == " " + s;
      assert (" " + s)[1..] == s;
    }
  }

  /** What the runtime reads as the program name: a quoted name keeps its doubled backslashes. */
  lemma ProgramRead(name: string, tail: string)
    requires '"' !in name && ParseProgram(tail, false).0 == ""
    ensures ParseProgram(Quoted(name) + tail, false)
      == (if NeedsQuotes(name) then Body(name, 0) else name, ParseProgram(tail, false).1)
  {
    hide Body, ParseProgram, IsBlank;
    if NeedsQuotes(name) {
      hide NeedsQuotes;
      var text := Body(name, 0);
      BodyNoQuotes(name, 0);
      Associates("\"" + text, "\"", tail);
      Associates("\"", text, "\"" + tail);
      ProgramOpens(text + ("\"" + tail));
      ProgramInQuotes(text, tail);
      assert text + "" == text;
    } else {
      ProgramPlain(name, tail);
      assert name + "" == name;
    }
  }

  /** The name read is the name given exactly when nothing had to be doubled. */
  lemma ReadBack(name: string)
    requires '"' !in name
    ensures (if NeedsQuotes(name) then Body(name, 0) else name) == name <==> ProgramOk(name)
  {
    hide Body, IsBlank;
    BodyNoQuotes(name, 0);
    EmptyBody();
  }

  /** Splitting the command line gives back the list exactly when the program name has no quote
      and, if it had to be quoted, does not end in a backslash. */
  lemma RoundTrip(args: seq<string>)
    requires args != []
    ensures ParseCommandLine(Joined(args)) == args <==> ProgramOk(args[0])
  {
    hide Spaced, Body, ParseArgs, ParseProgram, Quoted, NeedsQuotes, Joined;
    var name, tail := args[0], Spaced(args[1..]);
    JoinedSplit(args);
    TailStops(args[1..]);
    assert args == [name] + args[1..];
    if '"' in name {
      ProgramNoQuotes(Joined(args), false);
    } else {
      ProgramRead(name, tail);
      ReadBack(name);
    }
  }

  lemma EmptyBody()
    ensures Body("", 0) == ""
  {
  }

  lemma ProgramOpens(s: string)
    ensures ParseProgram("\"" + s, false) == ParseProgram(s, true)
  {
    assert ("\"" + s)[1..] == s;
  }
}
