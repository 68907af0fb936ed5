/** The launcher's command line: quoting on one side, Windows argument parsing on the other. */
module Launcher {

  // ----- Quoting -----

  function Backslashes(n: nat): (s: string)
    ensures |s| == n && forall k :: 0 <= k < n ==> s[k] == '\\'
  {
    seq(n, _ => '\\')
  }

  /** The quoted form of the rest of an argument, `slashes` backslashes being held back. */
  function Escape(rest: string, slashes: nat): string
    decreases |rest|
  {
    if rest == "" then Backslashes(slashes * 2)
    else if rest[0] == '\\' then Escape(rest[1..], slashes + 1)
    else Backslashes(if rest[0] == '\"' then slashes * 2 + 1 else slashes) + [rest[0]] + Escape(rest[1..], 0)
  }

  function Quoted(argument: string): string {
    "\"" + Escape(argument, 0) + "\""
  }

  method Quote(argument: string) returns (result: string)
    ensures result == Quoted(argument)
  {
    result := "\"";
    var slashes: nat := 0;
    for p := 0 to |argument|
      invariant result + Escape(argument[p..], slashes) == "\"" + Escape(argument, 0)
    {
      var c := argument[p];
      assert argument[p..][0] == c && argument[p..][1..] == argument[p + 1..];
      if c == '\\' {
        slashes := slashes + 1;
        continue;
      }
      result := result + Backslashes(if c == '\"' then slashes * 2 + 1 else slashes) + [c];
      slashes := 0;
    }
    result := result + Backslashes(slashes * 2) + "\"";
  }

  /** The command line for a list of arguments, the program first. */
  function Joined(arguments: seq<string>): string {
    if arguments == [] then ""
    else if |arguments| == 1 then Quoted(arguments[0])
    else Joined(arguments[..|arguments| - 1]) + " " + Quoted(arguments[|arguments| - 1])
  }

  method Command(arguments: seq<string>) returns (command: string)
    ensures command == Joined(arguments)
  {
    command := "";
    for i := 0 to |arguments|
      invariant command == Joined(arguments[..i])
    {
      assert arguments[..i + 1][..i] == arguments[..i];
      if i > 0 {
        command := command + " ";
      }
      var quoted := Quote(arguments[i]);
      command := command + quoted;
    }
    assert arguments[..|arguments|] == arguments;
  }

  // ----- Parsing, by the Microsoft C/C++ rules -----

  predicate Blank(c: char) {
    c == ' ' || c == '\t'
  }

  /** A parsed token and what follows it. */
  datatype Token = Token(text: string, rest: string)

  /** The rest of an argument: `slashes` backslashes have just been read, `inside` says whether
    * the text is inside a quoted part, `text` is what has been collected. */
  function Scan(s: string, inside: bool, slashes: nat, text: string): (t: Token)
    ensures |t.rest| <= |s|
    decreases |s|
  {
    if s == "" then
      Token(text + Backslashes(slashes), "")
    else if s[0] == '\\' then
      Scan(s[1..], inside, slashes + 1, text)
    else if s[0] == '\"' then
      if slashes % 2 == 1 then  // an escaped quote
        Scan(s[1..], inside, 0, text + Backslashes(slashes / 2) + "\"")
      else if inside && |s| > 1 && s[1] == '\"' then  // a doubled quote inside a quoted part
        Scan(s[2..], inside, 0, text + Backslashes(slashes / 2) + "\"")
      else
        Scan(s[1..], !inside, 0, text + Backslashes(slashes / 2))
    else if Blank(s[0]) && !inside then
      Token(text + Backslashes(slashes), s)
    else
      Scan(s[1..], inside, 0, text + Backslashes(slashes) + [s[0]])
  }

  function SkipBlanks(s: string): (r: string)
    ensures |r| <= |s|
    ensures r == "" || !Blank(r[0])
  {
    if s != "" && Blank(s[0]) then SkipBlanks(s[1..]) else s
  }

  /** The program name: quotes only delimit, backslashes are always literal. */
  function ScanProgram(s: string, inside: bool, text: string): Token
    decreases |s|
  {
    if s == "" then Token(text, "")
    else if s[0] == '\"' then ScanProgram(s[1..], !inside, text)
    else if Blank(s[0]) && !inside then Token(text, s)
    else ScanProgram(s[1..], inside, text + [s[0]])
  }

  lemma {:induction false} ScanShrinks(s: string, inside: bool, slashes: nat, text: string)
    requires s != "" && (inside || !Blank(s[0]))
    ensures |Scan(s, inside, slashes, text).rest| < |s|
    decreases |s|
  {
  }

  function Arguments(s: string): seq<string>
    decreases |s|
  {
    var start := SkipBlanks(s);
    if start == "" then []
    else
      ScanShrinks(start, false, 0, "");
      var t := Scan(start, false, 0, "");
      [t.text] + Arguments(t.rest)
  }

  function Parse(command: string): seq<string> {
    var program := ScanProgram(command, false, "");
    [program.text] + Arguments(program.rest)
  }

  // ----- Round trips -----

  /** Reading held-back backslashes only counts them. */
  lemma {:induction false} ScanBackslashes(n: nat, s: string, inside: bool, slashes: nat, text: string)
    ensures Scan(Backslashes(n) + s, inside, slashes, text) == Scan(s, inside, slashes + n, text)
    decreases n
  {
    if n == 0 {
      assert Backslashes(n) + s == s;
    } else {
      assert (Backslashes(n) + s)[1..] == Backslashes(n - 1) + s;
      ScanBackslashes(n - 1, s, inside, slashes + 1, text);
    }
  }

  /** The rest of the line after an argument: nothing, or a blank. */
  predicate Ends(tail: string) {
    tail == "" || Blank(tail[0])
  }

  /** Doubled backslashes and the closing quote end the argument. */
  lemma ScanClose(slashes: nat, tail: string, text: string)
    requires Ends(tail)
    ensures Scan(Backslashes(slashes * 2) + ("\"" + tail), true, 0, text) == Token(text + Backslashes(slashes), tail)
  {
    var after := "\"" + tail;
    ScanBackslashes(slashes * 2, after, true, 0, text);
    assert after[1..] == tail;
    assert Scan(after, true, slashes * 2, text) == Scan(tail, false, 0, text + Backslashes(slashes));
    assert text + Backslashes(slashes) + Backslashes(0) == text + Backslashes(slashes);
  }

  /** An escaped quote, or any other character, is read back with the backslashes before it. */
  lemma ScanChar(c: char, slashes: nat, after: string, text: string)
    requires c != '\\'
    ensures Scan(Backslashes(if c == '\"' then slashes * 2 + 1 else slashes) + ([c] + after), true, 0, text)
         == Scan(after, true, 0, text + Backslashes(slashes) + [c])
  {
    var n := if c == '\"' then slashes * 2 + 1 else slashes;
    ScanBackslashes(n, [c] + after, true, 0, text);
    assert ([c] + after)[1..] == after;
  }

  /** Inside the quotes, parsing undoes the escaping. */
  lemma {:induction false} ScanEscaped(rest: string, slashes: nat, tail: string, text: string)
    requires Ends(tail)
    ensures Scan(Escape(rest, slashes) + ("\"" + tail), true, 0, text) == Token(text + Backslashes(slashes) + rest, tail)
    decreases |rest|
  {
    if rest == "" {
      ScanClose(slashes, tail, text);
    } else if rest[0] == '\\' {
      ScanEscaped(rest[1..], slashes + 1, tail, text);
      assert text + Backslashes(slashes + 1) + rest[1..] == text + Backslashes(slashes) + rest;
    } else {
      EscapeSplit(rest, slashes, "\"" + tail);
      ScanChar(rest[0], slashes, Escape(rest[1..], 0) + ("\"" + tail), text);
      var text' := text + Backslashes(slashes) + [rest[0]];
      ScanEscaped(rest[1..], 0, tail, text');
      assert text' + Backslashes(0) + rest[1..] == text + Backslashes(slashes) + rest;
    }
  }

  lemma EscapeSplit(rest: string, slashes: nat, end: string)
    requires rest != "" && rest[0] != '\\'
    ensures Escape(rest, slashes) + end
         == Backslashes(if rest[0] == '\"' then slashes * 2 + 1 else slashes) + ([rest[0]] + (Escape(rest[1..], 0) + end))
  {
  }

  /** One quoted argument is read back whole. */
  lemma ScanQuoted(argument: string, tail: string)
    requires Ends(tail)
    ensures Scan(Quoted(argument) + tail, false, 0, "") == Token(argument, tail)
  {
    var s := Quoted(argument) + tail;
    assert s[1..] == Escape(argument, 0) + ("\"" + tail);
    assert "" + Backslashes(0) == "";
    assert Scan(s, false, 0, "") == Scan(s[1..], true, 0, "");
    ScanEscaped(argument, 0, tail, "");
    assert "" + Backslashes(0) + argument == argument;
  }

  /** The quoted arguments that follow the program, each after one space. */
  function Tail(arguments: seq<string>): string {
    if arguments == [] then "" else " " + Quoted(arguments[0]) + Tail(arguments[1..])
  }

  lemma {:induction false} TailAppend(arguments: seq<string>, last: string)
    ensures Tail(arguments + [last]) == Tail(arguments) + " " + Quoted(last)
  {
    if arguments == [] {
      assert (arguments + [last])[1..] == [];
    } else {
      assert (arguments + [last])[1..] == arguments[1..] + [last];
      TailAppend(arguments[1..], last);
    }
  }

  lemma {:induction false} JoinedTail(arguments: seq<string>)
    requires arguments != []
    ensures Joined(arguments) == Quoted(arguments[0]) + Tail(arguments[1..])
  {
    if |arguments| > 1 {
      var init, last := arguments[..|arguments| - 1], arguments[|arguments| - 1];
      JoinedTail(init);
      assert arguments[1..] == init[1..] + [last];
      TailAppend(init[1..], last);
      Regroup(Quoted(arguments[0]), Tail(init[1..]), " ", Quoted(last));
    }
  }

  lemma Regroup(a: string, b: string, c: string, d: string)
    ensures a + b + c + d == a + (b + c + d)
  {
  }

  /** All arguments after the program are read back, whatever they contain. */
  lemma {:induction false} ArgumentsOfTail(arguments: seq<string>)
    ensures Arguments(Tail(arguments)) == arguments
  {
    if arguments != [] {
      var line, after := Tail(arguments), Tail(arguments[1..]);
      var start := Quoted(arguments[0]) + after;
      assert line == " " + start && line[1..] == start;
      assert SkipBlanks(start) == start;
      assert SkipBlanks(line) == start;
      ScanQuoted(arguments[0], after);
      ArgumentsOfTail(arguments[1..]);
    }
  }

  /** A name that the program rule reads back: no quote, no backslash at the end. */
  predicate PlainName(name: string) {
    '\"' !in name && (name == "" || name[|name| - 1] != '\\')
  }

  lemma {:induction false} ProgramKeepsText(s: string, inside: bool, text: string)
    ensures text <= ScanProgram(s, inside, text).text
    decreases |s|
  {
    if s != "" && s[0] != '\"' && (inside || !Blank(s[0])) {
      ProgramKeepsText(s[1..], inside, text + [s[0]]);
    } else if s != "" && s[0] == '\"' {
      ProgramKeepsText(s[1..], !inside, text);
    }
  }

  lemma {:induction false} ProgramBackslashes(n: nat, s: string, inside: bool, text: string)
    ensures ScanProgram(Backslashes(n) + s, inside, text) == ScanProgram(s, inside, text + Backslashes(n))
    decreases n
  {
    if n == 0 {
      assert Backslashes(n) + s == s && text + Backslashes(n) == text;
    } else {
      assert (Backslashes(n) + s)[1..] == Backslashes(n - 1) + s;
      ProgramBackslashes(n - 1, s, inside, text + ['\\']);
      assert text + ['\\'] + Backslashes(n - 1) == text + Backslashes(n);
    }
  }

  /** An escaped quote does not survive the program rule. */
  lemma ProgramLosesQuote(slashes: nat, after: string, text: string, rest: string)
    ensures ScanProgram(Backslashes(slashes * 2 + 1) + after, true, text).text != text + Backslashes(slashes) + "\"" + rest
  {
    ProgramBackslashes(slashes * 2 + 1, after, true, text);
    var t := ScanProgram(after, true, text + Backslashes(slashes * 2 + 1)).text;
    ProgramKeepsText(after, true, text + Backslashes(slashes * 2 + 1));
    var at := |text| + slashes;
    assert t[at] == (text + Backslashes(slashes * 2 + 1))[at] == '\\';
    assert (text + Backslashes(slashes) + "\"" + rest)[at] == '\"';
  }

  /** The program rule, on the rest of an escaped name. */
  lemma {:induction false} ProgramEscaped(rest: string, slashes: nat, tail: string, text: string)
    requires Ends(tail)
    ensures var t := ScanProgram(Escape(rest, slashes) + ("\"" + tail), true, text);
            if PlainName(Backslashes(slashes) + rest) then t == Token(text + Backslashes(slashes) + rest, tail)
            else t.text != text + Backslashes(slashes) + rest
    decreases |rest|
  {
    var end := "\"" + tail;
    if rest == "" {
      ProgramBackslashes(slashes * 2, end, true, text);
      assert end[1..] == tail;
      assert Backslashes(slashes) + rest == Backslashes(slashes);
    } else if rest[0] == '\\' {
      ProgramEscaped(rest[1..], slashes + 1, tail, text);
      assert Backslashes(slashes + 1) + rest[1..] == Backslashes(slashes) + rest;
      assert text + Backslashes(slashes + 1) + rest[1..] == text + Backslashes(slashes) + rest;
    } else if rest[0] == '\"' {
      EscapeSplit(rest, slashes, end);
      ProgramLosesQuote(slashes, [rest[0]] + (Escape(rest[1..], 0) + end), text, rest[1..]);
      assert text + Backslashes(slashes) + "\"" + rest[1..] == text + Backslashes(slashes) + rest;
      assert (Backslashes(slashes) + rest)[slashes] == '\"';
    } else {
      ProgramChar(rest, slashes, tail, text);
    }
  }

  lemma ProgramChar(rest: string, slashes: nat, tail: string, text: string)
    requires Ends(tail) && rest != "" && rest[0] != '\\' && rest[0] != '\"'
    ensures var t := ScanProgram(Escape(rest, slashes) + ("\"" + tail), true, text);
            if PlainName(Backslashes(slashes) + rest) then t == Token(text + Backslashes(slashes) + rest, tail)
            else t.text != text + Backslashes(slashes) + rest
    decreases |rest|, 0
  {
    var end := "\"" + tail;
    var after := Escape(rest[1..], 0) + end;
    var text' := text + Backslashes(slashes) + [rest[0]];
    EscapeSplit(rest, slashes, end);
    ProgramReads(rest[0], slashes, after, text);
    ProgramEscaped(rest[1..], 0, tail, text');
    PlainTail(slashes, rest);
    HeadTail(text + Backslashes(slashes), rest);
    NoBackslashes(text', rest[1..]);
  }

  /** The program rule copies backslashes and any character that is not a quote. */
  lemma ProgramReads(c: char, slashes: nat, after: string, text: string)
    requires c != '\"'
    ensures ScanProgram(Backslashes(slashes) + ([c] + after), true, text) == ScanProgram(after, true, text + Backslashes(slashes) + [c])
  {
    ProgramBackslashes(slashes, [c] + after, true, text);
    assert ([c] + after)[1..] == after;
  }

  lemma HeadTail(text: string, rest: string)
    requires rest != ""
    ensures text + [rest[0]] + rest[1..] == text + rest
  {
  }

  lemma NoBackslashes(text: string, rest: string)
    ensures text + Backslashes(0) + rest == text + rest && Backslashes(0) + rest == rest
  {
  }

  lemma PlainTail(slashes: nat, rest: string)
    requires rest != "" && rest[0] != '\\' && rest[0] != '\"'
    ensures PlainName(Backslashes(slashes) + rest) <==> PlainName(rest[1..])
  {
    var name := Backslashes(slashes) + rest;
    assert rest == [rest[0]] + rest[1..];
    assert name[|name| - 1] == rest[|rest| - 1];
  }

  /** The program rule, on a whole quoted name. */
  lemma ProgramQuoted(name: string, tail: string)
    requires Ends(tail)
    ensures var t := ScanProgram(Quoted(name) + tail, false, "");
            if PlainName(name) then t == Token(name, tail) else t.text != name
  {
    var line := Quoted(name) + tail;
    assert line[1..] == Escape(name, 0) + ("\"" + tail);
    ProgramEscaped(name, 0, tail, "");
    assert Backslashes(0) + name == name && "" + Backslashes(0) + name == name;
  }

  /** By the rule for arguments, the joined command line is read back, whatever the strings are. */
  lemma ArgumentsOfJoined(arguments: seq<string>)
    ensures Arguments(Joined(arguments)) == arguments
  {
    if arguments != [] {
      JoinedTail(arguments);
      var after := Tail(arguments[1..]);
      assert SkipBlanks(Quoted(arguments[0]) + after) == Quoted(arguments[0]) + after;
      ScanQuoted(arguments[0], after);
      ArgumentsOfTail(arguments[1..]);
    }
  }

  /** With the rule for program names applied to the first token, the command line is read back
    * exactly when the program's name is plain. */
  lemma RoundTrip(arguments: seq<string>)
    requires arguments != []
    ensures Parse(Joined(arguments)) == arguments <==> PlainName(arguments[0])
  {
    var name, rest := arguments[0], arguments[1..];
    JoinedTail(arguments);
    ProgramQuoted(name, Tail(rest));
    ArgumentsOfTail(rest);
    assert arguments == [name] + rest;
    var parsed := Parse(Joined(arguments));
    assert parsed[0] != name ==> parsed != arguments;
  }
}
