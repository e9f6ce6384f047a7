/**
  The Dockerfile parser and the content text the graph builder prints for each
  instruction. ASCII text: whitespace and upper-casing are the ASCII ones.
 */
module Dockerfile {
  import opened Common

  datatype Instruction =
    | From(image: string)
    | Workdir(dir: string)
    | Copy(src: string, dst: string)
    | Run(command: string)
    | Env(name: string, value: string)
    | Cmd(command: string)
    | Git(url: string, target: string)
    | RunExtend(command: string, parallelizable: bool)
    | CopyExtend(src: string, dst: string, tags: seq<string>)
    | Hook(name: string, params: seq<string>)
    | Other(text: string)

  // ----- text ------------------------------------------------------------------

  predicate IsSpace(c: char) {
    c == ' ' || c == '\t' || c == '\n' || c == '\r' || c == '\U{000B}' || c == '\U{000C}'
  }

  function TrimStart(s: string): string {
    if s != [] && IsSpace(s[0]) then TrimStart(s[1..]) else s
  }

  function TrimEnd(s: string): string {
    if s != [] && IsSpace(s[|s| - 1]) then TrimEnd(s[..|s| - 1]) else s
  }

  function Trim(s: string): string {
    TrimEnd(TrimStart(s))
  }

  /** Number of leading non-space characters. */
  function WordEnd(s: string): (n: nat)
    ensures n <= |s| && (s != [] && !IsSpace(s[0]) ==> n > 0)
    ensures forall i :: 0 <= i < n ==> !IsSpace(s[i])
    ensures n < |s| ==> IsSpace(s[n])
  {
    if s == [] || IsSpace(s[0]) then 0 else 1 + WordEnd(s[1..])
  }

  /** split_whitespace */
  function Words(s: string): seq<string>
    decreases |s|
  {
    if s == [] then []
    else if IsSpace(s[0]) then Words(s[1..])
    else
      var n := WordEnd(s);
      [s[..n]] + Words(s[n..])
  }

  function UpperChar(c: char): char {
    if 'a' <= c <= 'z' then (c as int - 32) as char else c
  }

  function Upper(s: string): string {
    seq(|s|, i requires 0 <= i < |s| => UpperChar(s[i]))
  }

  /** Index of the first ' ' or '=', or the length. */
  function SplitAt(s: string): (n: nat)
    ensures n <= |s| && (n < |s| ==> s[n] == ' ' || s[n] == '=')
    ensures forall i :: 0 <= i < n ==> s[i] != ' ' && s[i] != '='
  {
    if s == [] || s[0] == ' ' || s[0] == '=' then 0 else 1 + SplitAt(s[1..])
  }

  // ----- parsing ------------------------------------------------------------------

  /** One arm per keyword; `parts` are the words of the line, `args` what follows the keyword. */
  function Interpret(keyword: string, args: string, parts: seq<string>, line: string): Option<Instruction> {
    if keyword == "FROM" then
      if |parts| >= 2 then Some(From(parts[1])) else None
    else if keyword == "WORKDIR" then
      if |parts| >= 2 then Some(Workdir(parts[1])) else None
    else if keyword == "COPY" then
      if |parts| >= 3 then Some(Copy(parts[1], parts[2])) else None
    else if keyword == "RUN" then
      Some(Run(args))
    else if keyword == "ENV" then
      if SplitAt(args) < |args| then Some(Env(args[..SplitAt(args)], args[SplitAt(args) + 1..])) else None
    else if keyword == "CMD" then
      Some(Cmd(args))
    else if keyword == "GIT" then
      if |parts| >= 3 then Some(Git(parts[1], parts[2]))
      else if |parts| == 2 then Some(Git(parts[1], "."))
      else None
    else if keyword == "RUN_EXTEND" then
      Some(RunExtend(args, true))
    else if keyword == "COPY_EXTEND" then
      if |parts| >= 3 then Some(CopyExtend(parts[1], parts[2], parts[3..])) else None
    else if keyword == "HOOK" then
      if |parts| >= 2 then Some(Hook(parts[1], parts[2..])) else None
    else
      Some(Other(line))
  }

  predicate IsKeyword(k: string) {
    k in {"FROM", "WORKDIR", "COPY", "RUN", "ENV", "CMD", "GIT", "RUN_EXTEND", "COPY_EXTEND", "HOOK"}
  }

  function ArgsAfter(line: string, keyword: string): string {
    if |line| > |keyword| then Trim(line[|keyword|..]) else ""
  }

  function ParseLine(raw: string): Option<Instruction> {
    var line := Trim(raw);
    if line == [] || line[0] == '#' || Words(line) == [] then None
    else
      var keyword := Upper(Words(line)[0]);
      Interpret(keyword, ArgsAfter(line, keyword), Words(line), line)
  }

  function Listed<T>(x: Option<T>): seq<T> {
    match x case Some(v) => [v] case None => []
  }

  /** Index of the first newline, or the length. */
  function LineEnd(s: string): (n: nat)
    ensures n <= |s| && (n < |s| ==> s[n] == '\n')
    ensures forall i :: 0 <= i < n ==> s[i] != '\n'
  {
    if s == [] || s[0] == '\n' then 0 else 1 + LineEnd(s[1..])
  }

  function FirstLine(s: string): string {
    s[..LineEnd(s)]
  }

  function OtherLines(s: string): (r: string)
    ensures s != [] ==> |r| < |s|
  {
    if LineEnd(s) < |s| then s[LineEnd(s) + 1..] else []
  }

  /** Line by line; a carriage return before the newline is trimmed with the rest of the line. */
  function ParseLines<T>(f: string -> Option<T>, content: string): seq<T>
    decreases |content|
  {
    if content == [] then [] else Listed(f(FirstLine(content))) + ParseLines(f, OtherLines(content))
  }

  function Parse(content: string): seq<Instruction> {
    ParseLines(ParseLine, content)
  }

  method CollectLines<T>(f: string -> Option<T>, content: string) returns (found: seq<T>)
    ensures found == ParseLines(f, content)
  {
    found := [];
    var rest := content;
    while rest != []
      invariant found + ParseLines(f, rest) == ParseLines(f, content)
      decreases |rest|
    {
      ConcatAssoc(found, Listed(f(FirstLine(rest))), ParseLines(f, OtherLines(rest)));
      found := found + Listed(f(FirstLine(rest)));
      rest := OtherLines(rest);
    }
    assert found + [] == found;
  }

  lemma ConcatAssoc<T>(a: seq<T>, b: seq<T>, c: seq<T>)
    ensures a + (b + c) == (a + b) + c
  {
  }

  method ParseDockerfile(content: string) returns (instructions: seq<Instruction>)
    ensures instructions == Parse(content)
  {
    instructions := CollectLines(ParseLine, content);
  }

  // ----- printing ------------------------------------------------------------------

  /** The content text of a node; `debug` is the formatter used for a hook's parameter list. */
  function Content(debug: seq<string> -> string, i: Instruction): string {
    match i
    case From(image) => "FROM " + image
    case Workdir(dir) => "WORKDIR " + dir
    case Copy(src, dst) => "COPY " + src + " " + dst
    case Run(command) => command
    case Env(name, value) => "ENV " + name + "=" + value
    case Cmd(command) => "CMD " + command
    case Git(url, target) => "GIT " + url + " " + target
    case RunExtend(command, _) => command
    case CopyExtend(src, dst, _) => "COPY_EXTEND " + src + " -> " + dst
    case Hook(name, params) => "HOOK " + name + " " + debug(params)
    case Other(text) => text
  }

  function Print(debug: seq<string> -> string, instructions: seq<Instruction>): string {
    if instructions == [] then "" else Content(debug, instructions[0]) + "\n" + Print(debug, instructions[1..])
  }

  predicate Reparsable(i: Instruction) {
    !(i.Run? || i.RunExtend? || i.CopyExtend? || i.Hook?)
  }

  // ----- text lemmas ----------------------------------------------------------------

  ghost predicate IsWord(w: string) {
    w != [] && forall i :: 0 <= i < |w| ==> !IsSpace(w[i])
  }

  /** Non-empty, and with no space at either end. */
  ghost predicate Tight(s: string) {
    s != [] && !IsSpace(s[0]) && !IsSpace(s[|s| - 1])
  }

  lemma TrimTight(s: string)
    requires Tight(s)
    ensures Trim(s) == s
  {
  }

  lemma {:induction false} TrimStartState(s: string)
    ensures TrimStart(s) == [] || !IsSpace(TrimStart(s)[0])
    ensures exists k :: 0 <= k <= |s| && TrimStart(s) == s[k..]
  {
    if s != [] && IsSpace(s[0]) {
      TrimStartState(s[1..]);
      var k :| 0 <= k <= |s[1..]| && TrimStart(s[1..]) == s[1..][k..];
      assert s[1..][k..] == s[k + 1..];
    } else {
      assert s == s[0..];
    }
  }

  lemma {:induction false} TrimEndState(s: string)
    ensures TrimEnd(s) == [] || !IsSpace(TrimEnd(s)[|TrimEnd(s)| - 1])
    ensures TrimEnd(s) <= s
  {
    if s != [] && IsSpace(s[|s| - 1]) {
      TrimEndState(s[..|s| - 1]);
    }
  }

  lemma TrimmedIsTight(s: string)
    ensures Trim(s) == [] || Tight(Trim(s))
    ensures |Trim(s)| <= |s|
    ensures forall c :: c in Trim(s) ==> c in s
  {
    TrimStartState(s);
    TrimEndState(TrimStart(s));
    var k :| 0 <= k <= |s| && TrimStart(s) == s[k..];
    forall c | c in Trim(s) ensures c in s {
      assert c in TrimStart(s);
      assert c in s[k..];
    }
  }

  lemma TrimLeadingSpace(s: string)
    requires s == [] || Tight(s)
    ensures Trim(" " + s) == s
  {
    assert (" " + s)[1..] == s;
    assert TrimStart(" " + s) == TrimStart(s) == s;
  }

  lemma {:induction false} WordsAreWords(s: string, i: nat)
    requires i < |Words(s)|
    ensures IsWord(Words(s)[i]) && forall c :: c in Words(s)[i] ==> c in s
    decreases |s|
  {
    if IsSpace(s[0]) {
      WordsAreWords(s[1..], i);
    } else if i > 0 {
      WordsAreWords(s[WordEnd(s)..], i - 1);
    }
  }

  lemma {:induction false} WordEndOf(w: string, rest: string)
    requires IsWord(w) && (rest == [] || IsSpace(rest[0]))
    ensures WordEnd(w + rest) == |w|
  {
    assert (w + rest)[1..] == w[1..] + rest;
    if |w| > 1 {
      WordEndOf(w[1..], rest);
    } else {
      assert w[1..] + rest == rest;
    }
  }

  lemma WordsCons(w: string, rest: string)
    requires IsWord(w) && (rest == [] || IsSpace(rest[0]))
    ensures Words(w + rest) == [w] + Words(rest)
  {
    WordEndOf(w, rest);
    assert (w + rest)[..|w|] == w && (w + rest)[|w|..] == rest;
  }

  lemma WordsAfterSpace(s: string)
    ensures Words(" " + s) == Words(s)
  {
    assert (" " + s)[1..] == s;
  }

  lemma WordThen(w: string, rest: string)
    requires IsWord(w)
    ensures Words(w + " " + rest) == [w] + Words(rest)
  {
    assert w + " " + rest == w + (" " + rest);
    WordsCons(w, " " + rest);
    WordsAfterSpace(rest);
  }

  lemma OneWord(w: string)
    requires IsWord(w)
    ensures Words(w) == [w]
  {
    assert w + [] == w;
    WordsCons(w, []);
  }

  lemma TwoWords(a: string, b: string)
    requires IsWord(a) && IsWord(b)
    ensures Words(a + " " + b) == [a, b]
  {
    WordThen(a, b);
    OneWord(b);
  }

  lemma ThreeWords(a: string, b: string, c: string)
    requires IsWord(a) && IsWord(b) && IsWord(c)
    ensures Words(a + " " + b + " " + c) == [a, b, c]
  {
    assert a + " " + b + " " + c == a + " " + (b + " " + c);
    WordThen(a, b + " " + c);
    TwoWords(b, c);
  }

  lemma FourWords(a: string, b: string, c: string, d: string)
    requires IsWord(a) && IsWord(b) && IsWord(c) && IsWord(d)
    ensures Words(a + " " + b + " " + c + " " + d) == [a, b, c, d]
  {
    var rest := b + " " + c + " " + d;
    assert a + " " + b + " " + c + " " + d == a + " " + rest;
    WordThen(a, rest);
    ThreeWords(b, c, d);
  }

  /** A keyword followed by a space and a trimmed argument text parses to that keyword and text. */
  lemma KeywordLine(keyword: string, args: string)
    requires IsWord(keyword) && (args == [] || Tight(args))
    ensures var line := Trim(keyword + " " + args);
            && line != [] && line[0] == keyword[0]
            && Words(line) != [] && Words(line)[0] == keyword
            && ArgsAfter(line, keyword) == args
  {
    var full := keyword + " " + args;
    if args == [] {
      assert full == keyword + " ";
      assert TrimStart(full) == full && full[..|full| - 1] == keyword;
      assert Trim(full) == TrimEnd(keyword) == keyword;
      assert keyword + [] == keyword;
      WordsCons(keyword, []);
    } else {
      TrimTight(full);
      assert full == keyword + (" " + args);
      WordsCons(keyword, " " + args);
      assert full[|keyword|..] == " " + args;
      TrimLeadingSpace(args);
    }
  }

  lemma Keywords()
    ensures Upper("FROM") == "FROM" && Upper("WORKDIR") == "WORKDIR" && Upper("COPY") == "COPY"
    ensures Upper("ENV") == "ENV" && Upper("CMD") == "CMD" && Upper("GIT") == "GIT" && Upper("HOOK") == "HOOK"
    ensures Upper("RUN") == "RUN" && Upper("RUN_EXTEND") == "RUN_EXTEND" && Upper("COPY_EXTEND") == "COPY_EXTEND"
  {
  }

  // ----- normal form ------------------------------------------------------------------

  ghost predicate NoSplit(s: string) {
    forall i :: 0 <= i < |s| ==> s[i] != ' ' && s[i] != '='
  }

  ghost predicate WellformedEnv(name: string, value: string) {
    Tight(name + "=" + value) && NoSplit(name)
  }

  /** What the parser can put into an instruction. */
  ghost predicate Wellformed(i: Instruction) {
    match i
    case From(image) => IsWord(image)
    case Workdir(dir) => IsWord(dir)
    case Copy(src, dst) => IsWord(src) && IsWord(dst)
    case Env(name, value) => WellformedEnv(name, value)
    case Cmd(command) => command == [] || Tight(command)
    case Git(url, target) => IsWord(url) && IsWord(target)
    case Run(command) => command == [] || Tight(command)
    case RunExtend(command, parallelizable) => parallelizable && (command == [] || Tight(command))
    case CopyExtend(src, dst, tags) => IsWord(src) && IsWord(dst) && AllWords(tags)
    case Hook(name, params) => IsWord(name) && AllWords(params)
    case Other(text) => Tight(text) && text[0] != '#' && Words(text) != [] && !IsKeyword(Upper(Words(text)[0]))
  }

  ghost predicate AllWords(ws: seq<string>) {
    forall i :: 0 <= i < |ws| ==> IsWord(ws[i])
  }

  lemma TightAroundEquals(a: string, b: string)
    requires (a == [] || !IsSpace(a[0])) && (b == [] || !IsSpace(b[|b| - 1]))
    ensures Tight(a + "=" + b)
  {
    var text := a + "=" + b;
    assert text[0] == if a == [] then '=' else a[0];
    assert text[|text| - 1] == if b == [] then '=' else b[|b| - 1];
  }

  lemma EnvParts(args: string, n: nat)
    requires Tight(args) && n < |args| && NoSplit(args[..n]) && (args[n] == ' ' || args[n] == '=')
    ensures WellformedEnv(args[..n], args[n + 1..])
  {
    TightAroundEquals(args[..n], args[n + 1..]);
  }

  lemma EnvIsWellformed(args: string)
    requires Tight(args) && SplitAt(args) < |args|
    ensures WellformedEnv(args[..SplitAt(args)], args[SplitAt(args) + 1..])
  {
    EnvParts(args, SplitAt(args));
  }

  lemma InterpretedIsWellformed(keyword: string, args: string, parts: seq<string>, line: string)
    requires forall i :: 0 <= i < |parts| ==> IsWord(parts[i])
    requires args == [] || Tight(args)
    requires IsKeyword(keyword) && Interpret(keyword, args, parts, line).Some?
    ensures Wellformed(Interpret(keyword, args, parts, line).value)
  {
    if keyword == "ENV" {
      EnvIsWellformed(args);
    }
  }

  lemma UnknownIsOther(keyword: string, args: string, parts: seq<string>, line: string)
    requires !IsKeyword(keyword)
    ensures Interpret(keyword, args, parts, line) == Some(Other(line))
  {
  }

  lemma ParsedIsWellformed(raw: string)
    requires ParseLine(raw).Some?
    ensures Wellformed(ParseLine(raw).value)
  {
    var line := Trim(raw);
    var parts := Words(line);
    TrimmedIsTight(raw);
    forall i | 0 <= i < |parts| ensures IsWord(parts[i]) {
      WordsAreWords(line, i);
    }
    var keyword := Upper(parts[0]);
    if |line| > |keyword| {
      TrimmedIsTight(line[|keyword|..]);
    }
    if IsKeyword(keyword) {
      InterpretedIsWellformed(keyword, ArgsAfter(line, keyword), parts, line);
    } else {
      UnknownIsOther(keyword, ArgsAfter(line, keyword), parts, line);
    }
  }

  lemma SplitAtOf(name: string, value: string)
    requires NoSplit(name)
    ensures SplitAt(name + "=" + value) == |name|
  {
    var s := name + "=" + value;
    assert s[|name|] == '=';
    assert forall i :: 0 <= i < |name| ==> s[i] == name[i];
  }

  lemma KeywordAndArgs(keyword: string, args: string)
    requires IsWord(keyword) && keyword[0] != '#' && Upper(keyword) == keyword && (args == [] || Tight(args))
    ensures var line := Trim(keyword + " " + args);
            ParseLine(keyword + " " + args) == Interpret(keyword, args, Words(line), line)
  {
    KeywordLine(keyword, args);
  }

  lemma InterpretEnv(name: string, value: string, parts: seq<string>, line: string)
    requires NoSplit(name)
    ensures Interpret("ENV", name + "=" + value, parts, line) == Some(Env(name, value))
  {
    var args := name + "=" + value;
    SplitAtOf(name, value);
    assert args[..|name|] == name && args[|name| + 1..] == value;
  }

  lemma ReparseArgs(i: Instruction, debug: seq<string> -> string)
    requires Wellformed(i) && (i.Env? || i.Cmd?)
    ensures ParseLine(Content(debug, i)) == Some(i)
  {
    Keywords();
    match i
    case Cmd(command) =>
      assert "CMD " + command == "CMD" + " " + command;
      KeywordAndArgs("CMD", command);
    case Env(name, value) =>
      var args := name + "=" + value;
      assert "ENV " + name + "=" + value == "ENV" + " " + args;
      KeywordAndArgs("ENV", args);
      var line := Trim("ENV" + " " + args);
      InterpretEnv(name, value, Words(line), line);
  }

  lemma KeywordAndWord(keyword: string, w: string)
    requires IsWord(keyword) && IsWord(w) && keyword[0] != '#' && Upper(keyword) == keyword
    ensures var line := keyword + " " + w;
            ParseLine(line) == Interpret(keyword, ArgsAfter(line, keyword), [keyword, w], line)
  {
    TrimTight(keyword + " " + w);
    TwoWords(keyword, w);
  }

  lemma KeywordAndTwoWords(keyword: string, v: string, w: string)
    requires IsWord(keyword) && IsWord(v) && IsWord(w) && keyword[0] != '#' && Upper(keyword) == keyword
    ensures var line := keyword + " " + v + " " + w;
            ParseLine(line) == Interpret(keyword, ArgsAfter(line, keyword), [keyword, v, w], line)
  {
    TrimTight(keyword + " " + v + " " + w);
    ThreeWords(keyword, v, w);
  }

  lemma ReparseWords(i: Instruction, debug: seq<string> -> string)
    requires Wellformed(i) && (i.From? || i.Workdir? || i.Copy? || i.Git?)
    ensures ParseLine(Content(debug, i)) == Some(i)
  {
    Keywords();
    match i
    case From(image) =>
      assert "FROM " + image == "FROM" + " " + image;
      KeywordAndWord("FROM", image);
    case Workdir(dir) =>
      assert "WORKDIR " + dir == "WORKDIR" + " " + dir;
      KeywordAndWord("WORKDIR", dir);
    case Copy(src, dst) =>
      assert "COPY " + src + " " + dst == "COPY" + " " + src + " " + dst;
      KeywordAndTwoWords("COPY", src, dst);
    case Git(url, target) =>
      assert "GIT " + url + " " + target == "GIT" + " " + url + " " + target;
      KeywordAndTwoWords("GIT", url, target);
  }

  lemma ReparseOther(text: string)
    requires Wellformed(Other(text))
    ensures ParseLine(text) == Some(Other(text))
  {
    TrimTight(text);
  }

  /** Every well-formed instruction of a re-parsable kind is what its content text parses to. */
  lemma ContentParses(i: Instruction, debug: seq<string> -> string)
    requires Wellformed(i) && Reparsable(i)
    ensures ParseLine(Content(debug, i)) == Some(i)
  {
    if i.Env? || i.Cmd? {
      ReparseArgs(i, debug);
    } else if i.Other? {
      ReparseOther(i.text);
    } else {
      ReparseWords(i, debug);
    }
  }

  /** Re-parsing the text printed for a parsed instruction yields that instruction again. */
  lemma ReparseYieldsSame(raw: string, debug: seq<string> -> string)
    requires ParseLine(raw).Some? && Reparsable(ParseLine(raw).value)
    ensures ParseLine(Content(debug, ParseLine(raw).value)) == ParseLine(raw)
  {
    ParsedIsWellformed(raw);
    ContentParses(ParseLine(raw).value, debug);
  }

  // ----- whole files --------------------------------------------------------------------

  predicate OneLine(s: string) {
    '\n' !in s
  }

  lemma InterpretedIsOneLine(
    keyword: string, args: string, parts: seq<string>, line: string, debug: seq<string> -> string)
    requires OneLine(args) && OneLine(line) && forall i :: 0 <= i < |parts| ==> OneLine(parts[i])
    requires var i := Interpret(keyword, args, parts, line);
             i.Some? && (i.value.Hook? ==> OneLine(debug(i.value.params)))
    ensures OneLine(Content(debug, Interpret(keyword, args, parts, line).value))
  {
  }

  lemma ContentIsOneLine(raw: string, debug: seq<string> -> string)
    requires OneLine(raw) && ParseLine(raw).Some?
    requires var i := ParseLine(raw).value; i.Hook? ==> OneLine(debug(i.params))
    ensures OneLine(Content(debug, ParseLine(raw).value))
  {
    var line := Trim(raw);
    TrimmedIsTight(raw);
    forall i | 0 <= i < |Words(line)| ensures OneLine(Words(line)[i]) {
      WordsAreWords(line, i);
    }
    var keyword := Upper(Words(line)[0]);
    if |line| > |keyword| {
      TrimmedIsTight(line[|keyword|..]);
    }
    InterpretedIsOneLine(keyword, ArgsAfter(line, keyword), Words(line), line, debug);
  }

  lemma {:induction false} ParsedComesFromALine<T>(f: string -> Option<T>, content: string, x: T) returns (raw: string)
    requires x in ParseLines(f, content)
    ensures OneLine(raw) && f(raw) == Some(x)
    decreases |content|
  {
    if x in Listed(f(FirstLine(content))) {
      raw := FirstLine(content);
    } else {
      raw := ParsedComesFromALine(f, OtherLines(content), x);
    }
  }

  lemma ParseConsLine<T>(f: string -> Option<T>, line: string, rest: string)
    requires OneLine(line)
    ensures ParseLines(f, line + "\n" + rest) == Listed(f(line)) + ParseLines(f, rest)
  {
    var text := line + "\n" + rest;
    assert text[|line|] == '\n';
    assert forall i :: 0 <= i < |line| ==> text[i] == line[i] && line[i] in line;
    assert LineEnd(text) == |line|;
    assert FirstLine(text) == line && OtherLines(text) == rest;
  }

  lemma {:induction false} PrintedParses(
    debug: seq<string> -> string, f: string -> Option<Instruction>, items: seq<Instruction>)
    requires forall i :: i in items ==> OneLine(Content(debug, i)) && f(Content(debug, i)) == Some(i)
    ensures ParseLines(f, Print(debug, items)) == items
  {
    if items != [] {
      ParseConsLine(f, Content(debug, items[0]), Print(debug, items[1..]));
      PrintedParses(debug, f, items[1..]);
    }
  }

  /** One text per line: a printed list parses to no more instructions, and to the same ones only if each line does. */
  lemma {:induction false} ParsedPrintedEach(
    debug: seq<string> -> string, f: string -> Option<Instruction>, items: seq<Instruction>, k: nat)
    requires forall i :: i in items ==> OneLine(Content(debug, i))
    ensures |ParseLines(f, Print(debug, items))| <= |items|
    ensures ParseLines(f, Print(debug, items)) == items && k < |items| ==> f(Content(debug, items[k])) == Some(items[k])
  {
    if items != [] {
      ParseConsLine(f, Content(debug, items[0]), Print(debug, items[1..]));
      ParsedPrintedEach(debug, f, items[1..], if k > 0 then k - 1 else 0);
      SameLists(f(Content(debug, items[0])), ParseLines(f, Print(debug, items[1..])), items);
    }
  }

  lemma SameLists<T>(first: Option<T>, rest: seq<T>, items: seq<T>)
    requires items != [] && |rest| <= |items| - 1
    ensures Listed(first) + rest == items ==> first == Some(items[0]) && rest == items[1..]
  {
    if Listed(first) + rest == items {
      assert first.Some?;
      assert items[1..] == rest;
    }
  }

  /**
    Normal form of files: a file whose instructions are all re-parsable kinds, printed
    one content text per line, parses back to the same instructions.
   */
  lemma FileNormalForm(content: string, debug: seq<string> -> string)
    requires forall i :: i in Parse(content) ==> Reparsable(i)
    ensures Parse(Print(debug, Parse(content))) == Parse(content)
  {
    forall i | i in Parse(content)
      ensures OneLine(Content(debug, i)) && ParseLine(Content(debug, i)) == Some(i)
    {
      var raw := ParsedComesFromALine(ParseLine, content, i);
      ReparseYieldsSame(raw, debug);
      ContentIsOneLine(raw, debug);
    }
    PrintedParses(debug, ParseLine, Parse(content));
  }

  // ----- exactly what the parser can produce ------------------------------------------------

  function Unwords(ws: seq<string>): string
    requires ws != []
  {
    if |ws| == 1 then ws[0] else ws[0] + " " + Unwords(ws[1..])
  }

  lemma {:induction false} UnwordsIsTight(ws: seq<string>)
    requires ws != [] && AllWords(ws)
    ensures Tight(Unwords(ws)) && Unwords(ws)[0] == ws[0][0]
  {
    if |ws| > 1 {
      UnwordsIsTight(ws[1..]);
      var rest := Unwords(ws[1..]);
      assert (ws[0] + " " + rest)[|ws[0]| + |rest|] == rest[|rest| - 1];
    }
  }

  lemma {:induction false} WordsOfUnwords(ws: seq<string>)
    requires ws != [] && AllWords(ws)
    ensures Words(Unwords(ws)) == ws
  {
    if |ws| == 1 {
      OneWord(ws[0]);
    } else {
      WordsOfUnwords(ws[1..]);
      WordThen(ws[0], Unwords(ws[1..]));
      assert [ws[0]] + ws[1..] == ws;
    }
  }

  /** A line that parses to the instruction. */
  function SourceLine(debug: seq<string> -> string, i: Instruction): string {
    match i
    case Run(command) => "RUN" + " " + command
    case RunExtend(command, _) => "RUN_EXTEND" + " " + command
    case CopyExtend(src, dst, tags) => Unwords(["COPY_EXTEND", src, dst] + tags)
    case Hook(name, params) => Unwords(["HOOK", name] + params)
    case _ => Content(debug, i)
  }

  lemma LineOfWords(ws: seq<string>)
    requires ws != [] && AllWords(ws) && ws[0][0] != '#' && Upper(ws[0]) == ws[0]
    ensures var line := Unwords(ws); ParseLine(line) == Interpret(ws[0], ArgsAfter(line, ws[0]), ws, line)
  {
    WordsOfUnwords(ws);
    UnwordsIsTight(ws);
    TrimTight(Unwords(ws));
  }

  lemma SourceLineParses(i: Instruction, debug: seq<string> -> string)
    requires Wellformed(i)
    ensures ParseLine(SourceLine(debug, i)) == Some(i)
  {
    Keywords();
    match i
    case Run(command) => KeywordAndArgs("RUN", command);
    case RunExtend(command, _) => KeywordAndArgs("RUN_EXTEND", command);
    case CopyExtend(src, dst, tags) =>
      LineOfWords(["COPY_EXTEND", src, dst] + tags);
      assert (["COPY_EXTEND", src, dst] + tags)[3..] == tags;
    case Hook(name, params) =>
      LineOfWords(["HOOK", name] + params);
      assert (["HOOK", name] + params)[2..] == params;
    case _ => ContentParses(i, debug);
  }

  /** The parser's range: an instruction is the parse of some line exactly when it is well-formed. */
  lemma ParserRange(i: Instruction)
    ensures (exists raw :: ParseLine(raw) == Some(i)) <==> Wellformed(i)
  {
    if raw :| ParseLine(raw) == Some(i) {
      ParsedIsWellformed(raw);
    }
    if Wellformed(i) {
      SourceLineParses(i, (_: seq<string>) => "");
    }
  }

  // ----- the other kinds ------------------------------------------------------------------

  lemma ArgsAreShorter(line: string, keyword: string)
    requires line != [] && keyword != []
    ensures |ArgsAfter(line, keyword)| < |line|
  {
    if |line| > |keyword| {
      TrimmedIsTight(line[|keyword|..]);
    }
  }

  lemma RunTakesArgs(keyword: string, args: string, parts: seq<string>, line: string, command: string)
    requires command != args
    ensures Interpret(keyword, args, parts, line) != Some(Run(command))
    ensures forall p :: Interpret(keyword, args, parts, line) != Some(RunExtend(command, p))
  {
  }

  /** RUN and RUN_EXTEND print the bare command, which never parses back to the instruction. */
  lemma RunNeverReparses(command: string, parallelizable: bool)
    ensures ParseLine(command) != Some(Run(command))
    ensures ParseLine(command) != Some(RunExtend(command, parallelizable))
  {
    var line := Trim(command);
    TrimmedIsTight(command);
    if line != [] && Words(line) != [] {
      WordsAreWords(line, 0);
      var keyword := Upper(Words(line)[0]);
      ArgsAreShorter(line, keyword);
      RunTakesArgs(keyword, ArgsAfter(line, keyword), Words(line), line, command);
    }
  }

  lemma ParseTight(line: string, keyword: string, more: seq<string>)
    requires Tight(line) && line[0] != '#' && Words(line) == [keyword] + more && Upper(keyword) == keyword
    ensures ParseLine(line) == Interpret(keyword, ArgsAfter(line, keyword), [keyword] + more, line)
  {
    TrimTight(line);
  }

  lemma InterpretCopyExtend(args: string, src: string, dst: string, more: seq<string>, line: string)
    ensures Interpret("COPY_EXTEND", args, ["COPY_EXTEND"] + ([src, dst] + more), line) ==
            Some(CopyExtend(src, dst, more))
  {
    assert (["COPY_EXTEND"] + ([src, dst] + more))[3..] == more;
  }

  /** COPY_EXTEND prints an arrow that parses back as the destination. */
  lemma CopyExtendReparsesWithArrow(src: string, dst: string, tags: seq<string>, debug: seq<string> -> string)
    requires IsWord(src) && IsWord(dst)
    ensures ParseLine(Content(debug, CopyExtend(src, dst, tags))) == Some(CopyExtend(src, "->", [dst]))
  {
    Keywords();
    var keyword := "COPY_EXTEND";
    var line := keyword + " " + src + " " + "->" + " " + dst;
    assert Content(debug, CopyExtend(src, dst, tags)) == line;
    FourWords(keyword, src, "->", dst);
    assert [keyword, src, "->", dst] == [keyword] + ([src, "->"] + [dst]);
    assert line[|line| - 1] == dst[|dst| - 1];
    ParseTight(line, keyword, [src, "->"] + [dst]);
    InterpretCopyExtend(ArgsAfter(line, keyword), src, "->", [dst], line);
  }

  /** What a debug-formatted list looks like: one line, in brackets, so its first word outgrows the first element. */
  ghost predicate QuotesLists(debug: seq<string> -> string) {
    forall ps: seq<string> :: AllWords(ps) ==> Quoted(debug(ps), ps)
  }

  ghost predicate Quoted(text: string, ps: seq<string>) {
    Tight(text) && OneLine(text) && Words(text) != [] && (ps != [] ==> |Words(text)[0]| > |ps[0]|)
  }

  lemma TwoWordsThen(a: string, b: string, rest: string)
    requires IsWord(a) && IsWord(b)
    ensures Words(a + " " + (b + " " + rest)) == [a] + ([b] + Words(rest))
  {
    WordThen(b, rest);
    WordThen(a, b + " " + rest);
  }

  lemma InterpretHook(args: string, name: string, params: seq<string>, line: string)
    ensures Interpret("HOOK", args, ["HOOK"] + ([name] + params), line) == Some(Hook(name, params))
  {
    assert (["HOOK"] + ([name] + params))[2..] == params;
  }

  /** The printed parameter list parses back as its words, brackets and quotes included. */
  lemma HookReparsesToListWords(name: string, params: seq<string>, debug: seq<string> -> string)
    requires IsWord(name) && Tight(debug(params))
    ensures ParseLine(Content(debug, Hook(name, params))) == Some(Hook(name, Words(debug(params))))
  {
    Keywords();
    var text := debug(params);
    var line := "HOOK" + " " + (name + " " + text);
    assert Content(debug, Hook(name, params)) == line;
    TwoWordsThen("HOOK", name, text);
    assert line[|line| - 1] == text[|text| - 1];
    ParseTight(line, "HOOK", [name] + Words(text));
    InterpretHook(ArgsAfter(line, "HOOK"), name, Words(text), line);
  }

  lemma QuotedWordsDiffer(text: string, ps: seq<string>)
    requires Quoted(text, ps)
    ensures Words(text) != ps
  {
  }

  /** The instructions whose content text parses back to them. */
  predicate Reprints(i: Instruction) {
    Reparsable(i) || (i.CopyExtend? && i.dst == "->" && i.tags == ["->"])
  }

  /** Exactly when the content text of an instruction the parser can produce parses back to it. */
  lemma ContentParsesIff(i: Instruction, debug: seq<string> -> string)
    requires Wellformed(i) && (i.Hook? ==> QuotesLists(debug))
    ensures ParseLine(Content(debug, i)) == Some(i) <==> Reprints(i)
  {
    match i
    case Run(command) => RunNeverReparses(command, true);
    case RunExtend(command, parallelizable) => RunNeverReparses(command, parallelizable);
    case CopyExtend(src, dst, tags) => CopyExtendReparsesWithArrow(src, dst, tags, debug);
    case Hook(name, params) =>
      assert Quoted(debug(params), params);
      QuotedWordsDiffer(debug(params), params);
      HookReparsesToListWords(name, params, debug);
    case _ => ContentParses(i, debug);
  }

  /** And exactly when a whole file, printed one content text per line, parses back to the same instructions. */
  lemma FileNormalFormIff(content: string, debug: seq<string> -> string)
    requires QuotesLists(debug)
    ensures Parse(Print(debug, Parse(content))) == Parse(content) <==> forall i :: i in Parse(content) ==> Reprints(i)
  {
    var items := Parse(content);
    forall i | i in items
      ensures OneLine(Content(debug, i)) && (ParseLine(Content(debug, i)) == Some(i) <==> Reprints(i))
    {
      var raw := ParsedComesFromALine(ParseLine, content, i);
      ParsedIsWellformed(raw);
      assert i.Hook? ==> Quoted(debug(i.params), i.params);
      ContentIsOneLine(raw, debug);
      ContentParsesIff(i, debug);
    }
    if forall i :: i in items ==> Reprints(i) {
      PrintedParses(debug, ParseLine, items);
    }
    forall k | 0 <= k < |items| && Parse(Print(debug, items)) == items ensures Reprints(items[k]) {
      ParsedPrintedEach(debug, ParseLine, items, k);
    }
  }

  // ----- what the content text holds ----------------------------------------------------------

  /** A RUN has its command as content: behind the keyword it parses back to the instruction. */
  lemma RunContentIsCommand(command: string, debug: seq<string> -> string)
    requires Wellformed(Run(command))
    ensures ParseLine("RUN" + " " + Content(debug, Run(command))) == Some(Run(command))
  {
    SourceLineParses(Run(command), debug);
  }

  lemma RunExtendContentIsCommand(command: string, debug: seq<string> -> string)
    requires Wellformed(RunExtend(command, true))
    ensures ParseLine("RUN_EXTEND" + " " + Content(debug, RunExtend(command, true))) == Some(RunExtend(command, true))
  {
    SourceLineParses(RunExtend(command, true), debug);
  }

  ghost predicate SameKind(i: Instruction, j: Instruction) {
    match i
    case From(_) => j.From?
    case Workdir(_) => j.Workdir?
    case Copy(_, _) => j.Copy?
    case Run(_) => j.Run?
    case Env(_, _) => j.Env?
    case Cmd(_) => j.Cmd?
    case Git(_, _) => j.Git?
    case RunExtend(_, _) => j.RunExtend?
    case CopyExtend(_, _, _) => j.CopyExtend?
    case Hook(_, _) => j.Hook?
    case Other(_) => j.Other?
  }

  lemma RunContentPins(i: Instruction, j: Instruction, debug: seq<string> -> string)
    requires Wellformed(i) && Wellformed(j) && i.Run? && j.Run? && Content(debug, i) == Content(debug, j)
    ensures i == j
  {
    RunContentIsCommand(i.command, debug);
    RunContentIsCommand(j.command, debug);
  }

  lemma RunExtendContentPins(i: Instruction, j: Instruction, debug: seq<string> -> string)
    requires Wellformed(i) && Wellformed(j) && i.RunExtend? && j.RunExtend? && Content(debug, i) == Content(debug, j)
    ensures i == j
  {
    RunExtendContentIsCommand(i.command, debug);
    RunExtendContentIsCommand(j.command, debug);
  }

  /**
    Two instructions of one kind have the same content exactly when they are the same, a
    COPY_EXTEND up to its tags, which are not part of the content.
   */
  lemma ContentPinsInstruction(i: Instruction, j: Instruction, debug: seq<string> -> string)
    requires Wellformed(i) && Wellformed(j) && SameKind(i, j) && !i.Hook?
    ensures Content(debug, i) == Content(debug, j) <==>
            (i == j || (i.CopyExtend? && i.src == j.src && i.dst == j.dst))
  {
    if Content(debug, i) == Content(debug, j) {
      if i.Run? {
        RunContentPins(i, j, debug);
      } else if i.RunExtend? {
        RunExtendContentPins(i, j, debug);
      } else if i.CopyExtend? {
        CopyExtendReparsesWithArrow(i.src, i.dst, i.tags, debug);
        CopyExtendReparsesWithArrow(j.src, j.dst, j.tags, debug);
      } else {
        ContentParses(i, debug);
        ContentParses(j, debug);
      }
    }
  }

  // ----- lines as they are written --------------------------------------------------------------

  lemma TrimLastSpace(s: string, c: char)
    requires IsSpace(c)
    ensures Trim(s + [c]) == Trim(s)
  {
    if s == [] {
      assert TrimStart([c]) == TrimStart([c][1..]) == [];
      assert s + [c] == [c];
    } else if IsSpace(s[0]) {
      assert (s + [c])[1..] == s[1..] + [c];
      TrimLastSpace(s[1..], c);
    } else {
      assert (s + [c])[..|s|] == s;
    }
  }

  lemma {:induction false} TrimAfterTrimEnd(s: string)
    ensures Trim(TrimEnd(s)) == Trim(s)
  {
    if s != [] && IsSpace(s[|s| - 1]) {
      var init := s[..|s| - 1];
      TrimAfterTrimEnd(init);
      TrimLastSpace(init, s[|s| - 1]);
      assert s == init + [s[|s| - 1]];
    }
  }

  lemma {:induction false} TrimEndAfterWord(w: string, s: string)
    requires IsWord(w)
    ensures TrimEnd(w + s) == w + TrimEnd(s)
    ensures TrimEnd(s) <= s
  {
    if s == [] {
      assert w + s == w;
    } else if IsSpace(s[|s| - 1]) {
      assert (w + s)[..|w + s| - 1] == w + s[..|s| - 1];
      TrimEndAfterWord(w, s[..|s| - 1]);
    }
  }

  lemma TailKeepsArgs(rest: string)
    ensures Trim(TrimEnd(" " + rest)) == Trim(rest)
  {
    TrimAfterTrimEnd(" " + rest);
    assert (" " + rest)[1..] == rest;
    assert TrimStart(" " + rest) == TrimStart(rest);
  }

  lemma TailAfterWord(w: string, tail: string)
    requires IsWord(w) && (tail == [] || IsSpace(tail[0]))
    ensures Words(w + tail) == [w] + Words(tail) && ArgsAfter(w + tail, w) == Trim(tail)
  {
    WordsCons(w, tail);
    assert (w + tail)[|w|..] == tail;
  }

  /** Whatever follows the first word of a line, padding included: how the line splits. */
  lemma WordThenAnything(w: string, rest: string)
    requires IsWord(w)
    ensures var tail := TrimEnd(" " + rest);
            && Trim(w + " " + rest) == w + tail && Words(w + tail) == [w] + Words(tail)
            && ArgsAfter(w + tail, w) == Trim(rest)
  {
    assert w + " " + rest == w + (" " + rest);
    TrimEndAfterWord(w, " " + rest);
    TailKeepsArgs(rest);
    TailAfterWord(w, TrimEnd(" " + rest));
  }

  lemma UpperKeepsLength(w: string)
    ensures |Upper(w)| == |w| && (w != [] && w[0] == '#' ==> Upper(w)[0] == '#')
  {
  }

  lemma ParseAnyCase(w: string, rest: string)
    requires IsWord(w) && IsKeyword(Upper(w))
    ensures var tail := TrimEnd(" " + rest);
            ParseLine(w + " " + rest) == Interpret(Upper(w), Trim(rest), [w] + Words(tail), w + tail)
  {
    WordThenAnything(w, rest);
    UpperKeepsLength(w);
    assert ArgsAfter(w + TrimEnd(" " + rest), w) == ArgsAfter(w + TrimEnd(" " + rest), Upper(w));
    assert w[0] != '#';
  }

  lemma KnownKeywordsIgnoreLine(
    keyword: string, args: string, w: string, w': string, more: seq<string>, line: string, line': string)
    requires IsKeyword(keyword)
    ensures Interpret(keyword, args, [w] + more, line) == Interpret(keyword, args, [w'] + more, line')
  {
    assert forall k :: 1 <= k <= |more| + 1 ==> ([w] + more)[k..] == ([w'] + more)[k..];
  }

  lemma LineOfAnyWords(ws: seq<string>)
    requires ws != [] && AllWords(ws) && IsKeyword(Upper(ws[0]))
    ensures var line := Unwords(ws);
            ParseLine(line) == Interpret(Upper(ws[0]), ArgsAfter(line, Upper(ws[0])), ws, line)
  {
    WordsOfUnwords(ws);
    UnwordsIsTight(ws);
    UpperKeepsLength(ws[0]);
    assert ws[0][0] != '#';
    TrimTight(Unwords(ws));
  }

  predicate ByWords(keyword: string, ws: seq<string>, parsed: Option<Instruction>) {
    match keyword
    case "FROM" => parsed == if |ws| < 2 then None else Some(From(ws[1]))
    case "WORKDIR" => parsed == if |ws| < 2 then None else Some(Workdir(ws[1]))
    case "COPY" => parsed == if |ws| < 3 then None else Some(Copy(ws[1], ws[2]))
    case "GIT" => parsed == if |ws| < 2 then None else Some(Git(ws[1], if |ws| < 3 then "." else ws[2]))
    case "COPY_EXTEND" => parsed == if |ws| < 3 then None else Some(CopyExtend(ws[1], ws[2], ws[3..]))
    case "HOOK" => parsed == if |ws| < 2 then None else Some(Hook(ws[1], ws[2..]))
    case _ => true
  }

  lemma InterpretByWords(keyword: string, args: string, ws: seq<string>, line: string)
    ensures ByWords(keyword, ws, Interpret(keyword, args, ws, line))
  {
  }

  /**
    How a line of words parses by its first word, in any case: words an instruction has no
    use for are ignored, a missing one drops the line, and GIT clones to "." by default.
   */
  lemma LineByWords(ws: seq<string>)
    requires ws != [] && AllWords(ws)
    ensures ByWords(Upper(ws[0]), ws, ParseLine(Unwords(ws)))
  {
    if IsKeyword(Upper(ws[0])) {
      LineOfAnyWords(ws);
      InterpretByWords(Upper(ws[0]), ArgsAfter(Unwords(ws), Upper(ws[0])), ws, Unwords(ws));
    }
  }

  /** RUN, RUN_EXTEND and CMD take the trimmed rest of the line. */
  lemma LineByArgs(w: string, rest: string)
    requires IsWord(w)
    ensures var parsed, args := ParseLine(w + " " + rest), Trim(rest);
            match Upper(w)
            case "RUN" => parsed == Some(Run(args))
            case "RUN_EXTEND" => parsed == Some(RunExtend(args, true))
            case "CMD" => parsed == Some(Cmd(args))
            case _ => true
  {
    if IsKeyword(Upper(w)) {
      ParseAnyCase(w, rest);
    }
  }

  /** The text is the variable's name, one blank or equals sign, and its value; the name holds neither. */
  ghost predicate EnvText(args: string, env: Instruction) {
    env.Env? && NoSplit(env.name) && (args == env.name + "=" + env.value || args == env.name + " " + env.value)
  }

  lemma InterpretEnvText(args: string, parts: seq<string>, line: string)
    ensures var env := Interpret("ENV", args, parts, line);
            if env.None? then NoSplit(args) else EnvText(args, env.value)
  {
    var n := SplitAt(args);
    assert n < |args| ==> args == args[..n] + [args[n]] + args[n + 1..];
  }

  /** ENV splits the trimmed rest of the line at its first blank or equals sign, and is dropped without one. */
  lemma EnvLine(w: string, rest: string)
    requires IsWord(w) && Upper(w) == "ENV"
    ensures var parsed := ParseLine(w + " " + rest);
            if parsed.None? then NoSplit(Trim(rest)) else EnvText(Trim(rest), parsed.value)
  {
    var tail := TrimEnd(" " + rest);
    ParseAnyCase(w, rest);
    InterpretEnvText(Trim(rest), [w] + Words(tail), w + tail);
  }

  /** The same letter of the alphabet, in whatever case, or the same other character. */
  predicate SameLetter(c: char, d: char) {
    c == d || ('a' <= c <= 'z' && c as int == d as int + 32) || ('a' <= d <= 'z' && d as int == c as int + 32)
  }

  predicate SameLetters(w: string, w': string) {
    |w| == |w'| && forall i :: 0 <= i < |w| ==> SameLetter(w[i], w'[i])
  }

  /** Upper-casing identifies exactly the texts that differ in case only. */
  lemma UpperIff(w: string, w': string)
    ensures Upper(w) == Upper(w') <==> SameLetters(w, w')
  {
    forall i | 0 <= i < |w| && |w| == |w'| ensures Upper(w)[i] == Upper(w')[i] <==> SameLetter(w[i], w'[i]) {
      assert UpperChar(w[i]) == UpperChar(w'[i]) <==> SameLetter(w[i], w'[i]);
    }
    if Upper(w) == Upper(w') {
      assert |w| == |w'|;
    }
  }

  /** The case in which a known keyword is written never matters. */
  lemma KeywordCaseIsIgnored(w: string, keyword: string, rest: string)
    requires IsKeyword(keyword) && IsWord(w) && SameLetters(w, keyword)
    ensures ParseLine(w + " " + rest) == ParseLine(keyword + " " + rest)
  {
    var tail := TrimEnd(" " + rest);
    Keywords();
    UpperIff(w, keyword);
    ParseAnyCase(w, rest);
    ParseAnyCase(keyword, rest);
    KnownKeywordsIgnoreLine(keyword, Trim(rest), w, keyword, Words(tail), w + tail, keyword + tail);
  }

  /** Blanks around a line never matter. */
  lemma PaddingIsIgnored(raw: string)
    ensures ParseLine(raw) == ParseLine(Trim(raw))
  {
    TrimmedIsTight(raw);
    if Trim(raw) != [] {
      TrimTight(Trim(raw));
    }
  }
}
