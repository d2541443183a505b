// The shell printer of internal/exec/ssh.go, and the remote shell that reads it back.
module Shell {
  import opened Text
  import opened Wrappers

  // ---------------------------------------------------------------- the printer

  // strings.ReplaceAll(s, "'", `'\''`)
  function EscapeQuotes(s: string): string {
    if s == "" then ""
    else (if s[0] == '\'' then "'\\''" else [s[0]]) + EscapeQuotes(s[1..])
  }

  function ShellQuoteArg(s: string): string {
    "'" + EscapeQuotes(s) + "'"
  }

  function Quoted(words: seq<string>): (parts: seq<string>)
    ensures |parts| == |words|
  {
    if words == [] then [] else [ShellQuoteArg(words[0])] + Quoted(words[1..])
  }

  lemma {:induction false} QuotedSnoc(words: seq<string>, w: string)
    ensures Quoted(words + [w]) == Quoted(words) + [ShellQuoteArg(w)]
  {
    if words != [] {
      assert (words + [w])[1..] == words[1..] + [w];
      QuotedSnoc(words[1..], w);
    }
  }

  method ShellJoin(command: string, args: seq<string>) returns (line: string)
    ensures line == Join(Quoted([command] + args), " ")
    ensures Words(line) == Some([command] + args)
  {
    var parts := [];
    parts := parts + [ShellQuoteArg(command)];
    for i := 0 to |args|
      invariant parts == Quoted([command] + args[..i])
    {
      QuotedSnoc([command] + args[..i], args[i]);
      assert [command] + args[..i + 1] == [command] + args[..i] + [args[i]];
      parts := parts + [ShellQuoteArg(args[i])];
    }
    assert args[..|args|] == args;
    line := Join(parts, " ");
    WordsUndoJoin([command] + args);
  }

  // ---------------------------------------------------------------- the reader

  // Token recognition by the POSIX Shell Command Language: XCU section 2.3 with the
  // backslash of section 2.2.1 and the single quotes of section 2.2.2. A character
  // that the shell gives a meaning of its own when unquoted ends in Active: the line
  // would not be a plain list of words.
  datatype Mode = Between | Unquoted | Escaped(inWord: bool) | SingleQuoted
  datatype Lexer = Lexer(done: seq<string>, mode: Mode, word: string) | Active

  const SPECIAL: string := "|&;<>()$`\"\n*?[#~=%"

  function Read(l: Lexer, c: char): Lexer {
    match l
    case Active => Active
    case Lexer(done, SingleQuoted, word) =>
      if c == '\'' then Lexer(done, Unquoted, word) else Lexer(done, SingleQuoted, word + [c])
    case Lexer(done, Escaped(inWord), word) =>
      if c == '\n' then Lexer(done, if inWord then Unquoted else Between, word)
      else Lexer(done, Unquoted, word + [c])
    case Lexer(done, mode, word) =>
      if c == '\'' then Lexer(done, SingleQuoted, word)
      else if c == '\\' then Lexer(done, Escaped(mode == Unquoted), word)
      else if IsBlank(c) then (if mode == Unquoted then Lexer(done + [word], Between, "") else l)
      else if c in SPECIAL then Active
      else Lexer(done, Unquoted, word + [c])
  }

  function ReadAll(l: Lexer, s: string): Lexer
    decreases |s|
  {
    if s == "" then l else ReadAll(Read(l, s[0]), s[1..])
  }

  // The words of a line; None for an unterminated quote or an active character.
  function Words(line: string): Option<seq<string>> {
    match ReadAll(Lexer([], Between, ""), line)
    case Lexer(done, Between, _) => Some(done)
    case Lexer(done, Unquoted, word) => Some(done + [word])
    case _ => None
  }

  // ---------------------------------------------------------------- the round trip

  lemma {:induction false} ReadAllConcat(l: Lexer, a: string, b: string)
    ensures ReadAll(l, a + b) == ReadAll(ReadAll(l, a), b)
    decreases |a|
  {
    if a == "" {
      assert a + b == b;
    } else {
      assert (a + b)[1..] == a[1..] + b;
      ReadAllConcat(Read(l, a[0]), a[1..], b);
    }
  }

  lemma ReadEscapedQuote(done: seq<string>, word: string)
    ensures ReadAll(Lexer(done, SingleQuoted, word), "'\\''") == Lexer(done, SingleQuoted, word + "'")
  {
    var l1 := Read(Lexer(done, SingleQuoted, word), '\'');
    var l2 := Read(l1, '\\');
    var l3 := Read(l2, '\'');
    var l4 := Read(l3, '\'');
    assert "'\\''"[1..] == "\\''" && "\\''"[1..] == "''" && "''"[1..] == "'" && "'"[1..] == "";
    assert ReadAll(l1, "\\''") == ReadAll(l2, "''") == ReadAll(l3, "'") == ReadAll(l4, "");
  }

  lemma {:induction false} ReadQuotedBody(done: seq<string>, word: string, s: string)
    ensures ReadAll(Lexer(done, SingleQuoted, word), EscapeQuotes(s)) == Lexer(done, SingleQuoted, word + s)
    decreases |s|
  {
    if s == "" {
      assert word + s == word;
    } else {
      var l := Lexer(done, SingleQuoted, word);
      var head := if s[0] == '\'' then "'\\''" else [s[0]];
      ReadAllConcat(l, head, EscapeQuotes(s[1..]));
      if s[0] == '\'' {
        ReadEscapedQuote(done, word);
      } else {
        assert head[1..] == "" && ReadAll(Read(l, s[0]), "") == Read(l, s[0]);
      }
      ReadQuotedBody(done, word + [s[0]], s[1..]);
      assert word + [s[0]] + s[1..] == word + s;
    }
  }

  // A quoted argument is read as one word, also when it is empty.
  lemma ReadQuotedArg(done: seq<string>, s: string)
    ensures ReadAll(Lexer(done, Between, ""), ShellQuoteArg(s)) == Lexer(done, Unquoted, s)
  {
    var open := Lexer(done, SingleQuoted, "");
    var body := EscapeQuotes(s);
    assert ShellQuoteArg(s)[1..] == body + "'";
    ReadAllConcat(open, body, "'");
    ReadQuotedBody(done, "", s);
    assert "" + s == s && "'"[1..] == "";
    assert ReadAll(Lexer(done, SingleQuoted, s), "'") == ReadAll(Lexer(done, Unquoted, s), "");
  }

  lemma {:induction false} ReadLine(done: seq<string>, words: seq<string>)
    requires words != []
    ensures ReadAll(Lexer(done, Between, ""), Join(Quoted(words), " "))
         == Lexer(done + words[..|words| - 1], Unquoted, words[|words| - 1])
    decreases |words|
  {
    var start := Lexer(done, Between, "");
    ReadQuotedArg(done, words[0]);
    if |words| == 1 {
      assert done + words[..0] == done;
    } else {
      var q, rest := ShellQuoteArg(words[0]), Join(Quoted(words[1..]), " ");
      assert Join(Quoted(words), " ") == q + (" " + rest);
      ReadAllConcat(start, q, " " + rest);
      assert (" " + rest)[1..] == rest;
      ReadLine(done + [words[0]], words[1..]);
      assert done + [words[0]] + words[1..][..|words| - 2] == done + words[..|words| - 1];
    }
  }

  lemma WordsUndoJoin(words: seq<string>)
    requires words != []
    ensures Words(Join(Quoted(words), " ")) == Some(words)
  {
    ReadLine([], words);
    assert [] + words[..|words| - 1] + [words[|words| - 1]] == words;
  }

  lemma ShellJoinInjective(words: seq<string>, others: seq<string>)
    requires words != [] && others != []
    requires Join(Quoted(words), " ") == Join(Quoted(others), " ")
    ensures words == others
  {
    WordsUndoJoin(words);
    WordsUndoJoin(others);
  }
}
