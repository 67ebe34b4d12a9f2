/** Building shell command lines: `shell_escape` and `shell_command` of the judge worker
    (services/judge-worker/src/sandbox.rs) and the character loop of the default runner
    (services/judge-worker/default-components/default_runner.cpp), against the quoting rules of
    the POSIX shell. */
module ShellQuoting {
  import opened Basics

  const NUL: char := '\0'

  /** `replace` of a quote by quote, backslash, quote, quote. */
  function ReplaceQuotes(s: string): string {
    if s == [] then "" else (if s[0] == '\'' then "'\\''" else [s[0]]) + ReplaceQuotes(s[1..])
  }

  /** `shell_escape`. */
  function Escape(s: string): string {
    "'" + ReplaceQuotes(s) + "'"
  }

  /** `shell_quote`: the same text, character by character. */
  method Quote(s: string) returns (out: string)
    ensures out == Escape(s)
  {
    out := "'";
    for i := 0 to |s|
      invariant out + ReplaceQuotes(s[i..]) == "'" + ReplaceQuotes(s)
    {
      assert s[i..][1..] == s[i+1..];
      if s[i] == '\'' {
        out := out + "'\\''";
      } else {
        out := out + [s[i]];
      }
    }
    out := out + "'";
  }

  function Escaped(words: seq<string>): (parts: seq<string>)
    ensures |parts| == |words| && forall i :: 0 <= i < |words| ==> parts[i] == Escape(words[i])
  {
    if words == [] then [] else [Escape(words[0])] + Escaped(words[1..])
  }

  /** `shell_command`. */
  method ShellCommand(command: string, args: seq<string>) returns (line: string)
    ensures line == Join(Escaped([command] + args), ' ')
    ensures NulFree([command] + args) <==> Words(line, None, false) == Some([command] + args)
  {
    var parts := [Escape(command)];
    for i := 0 to |args|
      invariant |parts| == i + 1 && parts[0] == Escape(command)
      invariant forall j :: 0 <= j < i ==> parts[j+1] == Escape(args[j])
    {
      parts := parts + [Escape(args[i])];
    }
    assert parts == Escaped([command] + args);
    line := Join(parts, ' ');
    ShellUndoesQuoting([command] + args);
  }

  ghost predicate NulFree(words: seq<string>) {
    forall i :: 0 <= i < |words| ==> NUL !in words[i]
  }

  /** Characters that mean more than themselves outside quotes. */
  predicate Special(c: char) {
    c in "|&;<>()$`\"*?[#~=%\n"
  }

  /** The words a POSIX shell reads from the text, quotes removed (sections 2.2.1, 2.2.2 and 2.3
      of the XCU volume of POSIX.1-2017). `word` is the word begun so far and `quoted` tells
      that the reader is between single quotes. `None` where a NUL occurs, a quote is not
      closed, or an unquoted character has a meaning beyond quoting. */
  function Words(text: string, word: Option<string>, quoted: bool): Option<seq<string>> {
    var begun := if word.Some? then word.value else "";
    if text == [] then
      if quoted then None else Some(if word.Some? then [begun] else [])
    else if text[0] == NUL then None
    else if quoted then
      if text[0] == '\'' then Words(text[1..], Some(begun), false)
      else Words(text[1..], Some(begun + [text[0]]), true)
    else if text[0] == '\'' then Words(text[1..], Some(begun), true)
    else if text[0] == '\\' then
      if |text| == 1 || text[1] == NUL then None
      else if text[1] == '\n' then Words(text[2..], word, false)
      else Words(text[2..], Some(begun + [text[1]]), false)
    else if text[0] == ' ' || text[0] == '\t' then
      var rest := Words(text[1..], None, false);
      if word.None? || rest.None? then rest else Some([begun] + rest.value)
    else if Special(text[0]) then None
    else Words(text[1..], Some(begun + [text[0]]), false)
  }

  /** Between quotes the shell reads back exactly what was escaped. */
  lemma {:induction false} ReadsEscaped(s: string, word: string, rest: string)
    ensures Words(ReplaceQuotes(s) + "'" + rest, Some(word), true) ==
            if NUL in s then None else Words(rest, Some(word + s), false)
  {
    var text := ReplaceQuotes(s) + "'" + rest;
    if s == [] {
      assert text[1..] == rest && word + s == word;
    } else {
      var tail := ReplaceQuotes(s[1..]) + "'" + rest;
      if s[0] == '\'' {
        assert text == "'\\''" + tail;
        ReadsQuote(word, tail);
        ReadsEscaped(s[1..], word + ['\''], rest);
      } else {
        assert text == [s[0]] + tail && text[1..] == tail;
        ReadsEscaped(s[1..], word + [s[0]], rest);
      }
      assert word + [s[0]] + s[1..] == word + s;
    }
  }

  /** Closing, an escaped quote and opening again add one quote to the word. */
  lemma ReadsQuote(word: string, tail: string)
    ensures Words("'\\''" + tail, Some(word), true) == Words(tail, Some(word + ['\'']), true)
  {
    var text := "'\\''" + tail;
    var closed, open := "\\''" + tail, "'" + tail;
    assert text[1..] == closed && closed[2..] == open && open[1..] == tail;
    assert Words(text, Some(word), true) == Words(closed, Some(word), false);
    assert Words(closed, Some(word), false) == Words(open, Some(word + ['\'']), false);
  }

  /** One escaped word, with what follows it. */
  lemma ReadsWord(s: string, rest: string)
    ensures Words(Escape(s) + rest, None, false) == if NUL in s then None else Words(rest, Some(s), false)
  {
    var text := Escape(s) + rest;
    assert text[1..] == ReplaceQuotes(s) + "'" + rest;
    ReadsEscaped(s, "", rest);
    assert "" + s == s;
  }

  /** The shell reads back the words, exactly when none holds a NUL. */
  lemma {:induction false} ShellUndoesQuoting(words: seq<string>)
    requires words != []
    ensures Words(Join(Escaped(words), ' '), None, false) == if NulFree(words) then Some(words) else None
  {
    var line := Join(Escaped(words), ' ');
    if |words| == 1 {
      ReadsWord(words[0], "");
      assert Escape(words[0]) + "" == line && words == [words[0]];
    } else {
      var rest := " " + Join(Escaped(words[1..]), ' ');
      assert Escaped(words)[1..] == Escaped(words[1..]);
      assert line == Escape(words[0]) + rest;
      ReadsWord(words[0], rest);
      ShellUndoesQuoting(words[1..]);
      assert rest[1..] == Join(Escaped(words[1..]), ' ');
      assert words == [words[0]] + words[1..];
      assert NulFree(words) <==> NUL !in words[0] && NulFree(words[1..]) by { NulFreeCons(words); }
    }
  }

  lemma NulFreeCons(words: seq<string>)
    requires words != []
    ensures NulFree(words) <==> NUL !in words[0] && NulFree(words[1..])
  {
    if NulFree(words[1..]) && NUL !in words[0] {
      forall i | 0 <= i < |words| ensures NUL !in words[i] {
        assert i > 0 ==> words[i] == words[1..][i-1];
      }
    }
  }
}
